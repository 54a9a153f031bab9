/** Blacklist storage keys: entry text escaped behind the prefix of its chat, thread and list. */
module ScopeKeys {
  import opened GoInt
  import opened Decimal
  import opened Keys

  const MAX_ENTRY: int := 200

  /** strings.ReplaceAll: leftmost matches first, none overlapping. */
  function ReplaceAll(s: string, from: string, to: string): string
    requires from != ""
    decreases |s|
  {
    if |s| < |from| then s
    else if s[..|from|] == from then to + ReplaceAll(s[|from|..], from, to)
    else [s[0]] + ReplaceAll(s[1..], from, to)
  }

  function EncodeKeyText(s: string): string { ReplaceAll(ReplaceAll(s, "%", "%25"), "/", "%2F") }

  function DecodeKeyText(s: string): string { ReplaceAll(ReplaceAll(s, "%2F", "/"), "%25", "%") }

  // ----- The escaping, one character at a time -----

  function Escape(c: char): string {
    if c == '%' then "%25" else if c == '/' then "%2F" else [c]
  }

  function EscapeAll(s: string): string { if s == "" then "" else Escape(s[0]) + EscapeAll(s[1..]) }

  /** After the first pass: only '%' is escaped. */
  function EscapePercent(s: string): string {
    if s == "" then "" else (if s[0] == '%' then "%25" else [s[0]]) + EscapePercent(s[1..])
  }

  lemma ReplaceOne(s: string, from: char, to: string)
    requires s != ""
    ensures ReplaceAll(s, [from], to) == (if s[0] == from then to else [s[0]]) + ReplaceAll(s[1..], [from], to)
  {
  }

  lemma PercentPass(s: string)
    ensures ReplaceAll(s, "%", "%25") == EscapePercent(s)
  {
    if s != "" {
      ReplaceOne(s, '%', "%25");
      PercentPass(s[1..]);
    }
  }

  /** A character that is not '/' passes the second step untouched. */
  lemma SlashSkip(c: char, s: string)
    requires c != '/'
    ensures ReplaceAll([c] + s, "/", "%2F") == [c] + ReplaceAll(s, "/", "%2F")
  {
    ReplaceOne([c] + s, '/', "%2F");
    assert ([c] + s)[1..] == s;
  }

  lemma SlashPass(s: string)
    ensures ReplaceAll(EscapePercent(s), "/", "%2F") == EscapeAll(s)
  {
    if s != "" {
      var rest := EscapePercent(s[1..]);
      SlashPass(s[1..]);
      if s[0] == '%' {
        assert "%25" + rest == ['%'] + (['2'] + (['5'] + rest));
        SlashSkip('%', ['2'] + (['5'] + rest));
        SlashSkip('2', ['5'] + rest);
        SlashSkip('5', rest);
      } else {
        ReplaceOne([s[0]] + rest, '/', "%2F");
        assert ([s[0]] + rest)[1..] == rest;
      }
    }
  }

  lemma {:induction false} EncodeIsEscape(s: string)
    ensures EncodeKeyText(s) == EscapeAll(s)
  {
    PercentPass(s);
    SlashPass(s);
  }

  lemma Skip3(c: char, s: string, from: string, to: string)
    requires |from| == 3 && (c != from[0] || |s| < 2 || [c] + s[..2] != from)
    ensures ReplaceAll([c] + s, from, to) == [c] + ReplaceAll(s, from, to)
  {
    var whole := [c] + s;
    assert whole[1..] == s;
    if |s| >= 2 {
      assert whole[..3] == [c] + s[..2];
    } else {
      assert ReplaceAll(s, from, to) == s;
    }
  }

  lemma Hit3(s: string, from: string, to: string)
    requires |from| == 3
    ensures ReplaceAll(from + s, from, to) == to + ReplaceAll(s, from, to)
  {
    assert (from + s)[..3] == from && (from + s)[3..] == s;
  }

  /** Undoing '%2F' first leaves exactly the text with '%' still escaped. */
  lemma UnslashPass(s: string)
    ensures ReplaceAll(EscapeAll(s), "%2F", "/") == EscapePercent(s)
  {
    if s != "" {
      var rest := EscapeAll(s[1..]);
      UnslashPass(s[1..]);
      if s[0] == '/' {
        Hit3(rest, "%2F", "/");
      } else if s[0] == '%' {
        assert "%25" + rest == ['%'] + (['2'] + (['5'] + rest));
        assert (['2'] + (['5'] + rest))[..2] == "25" && (['%'] + "25")[2] == '5' && "%2F"[2] == 'F';
        Skip3('%', ['2'] + (['5'] + rest), "%2F", "/");
        Skip3('2', ['5'] + rest, "%2F", "/");
        Skip3('5', rest, "%2F", "/");
      } else {
        Skip3(s[0], rest, "%2F", "/");
      }
    }
  }

  lemma UnpercentPass(s: string)
    ensures ReplaceAll(EscapePercent(s), "%25", "%") == s
  {
    if s != "" {
      var rest := EscapePercent(s[1..]);
      UnpercentPass(s[1..]);
      if s[0] == '%' {
        Hit3(rest, "%25", "%");
      } else {
        Skip3(s[0], rest, "%25", "%");
      }
    }
  }

  /** Decoding undoes encoding, whatever the text holds. */
  lemma {:induction false} DecodeEncode(s: string)
    ensures DecodeKeyText(EncodeKeyText(s)) == s
  {
    EncodeIsEscape(s);
    UnslashPass(s);
    UnpercentPass(s);
  }

  lemma EscapeShape(s: string)
    ensures '/' !in EscapeAll(s) && |EscapeAll(s)| <= 3 * |s|
  {
    if s != "" {
      EscapeShape(s[1..]);
    }
  }

  // ----- Scopes -----

  datatype List = Black | White

  datatype Scope = Scope(chat: int, thread: int, list: List)

  function Tag(list: List): string { if list == Black then "b" else "w" }

  function ScopePrefix(scope: Scope): string {
    Itoa(scope.chat) + ":" + Itoa(scope.thread) + ":" + Tag(scope.list) + ":"
  }

  function EntryKey(scope: Scope, text: string): string { ScopePrefix(scope) + EncodeKeyText(text) }

  lemma TailExact(a: Scope, b: Scope, s: string, t: string)
    requires Itoa(a.thread) + [':'] + (Tag(a.list) + ":" + s) == Itoa(b.thread) + [':'] + (Tag(b.list) + ":" + t)
    ensures a.thread == b.thread && a.list == b.list && s == t
  {
    hide Itoa;
    var x, y := Tag(a.list) + ":" + s, Tag(b.list) + ":" + t;
    ItoaPrefix(a.thread, b.thread, ':', x, y);
    assert x[0] == Tag(a.list)[0] && y[0] == Tag(b.list)[0];
    assert s == x[2..] && t == y[2..];
  }

  lemma KeyShape(scope: Scope, s: string)
    ensures ScopePrefix(scope) + s
        == Itoa(scope.chat) + [':'] + (Itoa(scope.thread) + [':'] + (Tag(scope.list) + ":" + s))
  {
    hide Itoa;
  }

  /** Keys of two scopes agree only when the scopes and the rest agree. */
  lemma {:induction false} PrefixExact(a: Scope, b: Scope, s: string, t: string)
    requires ScopePrefix(a) + s == ScopePrefix(b) + t
    ensures a == b && s == t
  {
    hide ScopePrefix, Itoa, Tag;
    KeyShape(a, s);
    KeyShape(b, t);
    ItoaPrefix(a.chat, b.chat, ':', Itoa(a.thread) + [':'] + (Tag(a.list) + ":" + s),
      Itoa(b.thread) + [':'] + (Tag(b.list) + ":" + t));
    TailExact(a, b, s, t);
  }

  /** Listing a scope's prefix finds exactly the entries of that scope, among all keys ever made. */
  lemma {:induction false} ScopesAreIsolated(a: Scope, b: Scope, text: string)
    ensures ScopePrefix(a) <= EntryKey(b, text) <==> a == b
  {
    if ScopePrefix(a) <= EntryKey(b, text) {
      PrefixExact(a, b, EntryKey(b, text)[|ScopePrefix(a)|..], EncodeKeyText(text));
    }
  }

  /** The text of an entry is read back from its key. */
  lemma {:induction false} EntryKeyExact(a: Scope, b: Scope, text: string, other: string)
    ensures EntryKey(a, text) == EntryKey(b, other) <==> a == b && text == other
    ensures DecodeKeyText(EntryKey(a, text)[|ScopePrefix(a)|..]) == text
  {
    DecodeEncode(text);
    DecodeEncode(other);
    assert EntryKey(a, text)[|ScopePrefix(a)|..] == EncodeKeyText(text);
    if EntryKey(a, text) == EntryKey(b, other) {
      PrefixExact(a, b, EncodeKeyText(text), EncodeKeyText(other));
    }
  }

  lemma PrefixShape(scope: Scope)
    requires MIN_INT64 <= scope.chat <= MAX_INT64 && MIN_INT64 <= scope.thread <= MAX_INT64
    ensures 4 <= |ScopePrefix(scope)| <= 44 && '/' !in ScopePrefix(scope) && ScopePrefix(scope)[0] != '_'
        && ScopePrefix(scope)[0] != '.'
  {
    ItoaChars(scope.chat);
    ItoaChars(scope.thread);
    ItoaLength(scope.chat);
    ItoaLength(scope.thread);
    assert ScopePrefix(scope)[0] == Itoa(scope.chat)[0];
    assert '/' !in Itoa(scope.chat) && '/' !in Itoa(scope.thread);
  }

  /** Every entry within the length cap makes a key the store accepts. */
  lemma {:induction false} EntryKeyIsValid(scope: Scope, text: string)
    requires MIN_INT64 <= scope.chat <= MAX_INT64 && MIN_INT64 <= scope.thread <= MAX_INT64
    requires |text| <= MAX_ENTRY
    ensures ValidKey(EntryKey(scope, text)) && ValidPrefix(ScopePrefix(scope))
  {
    EncodeIsEscape(text);
    EscapeShape(text);
    PrefixShape(scope);
    assert EntryKey(scope, text)[0] == ScopePrefix(scope)[0];
  }
}
