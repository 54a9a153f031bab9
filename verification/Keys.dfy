/** Storage keys: which are allowed, and the half-open range that stands for a prefix. */
module Keys {
  import opened Text

  const MAX_KEY: int := 1500

  predicate ValidKey(key: string) {
    && key != "" && |key| <= MAX_KEY && '/' !in key
    && key != "." && key != ".."
    && !("__" <= key && |key| >= 2 && key[|key| - 2..] == "__")
  }

  predicate ValidPrefix(prefix: string) { prefix == "" || ValidKey(prefix) }

  /** What a store refuses as a key: nothing, too much, a slash, the two dots, and anything that begins and
      ends with two underscores. */
  lemma {:induction false} KeysExactly(key: string)
    ensures ValidKey(key) <==>
              && 1 <= |key| <= 1500 && (forall i :: 0 <= i < |key| ==> key[i] != '/')
              && key != "." && key != ".." && key != "__" && key != "___"
              && !exists middle :: key == "__" + middle + "__"
  {
    if "__" <= key && |key| >= 4 && key[|key| - 2..] == "__" {
      assert key == "__" + key[2..|key| - 2] + "__";
    }
    if |key| == 3 && "__" <= key && key[1..] == "__" {
      assert key == "___";
    }
    if |key| == 2 && "__" <= key {
      assert key == "__";
    }
    if middle :| key == "__" + middle + "__" {
      assert key[|key| - 2..] == "__";
    }
  }

  const TOP: char := 0xFF as char

  predicate AllTop(s: string) { forall i :: 0 <= i < |s| ==> s[i] == TOP }

  /** The last byte below 0xFF, raised by one, with what follows it dropped. */
  function Successor(prefix: string): string
    requires IsBytes(prefix)
  {
    if prefix == "" then ""
    else if prefix[|prefix| - 1] < TOP then prefix[..|prefix| - 1] + [prefix[|prefix| - 1] + 1 as char]
    else Successor(prefix[..|prefix| - 1])
  }

  method PrefixSuccessor(prefix: string) returns (r: string)
    requires IsBytes(prefix)
    ensures r == if AllTop(prefix) then prefix else Successor(prefix)
  {
    var b := prefix;
    var i := |b| - 1;
    assert prefix[..|prefix|] == prefix;
    while i >= 0
      invariant -1 <= i < |prefix| && b == prefix
      invariant forall j :: i < j < |prefix| ==> prefix[j] == TOP
      invariant Successor(prefix) == Successor(prefix[..i + 1])
    {
      assert prefix[..i + 1][..i] == prefix[..i];
      if b[i] < TOP {
        b := b[i := b[i] + 1 as char];
        assert b[..i + 1] == prefix[..i] + [prefix[i] + 1 as char];
        return b[..i + 1];
      }
      i := i - 1;
    }
    return prefix;
  }

  predicate InRange(prefix: string, k: string)
    requires IsBytes(prefix)
  {
    AtMost(prefix, k) && Less(k, if AllTop(prefix) then prefix else Successor(prefix))
  }

  /** Successor works on the rest of the prefix when that is not all 0xFF. */
  lemma SuccessorSnoc(s: string, c: char)
    requires IsBytes(s + [c])
    ensures IsBytes(s) && Successor(s + [c]) == if c < TOP then s + [c + 1 as char] else Successor(s)
    ensures AllTop(s + [c]) <==> AllTop(s) && c == TOP
  {
    assert (s + [c])[..|s|] == s && (s + [c])[|s|] == c;
    assert forall i :: 0 <= i < |s| ==> (s + [c])[i] == s[i];
  }

  lemma AllTopCons(h: char, s: string)
    ensures AllTop([h] + s) <==> h == TOP && AllTop(s)
    ensures IsBytes([h] + s) ==> IsBytes(s) && h <= TOP
  {
    assert ([h] + s)[0] == h && forall i :: 0 <= i < |s| ==> ([h] + s)[i + 1] == s[i];
  }

  lemma SuccessorCons(h: char, s: string)
    requires IsBytes([h] + s) && !AllTop([h] + s)
    ensures IsBytes(s)
    ensures Successor([h] + s) == if AllTop(s) then [h + 1 as char] else [h] + Successor(s)
    ensures AllTop(s) ==> h < TOP
    decreases |s|
  {
    hide Successor, AllTop, IsBytes;
    AllTopCons(h, s);
    if s == "" {
      assert [h] + s == [] + [h];
      SuccessorSnoc([], h);
      SuccessorNone();
    } else {
      var t, l := s[..|s| - 1], s[|s| - 1];
      assert s == t + [l] && [h] + s == ([h] + t) + [l];
      SuccessorSnoc([h] + t, l);
      SuccessorSnoc(t, l);
      BytesLast(s);
      if l == TOP {
        SuccessorCons(h, t);
      } else {
        assert [h] + t + [l + 1 as char] == [h] + (t + [l + 1 as char]);
      }
    }
  }

  lemma SuccessorNone()
    ensures AllTop("") && IsBytes("")
  {
  }

  lemma BytesLast(s: string)
    requires IsBytes(s) && s != ""
    ensures s[|s| - 1] <= TOP
  {
  }

  lemma SuccessorStep(prefix: string)
    requires IsBytes(prefix) && !AllTop(prefix)
    ensures prefix != "" && IsBytes(prefix[1..])
    ensures !AllTop(prefix[1..]) ==> Successor(prefix) == [prefix[0]] + Successor(prefix[1..])
    ensures AllTop(prefix[1..]) ==> prefix[0] < TOP && Successor(prefix) == [prefix[0] + 1 as char]
  {
    hide Successor, IsBytes;
    assert prefix != "";
    assert prefix == [prefix[0]] + prefix[1..];
    SuccessorCons(prefix[0], prefix[1..]);
  }

  lemma PrefixStep(s: string, k: string)
    requires s != ""
    ensures s <= k <==> k != "" && k[0] == s[0] && s[1..] <= k[1..]
  {
    assert s == [s[0]] + s[1..];
    if k != "" {
      assert k == [k[0]] + k[1..];
    }
  }

  /** The range from a prefix to its successor holds exactly the keys that start with the prefix. */
  lemma {:induction false} RangeIsPrefix(prefix: string, k: string)
    requires IsBytes(prefix) && IsBytes(k) && !AllTop(prefix)
    ensures InRange(prefix, k) <==> prefix <= k
  {
    SuccessorStep(prefix);
    PrefixStep(prefix, k);
    var rest := if AllTop(prefix[1..]) then "" else Successor(prefix[1..]);
    assert Successor(prefix)[1..] == rest;
    if k != "" {
      EmptyLeast(k[1..]);
      if k[0] == prefix[0] {
        if AllTop(prefix[1..]) {
          TopIsLeast(prefix[1..], k[1..]);
        } else {
          RangeIsPrefix(prefix[1..], k[1..]);
        }
      }
    }
  }

  lemma EmptyLeast(k: string)
    ensures !Less(k, "")
  {
  }

  /** Among byte strings nothing after a run of 0xFF fails to start with it. */
  lemma TopIsLeast(s: string, k: string)
    requires AllTop(s) && IsBytes(k)
    ensures AtMost(s, k) <==> s <= k
  {
    if s != "" {
      PrefixStep(s, k);
      if k != "" && k[0] == TOP {
        TopIsLeast(s[1..], k[1..]);
      }
    }
  }

  /** A prefix that is all 0xFF has no successor: its range is empty, though it starts itself. The
      range scan agrees with the prefix filter for every other prefix, and for no such one. */
  lemma {:induction false} RangeAgreesExactly(prefix: string)
    requires IsBytes(prefix)
    ensures !AllTop(prefix) <==> forall k :: IsBytes(k) ==> (InRange(prefix, k) <==> prefix <= k)
  {
    if AllTop(prefix) {
      LessTotal(prefix, prefix);
      assert prefix <= prefix && !InRange(prefix, prefix);
    } else {
      forall k | IsBytes(k) ensures InRange(prefix, k) <==> prefix <= k {
        RangeIsPrefix(prefix, k);
      }
    }
  }
}
