/** The blacklist verdict: a match is rescued only by a whitelist occurrence that contains it. */
module Blacklist {
  import opened Wrappers
  import opened Text

  datatype Verdict = Verdict(blocked: bool, entry: string, rescuedBy: string)
  datatype Span = Span(start: int, end: int)
  datatype AllowSpan = AllowSpan(span: Span, entry: string)

  const NOTHING := Verdict(false, "", "")

  // ----- The rule -----

  predicate Occurs(text: string, sub: string, i: int) {
    0 <= i && i + |sub| <= |text| && text[i..i + |sub|] == sub
  }

  predicate Contains(outer: Span, inner: Span) { outer.start <= inner.start && inner.end <= outer.end }

  function SpanOf(sub: string, i: int): Span { Span(i, i + |sub|) }

  ghost predicate Covered(text: string, whitelist: seq<string>, s: Span) {
    exists w, j :: w in whitelist && w != "" && Occurs(text, w, j) && j <= s.start && s.end <= j + |w|
  }

  ghost predicate Uncovered(text: string, whitelist: seq<string>, entry: string) {
    entry != "" && exists i :: Occurs(text, entry, i) && !Covered(text, whitelist, SpanOf(entry, i))
  }

  ghost predicate Blocks(text: string, blacklist: seq<string>, whitelist: seq<string>) {
    exists b :: b in blacklist && Uncovered(text, whitelist, b)
  }

  // ----- What the loops compute -----

  /** Every start in the text, one byte after another, overlapping ones included. */
  function AllOccurrences(text: string, sub: string, off: nat): seq<Span>
    decreases |text| - off
  {
    if off >= |text| then []
    else if Occurs(text, sub, off) then [SpanOf(sub, off)] + AllOccurrences(text, sub, off + 1)
    else AllOccurrences(text, sub, off + 1)
  }

  /** strings.Index from an offset: the first occurrence there or later, or -1. */
  function IndexFrom(text: string, sub: string, off: nat): (i: int)
    requires off <= |text|
    ensures i == -1 || (off <= i && Occurs(text, sub, i))
    ensures forall j :: off <= j && (i == -1 || j < i) ==> !Occurs(text, sub, j)
    decreases |text| - off
  {
    if Occurs(text, sub, off) then off
    else if off == |text| then -1
    else IndexFrom(text, sub, off + 1)
  }

  lemma OccurrencesSkip(text: string, sub: string, off: nat, to: nat)
    requires off <= to <= |text| && forall j :: off <= j < to ==> !Occurs(text, sub, j)
    ensures AllOccurrences(text, sub, off) == AllOccurrences(text, sub, to)
    decreases |text| - off
  {
    if off < to {
      OccurrencesSkip(text, sub, off + 1, to);
    }
  }

  lemma OccurrenceHere(text: string, sub: string, at: nat)
    requires at < |text| && Occurs(text, sub, at)
    ensures AllOccurrences(text, sub, at) == [Span(at, at + |sub|)] + AllOccurrences(text, sub, at + 1)
  {
  }

  method Occurrences(text: string, sub: string) returns (out: seq<Span>)
    ensures out == AllOccurrences(text, sub, 0)
  {
    out := [];
    var off := 0;
    while off < |text|
      invariant 0 <= off
      invariant out + AllOccurrences(text, sub, off) == AllOccurrences(text, sub, 0)
    {
      var start := IndexFrom(text, sub, off);
      if start < 0 {
        OccurrencesSkip(text, sub, off, |text|);
        break;
      }
      assert sub == "" ==> Occurs(text, sub, off);
      OccurrencesSkip(text, sub, off, start);
      OccurrenceHere(text, sub, start);
      out := out + [Span(start, start + |sub|)];
      off := start + 1;
    }
  }

  function SpansOf(entry: string, spans: seq<Span>): seq<AllowSpan> {
    seq(|spans|, i requires 0 <= i < |spans| => AllowSpan(spans[i], entry))
  }

  function Allowed(text: string, whitelist: seq<string>): seq<AllowSpan> {
    if whitelist == [] then []
    else
      var entry := whitelist[|whitelist| - 1];
      Allowed(text, whitelist[..|whitelist| - 1])
        + (if entry == "" then [] else SpansOf(entry, AllOccurrences(text, entry, 0)))
  }

  method AllowSpans(text: string, whitelist: seq<string>) returns (out: seq<AllowSpan>)
    ensures out == Allowed(text, Sort(whitelist))
  {
    out := [];
    var sorted := Sort(whitelist);
    for i := 0 to |sorted|
      invariant out == Allowed(text, sorted[..i])
    {
      assert sorted[..i + 1][..i] == sorted[..i];
      var entry := sorted[i];
      if entry == "" {
        continue;
      }
      var spans := Occurrences(text, entry);
      ghost var before := out;
      for j := 0 to |spans|
        invariant out == before + SpansOf(entry, spans[..j])
      {
        assert SpansOf(entry, spans[..j + 1]) == SpansOf(entry, spans[..j]) + [AllowSpan(spans[j], entry)];
        out := out + [AllowSpan(spans[j], entry)];
      }
      assert spans[..|spans|] == spans;
    }
    assert sorted[..|sorted|] == sorted;
  }

  /** The first allowed span that contains s, by its entry. */
  function CoveredBy(s: Span, allowed: seq<AllowSpan>): Option<string> {
    if allowed == [] then None
    else if Contains(allowed[0].span, s) then Some(allowed[0].entry)
    else CoveredBy(s, allowed[1..])
  }

  function JudgeSpans(entry: string, spans: seq<Span>, allowed: seq<AllowSpan>, rescued: Verdict): Verdict {
    if spans == [] then rescued
    else
      match CoveredBy(spans[0], allowed)
      case None => Verdict(true, entry, "")
      case Some(w) =>
        JudgeSpans(entry, spans[1..], allowed, if rescued.entry == "" then Verdict(false, entry, w) else rescued)
  }

  function Judge(text: string, blacklist: seq<string>, allowed: seq<AllowSpan>, rescued: Verdict): Verdict
    decreases |blacklist|
  {
    if blacklist == [] then rescued
    else if blacklist[0] == "" then Judge(text, blacklist[1..], allowed, rescued)
    else
      var v := JudgeSpans(blacklist[0], AllOccurrences(text, blacklist[0], 0), allowed, rescued);
      if v.blocked then v else Judge(text, blacklist[1..], allowed, v)
  }

  function VerdictOn(text: string, blacklist: seq<string>, whitelist: seq<string>): Verdict {
    Judge(text, Sort(blacklist), Allowed(text, Sort(whitelist)), NOTHING)
  }

  method Check(text: string, blacklist: seq<string>, whitelist: seq<string>) returns (v: Verdict)
    ensures v == VerdictOn(text, blacklist, whitelist)
    ensures v.blocked <==> Blocks(text, blacklist, whitelist)
  {
    VerdictExact(text, blacklist, whitelist);
    if text == "" {
      EmptyText(Sort(blacklist), Allowed(text, Sort(whitelist)));
      return NOTHING;
    }
    var allowed := AllowSpans(text, whitelist);
    var rescued := NOTHING;
    var sorted := Sort(blacklist);
    for i := 0 to |sorted|
      invariant Judge(text, sorted, allowed, NOTHING) == Judge(text, sorted[i..], allowed, rescued)
      invariant !rescued.blocked
    {
      assert sorted[i..][1..] == sorted[i + 1..];
      var entry := sorted[i];
      if entry == "" {
        continue;
      }
      var spans := Occurrences(text, entry);
      ghost var goal := JudgeSpans(entry, spans, allowed, rescued);
      for j := 0 to |spans|
        invariant goal == JudgeSpans(entry, spans[j..], allowed, rescued)
        invariant !rescued.blocked
      {
        assert spans[j..][1..] == spans[j + 1..];
        var by_ := CoveredBy(spans[j], allowed);
        if by_.None? {
          return Verdict(true, entry, "");
        }
        if rescued.entry == "" {
          rescued := Verdict(false, entry, by_.value);
        }
      }
    }
    return rescued;
  }

  lemma EmptyText(blacklist: seq<string>, allowed: seq<AllowSpan>)
    ensures Judge("", blacklist, allowed, NOTHING) == NOTHING
  {
    if blacklist != [] {
      EmptyText(blacklist[1..], allowed);
    }
  }

  // ----- The loops follow the rule -----

  lemma OccurrencesExact(text: string, sub: string, off: nat, s: Span)
    requires sub != ""
    ensures s in AllOccurrences(text, sub, off) <==>
        off <= s.start && Occurs(text, sub, s.start) && s == SpanOf(sub, s.start)
    decreases |text| - off
  {
    if off < |text| {
      OccurrencesExact(text, sub, off + 1, s);
    }
  }

  lemma AllowedExact(text: string, whitelist: seq<string>, a: AllowSpan)
    ensures a in Allowed(text, whitelist) <==>
              a.entry in whitelist && a.entry != "" && Occurs(text, a.entry, a.span.start)
                  && a.span == SpanOf(a.entry, a.span.start)
  {
    if whitelist != [] {
      var entry, before := whitelist[|whitelist| - 1], whitelist[..|whitelist| - 1];
      assert whitelist == before + [entry];
      AllowedExact(text, before, a);
      if entry != "" {
        OccurrencesExact(text, entry, 0, a.span);
        var spans := AllOccurrences(text, entry, 0);
        assert a in SpansOf(entry, spans) <==> a.entry == entry && a.span in spans by {
          if a.entry == entry && a.span in spans {
            var i :| 0 <= i < |spans| && spans[i] == a.span;
            assert SpansOf(entry, spans)[i] == a;
          }
        }
      }
    }
  }

  lemma CoveredByExact(s: Span, allowed: seq<AllowSpan>)
    ensures CoveredBy(s, allowed).Some? <==> exists a :: a in allowed && Contains(a.span, s)
    ensures CoveredBy(s, allowed).Some? ==>
              exists a :: a in allowed && Contains(a.span, s) && a.entry == CoveredBy(s, allowed).value
  {
    if allowed != [] {
      CoveredByExact(s, allowed[1..]);
      assert allowed == [allowed[0]] + allowed[1..];
      assert allowed[0] in allowed;
    }
  }

  lemma CoverExact(text: string, whitelist: seq<string>, s: Span)
    ensures CoveredBy(s, Allowed(text, whitelist)).Some? <==> Covered(text, whitelist, s)
  {
    var allowed := Allowed(text, whitelist);
    CoveredByExact(s, allowed);
    if Covered(text, whitelist, s) {
      var w, j :| w in whitelist && w != "" && Occurs(text, w, j) && j <= s.start && s.end <= j + |w|;
      AllowedExact(text, whitelist, AllowSpan(SpanOf(w, j), w));
    }
    if CoveredBy(s, allowed).Some? {
      var a :| a in allowed && Contains(a.span, s);
      AllowedExact(text, whitelist, a);
    }
  }

  ghost predicate SomeLoose(spans: seq<Span>, allowed: seq<AllowSpan>) {
    exists s :: s in spans && CoveredBy(s, allowed).None?
  }

  lemma JudgeSpansExact(entry: string, spans: seq<Span>, allowed: seq<AllowSpan>, rescued: Verdict)
    requires !rescued.blocked && entry != ""
    ensures var v := JudgeSpans(entry, spans, allowed, rescued);
            && (v.blocked <==> SomeLoose(spans, allowed))
            && (v.blocked ==> v == Verdict(true, entry, ""))
            && (!v.blocked && (rescued.entry != "" || spans == []) ==> v == rescued)
            && (!v.blocked && rescued.entry == "" && spans != [] ==>
                v.entry == entry && CoveredBy(spans[0], allowed) == Some(v.rescuedBy))
    decreases |spans|
  {
    if spans != [] {
      assert spans == [spans[0]] + spans[1..];
      assert spans[0] in spans;
      if CoveredBy(spans[0], allowed).Some? {
        JudgeSpansExact(entry, spans[1..], allowed,
          if rescued.entry == "" then Verdict(false, entry, CoveredBy(spans[0], allowed).value) else rescued);
      }
    }
  }

  lemma UncoveredExact(text: string, whitelist: seq<string>, entry: string)
    requires entry != ""
    ensures SomeLoose(AllOccurrences(text, entry, 0), Allowed(text, whitelist)) <==> Uncovered(text, whitelist, entry)
  {
    var spans := AllOccurrences(text, entry, 0);
    if Uncovered(text, whitelist, entry) {
      var i :| Occurs(text, entry, i) && !Covered(text, whitelist, SpanOf(entry, i));
      OccurrencesExact(text, entry, 0, SpanOf(entry, i));
      CoverExact(text, whitelist, SpanOf(entry, i));
    }
    if s :| s in spans && CoveredBy(s, Allowed(text, whitelist)).None? {
      OccurrencesExact(text, entry, 0, s);
      CoverExact(text, whitelist, s);
    }
  }

  ghost predicate FirstUncovered(text: string, blacklist: seq<string>, whitelist: seq<string>, i: int) {
    && 0 <= i < |blacklist| && Uncovered(text, whitelist, blacklist[i])
    && forall j :: 0 <= j < i ==> !Uncovered(text, whitelist, blacklist[j])
  }

  /** The verdict over a list of entries taken in order: blocked by the first with an uncovered match. */
  ghost predicate DecidedBy(text: string, blacklist: seq<string>, whitelist: seq<string>, v: Verdict) {
    && (v.blocked <==> Blocks(text, blacklist, whitelist))
    && (v.blocked ==> exists i :: FirstUncovered(text, blacklist, whitelist, i) && blacklist[i] == v.entry)
  }

  lemma JudgeExact(text: string, blacklist: seq<string>, whitelist: seq<string>, rescued: Verdict)
    requires !rescued.blocked
    ensures DecidedBy(text, blacklist, whitelist, Judge(text, blacklist, Allowed(text, whitelist), rescued))
    decreases |blacklist|
  {
    var allowed := Allowed(text, whitelist);
    hide Allowed, AllOccurrences, JudgeSpans, Uncovered, CoveredBy, SomeLoose;
    if blacklist != [] {
      var b, rest := blacklist[0], blacklist[1..];
      assert blacklist == [b] + rest;
      EmptyIsCovered(text, whitelist);
      if b == "" {
        JudgeExact(text, rest, whitelist, rescued);
        DecidedLater(text, b, rest, whitelist, Judge(text, rest, allowed, rescued));
      } else {
        var next := JudgeSpans(b, AllOccurrences(text, b, 0), allowed, rescued);
        JudgeSpansExact(b, AllOccurrences(text, b, 0), allowed, rescued);
        UncoveredExact(text, whitelist, b);
        assert next.blocked <==> Uncovered(text, whitelist, b);
        if next.blocked {
          assert next.entry == b;
          assert FirstUncovered(text, blacklist, whitelist, 0);
        } else {
          JudgeExact(text, rest, whitelist, next);
          DecidedLater(text, b, rest, whitelist, Judge(text, rest, allowed, next));
        }
      }
    }
  }

  lemma EmptyIsCovered(text: string, whitelist: seq<string>)
    ensures !Uncovered(text, whitelist, "")
  {
  }

  lemma DecidedLater(text: string, b: string, rest: seq<string>, whitelist: seq<string>, v: Verdict)
    requires DecidedBy(text, rest, whitelist, v) && !Uncovered(text, whitelist, b)
    ensures DecidedBy(text, [b] + rest, whitelist, v)
  {
    hide Uncovered;
    var blacklist := [b] + rest;
    if v.blocked {
      var i :| FirstUncovered(text, rest, whitelist, i) && rest[i] == v.entry;
      assert blacklist[i + 1] == v.entry;
      forall j | 0 <= j < i + 1 ensures !Uncovered(text, whitelist, blacklist[j]) {
        assert j > 0 ==> blacklist[j] == rest[j - 1];
      }
      assert FirstUncovered(text, blacklist, whitelist, i + 1);
    }
  }

  ghost predicate OccursIn(text: string, entry: string) { entry != "" && exists i :: Occurs(text, entry, i) }

  ghost predicate FirstOccurrence(text: string, entry: string, i: int) {
    Occurs(text, entry, i) && forall k :: k < i ==> !Occurs(text, entry, k)
  }

  ghost predicate Rescues(text: string, w: string, s: Span) {
    w != "" && exists j :: Occurs(text, w, j) && j <= s.start && s.end <= j + |w|
  }

  ghost predicate FirstRescuer(text: string, whitelist: seq<string>, w: string, s: Span) {
    w in whitelist && Rescues(text, w, s) && forall x :: x in whitelist && Rescues(text, x, s) ==> AtMost(w, x)
  }

  ghost predicate RescuedFirst(text: string, whitelist: seq<string>, v: Verdict) {
    exists i :: FirstOccurrence(text, v.entry, i) && FirstRescuer(text, whitelist, v.rescuedBy, SpanOf(v.entry, i))
  }

  /** A rescue names the least blacklist entry that occurs, and the least whitelist entry that contains
      its first occurrence. */
  ghost predicate RescueOk(text: string, blacklist: seq<string>, whitelist: seq<string>, v: Verdict) {
    if v.entry == "" then v == NOTHING && forall b :: b in blacklist ==> !OccursIn(text, b)
    else
      && v.entry in blacklist && OccursIn(text, v.entry)
      && (forall b :: b in blacklist && OccursIn(text, b) ==> AtMost(v.entry, b))
      && RescuedFirst(text, whitelist, v)
  }

  lemma CoveredByFirst(s: Span, allowed: seq<AllowSpan>) returns (i: nat)
    requires CoveredBy(s, allowed).Some?
    ensures i < |allowed| && Contains(allowed[i].span, s) && CoveredBy(s, allowed) == Some(allowed[i].entry)
    ensures forall j :: 0 <= j < i ==> !Contains(allowed[j].span, s)
  {
    if Contains(allowed[0].span, s) {
      return 0;
    }
    var k := CoveredByFirst(s, allowed[1..]);
    return k + 1;
  }

  lemma AllowedInOrder(text: string, whitelist: seq<string>, i: nat, j: nat)
    requires Sorted(whitelist) && i < j < |Allowed(text, whitelist)|
    ensures AtMost(Allowed(text, whitelist)[i].entry, Allowed(text, whitelist)[j].entry)
  {
    hide AtMost, AllOccurrences;
    var entry, before := whitelist[|whitelist| - 1], whitelist[..|whitelist| - 1];
    var earlier := Allowed(text, before);
    if j < |earlier| {
      AllowedInOrder(text, before, i, j);
    } else if i < |earlier| {
      AllowedExact(text, before, earlier[i]);
      var k :| 0 <= k < |before| && before[k] == earlier[i].entry;
      assert AtMost(whitelist[k], whitelist[|whitelist| - 1]);
    } else {
      AtMostSelf(entry);
    }
  }

  lemma AtMostSelf(s: string)
    ensures AtMost(s, s)
  {
    LessTotal(s, s);
  }

  lemma FirstRescue(text: string, whitelist: seq<string>, b: string, v: Verdict)
    requires Sorted(whitelist) && b != "" && v.entry == b && AllOccurrences(text, b, 0) != []
    requires CoveredBy(AllOccurrences(text, b, 0)[0], Allowed(text, whitelist)) == Some(v.rescuedBy)
    ensures OccursIn(text, b) && RescuedFirst(text, whitelist, v)
  {
    hide AtMost;
    var s := AllOccurrences(text, b, 0)[0];
    var allowed := Allowed(text, whitelist);
    OccurrencesExact(text, b, 0, s);
    FirstInList(text, b, 0);
    var i := CoveredByFirst(s, allowed);
    AllowedExact(text, whitelist, allowed[i]);
    assert Rescues(text, v.rescuedBy, s);
    forall x | x in whitelist && Rescues(text, x, s) ensures AtMost(v.rescuedBy, x) {
      var j :| Occurs(text, x, j) && j <= s.start && s.end <= j + |x|;
      AllowedExact(text, whitelist, AllowSpan(SpanOf(x, j), x));
      var k :| 0 <= k < |allowed| && allowed[k] == AllowSpan(SpanOf(x, j), x);
      if i < k {
        AllowedInOrder(text, whitelist, i, k);
      } else {
        AtMostSelf(x);
      }
    }
    assert FirstOccurrence(text, b, s.start);
    assert s == SpanOf(b, s.start);
  }

  lemma FirstInList(text: string, b: string, off: nat)
    requires b != "" && AllOccurrences(text, b, off) != []
    ensures forall k :: off <= k < AllOccurrences(text, b, off)[0].start ==> !Occurs(text, b, k)
    decreases |text| - off
  {
    if !Occurs(text, b, off) {
      FirstInList(text, b, off + 1);
    }
  }

  lemma NoOccurrence(text: string, b: string)
    requires b != "" && AllOccurrences(text, b, 0) == []
    ensures !OccursIn(text, b)
  {
    forall i ensures !Occurs(text, b, i) {
      OccurrencesExact(text, b, 0, SpanOf(b, i));
    }
  }

  lemma NeverIn(text: string)
    ensures !OccursIn(text, "")
  {
  }

  lemma JudgeRescue(text: string, blacklist: seq<string>, whitelist: seq<string>, rescued: Verdict)
    requires !rescued.blocked && Sorted(blacklist) && Sorted(whitelist)
    ensures var v := Judge(text, blacklist, Allowed(text, whitelist), rescued);
            && (!v.blocked && rescued.entry != "" ==> v == rescued)
            && (!v.blocked && rescued == NOTHING ==> RescueOk(text, blacklist, whitelist, v))
    decreases |blacklist|
  {
    var allowed := Allowed(text, whitelist);
    hide Allowed, AllOccurrences, JudgeSpans, CoveredBy, SomeLoose, RescuedFirst, Occurs, OccursIn, AtMost;
    if blacklist != [] {
      var b, rest := blacklist[0], blacklist[1..];
      assert blacklist == [b] + rest;
      if b == "" {
        JudgeRescue(text, rest, whitelist, rescued);
        NeverIn(text);
      } else {
        var spans := AllOccurrences(text, b, 0);
        var next := JudgeSpans(b, spans, allowed, rescued);
        JudgeSpansExact(b, spans, allowed, rescued);
        if !next.blocked {
          JudgeRescue(text, rest, whitelist, next);
          if rescued == NOTHING && spans != [] {
            FirstRescue(text, whitelist, b, next);
            AtMostSelf(b);
          } else if spans == [] {
            NoOccurrence(text, b);
          }
        }
      }
    }
  }

  // ----- Main results -----

  lemma SortSame(a: seq<string>)
    ensures forall k :: k in Sort(a) <==> k in a
  {
    SortSorts(a);
    forall k ensures k in Sort(a) <==> k in a {
      assert k in multiset(Sort(a)) <==> k in multiset(a);
    }
  }

  /** A text is blocked exactly when some blacklist occurrence lies in no whitelist occurrence; the
      verdict then names the least such entry in byte order. */
  lemma {:induction false} VerdictExact(text: string, blacklist: seq<string>, whitelist: seq<string>)
    ensures var v := VerdictOn(text, blacklist, whitelist);
            && (v.blocked <==> Blocks(text, blacklist, whitelist))
            && (v.blocked ==>
                  v.entry in blacklist && Uncovered(text, whitelist, v.entry)
                  && forall b :: b in blacklist && Uncovered(text, whitelist, b) ==> AtMost(v.entry, b))
  {
    hide Uncovered, Judge, Allowed, Sort;
    var bs, ws := Sort(blacklist), Sort(whitelist);
    SortSame(blacklist);
    SortSame(whitelist);
    SortSorts(blacklist);
    JudgeExact(text, bs, ws, NOTHING);
    forall b ensures Uncovered(text, ws, b) <==> Uncovered(text, whitelist, b) {
      SameUncovered(text, ws, whitelist, b);
    }
    var v := VerdictOn(text, blacklist, whitelist);
    if v.blocked {
      var i :| FirstUncovered(text, bs, ws, i) && bs[i] == v.entry;
      forall b | b in blacklist && Uncovered(text, whitelist, b) ensures AtMost(v.entry, b) {
        var k :| 0 <= k < |bs| && bs[k] == b;
        LessTotal(b, b);
      }
    }
  }

  lemma SameUncovered(text: string, a: seq<string>, b: seq<string>, entry: string)
    requires forall k :: k in a <==> k in b
    ensures Uncovered(text, a, entry) <==> Uncovered(text, b, entry)
  {
    forall s ensures Covered(text, a, s) <==> Covered(text, b, s) {
    }
  }

  /** The order of the lists does not matter, not even for which entry is named. */
  lemma {:induction false} OrderFree(text: string, b: seq<string>, c: seq<string>, w: seq<string>, x: seq<string>)
    requires multiset(b) == multiset(c) && multiset(w) == multiset(x)
    ensures VerdictOn(text, b, w) == VerdictOn(text, c, x)
  {
    SortOrderFree(b, c);
    SortOrderFree(w, x);
  }

  /** More blacklist entries never unblock a text, and more whitelist entries never block one. */
  lemma {:induction false} Monotone(text: string, b: seq<string>, more: seq<string>, w: seq<string>,
      exceptions: seq<string>)
    ensures VerdictOn(text, b, w).blocked ==> VerdictOn(text, b + more, w).blocked
    ensures VerdictOn(text, b, w + exceptions).blocked ==> VerdictOn(text, b, w).blocked
  {
    hide VerdictOn;
    VerdictExact(text, b, w);
    VerdictExact(text, b + more, w);
    VerdictExact(text, b, w + exceptions);
    forall e ensures Uncovered(text, w + exceptions, e) ==> Uncovered(text, w, e) {
    }
  }

  /** An unblocked text names no entry exactly when no entry occurs in it; otherwise it names the least
      that occurs, with the least exception around its first occurrence. */
  lemma {:induction false} RescueExact(text: string, blacklist: seq<string>, whitelist: seq<string>)
    ensures var v := VerdictOn(text, blacklist, whitelist);
            !v.blocked ==> RescueOk(text, blacklist, whitelist, v)
  {
    hide Judge, Allowed, Sort, Occurs, OccursIn, AtMost, Rescues, FirstOccurrence, Sorted;
    var bs, ws := Sort(blacklist), Sort(whitelist);
    SortSame(blacklist);
    SortSame(whitelist);
    SortSorts(blacklist);
    SortSorts(whitelist);
    JudgeRescue(text, bs, ws, NOTHING);
    var v := VerdictOn(text, blacklist, whitelist);
    if !v.blocked && v.entry != "" {
      var i :| FirstOccurrence(text, v.entry, i) && FirstRescuer(text, ws, v.rescuedBy, SpanOf(v.entry, i));
      assert FirstRescuer(text, whitelist, v.rescuedBy, SpanOf(v.entry, i));
    }
  }
}
