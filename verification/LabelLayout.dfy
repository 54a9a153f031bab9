/** Line breaks for wheel labels: every way of cutting the units into lines, the most balanced of
    them, and the fewest lines that fit. Text width is a given function. */
module LabelLayout {

  type Cut = seq<seq<string>>

  function JoinWith(separator: string, parts: seq<string>): string {
    if parts == [] then ""
    else if |parts| == 1 then parts[0]
    else parts[0] + separator + JoinWith(separator, parts[1..])
  }

  function LinesOf(separator: string, cut: Cut): seq<string> {
    seq(|cut|, i requires 0 <= i < |cut| => JoinWith(separator, cut[i]))
  }

  // ----- All cuts -----

  function Glue(cut: Cut): seq<string> { if cut == [] then [] else cut[0] + Glue(cut[1..]) }

  /** A cut of the units into n contiguous lines, none of them empty. */
  ghost predicate IsCut(cut: Cut, units: seq<string>, n: nat) {
    |cut| == n && Glue(cut) == units && forall i :: 0 <= i < n ==> cut[i] != []
  }

  function Cuts(units: seq<string>, n: nat): seq<Cut>
    requires 1 <= n <= |units|
    decreases n, |units| + 1
  {
    if n == 1 then [[units]] else CutsFrom(units, n, 1)
  }

  /** The cuts whose first line takes at least `end` units. */
  function CutsFrom(units: seq<string>, n: nat, end: nat): seq<Cut>
    requires 2 <= n <= |units| && 1 <= end
    decreases n, |units| + 1 - end
  {
    if end > |units| - n + 1 then []
    else Prepend(units[..end], Cuts(units[end..], n - 1)) + CutsFrom(units, n, end + 1)
  }

  function Prepend(line: seq<string>, cuts: seq<Cut>): seq<Cut> {
    seq(|cuts|, i requires 0 <= i < |cuts| => [line] + cuts[i])
  }

  function Extend(lines: seq<string>, separator: string, cuts: seq<Cut>): seq<seq<string>> {
    seq(|cuts|, i requires 0 <= i < |cuts| => lines + LinesOf(separator, cuts[i]))
  }

  /** getLineCandidates: a recursive visit that pushes every finished candidate on a shared list. */
  class Candidates {
    var candidates: seq<seq<string>>
    const units: seq<string>
    const separator: string
    const lineCount: nat

    constructor (units: seq<string>, separator: string, lineCount: nat)
      ensures this.units == units && this.separator == separator && this.lineCount == lineCount && candidates == []
    {
      this.units, this.separator, this.lineCount := units, separator, lineCount;
      candidates := [];
    }

    method Visit(start: nat, lines: seq<string>)
      requires |lines| < lineCount && start + (lineCount - |lines|) <= |units|
      modifies this
      ensures candidates == old(candidates) + Extend(lines, separator, Cuts(units[start..], lineCount - |lines|))
      decreases lineCount - |lines|
    {
      hide Cuts, CutsFrom, Extend, Prepend;
      var remainingLines := lineCount - |lines|;
      if remainingLines == 1 {
        candidates := candidates + [lines + [JoinWith(separator, units[start..])]];
        OneLine(lines, separator, units[start..]);
        return;
      }
      var lastEnd := |units| - remainingLines + 1;
      var end := start + 1;
      ghost var was := candidates;
      ghost var rest := units[start..];
      FromOne(rest, remainingLines);
      while end <= lastEnd
        invariant start < end <= lastEnd + 1
        invariant candidates + Extend(lines, separator, CutsFrom(rest, remainingLines, end - start))
               == was + Extend(lines, separator, Cuts(rest, remainingLines))
      {
        var line := units[start..end];
        assert rest[..end - start] == line && rest[end - start..] == units[end..];
        ExtendStep(lines, separator, rest, remainingLines, end - start);
        Visit(end, lines + [JoinWith(separator, line)]);
        end := end + 1;
      }
      PastEnd(lines, separator, rest, remainingLines, end - start);
    }
  }

  lemma OneLine(lines: seq<string>, separator: string, units: seq<string>)
    requires units != []
    ensures Extend(lines, separator, Cuts(units, 1)) == [lines + [JoinWith(separator, units)]]
  {
    assert LinesOf(separator, [units]) == [JoinWith(separator, units)];
  }

  lemma FromOne(units: seq<string>, n: nat)
    requires 2 <= n <= |units|
    ensures Cuts(units, n) == CutsFrom(units, n, 1)
  {
  }

  lemma ExtendStep(lines: seq<string>, separator: string, units: seq<string>, n: nat, end: nat)
    requires 2 <= n <= |units| && 1 <= end <= |units| - n + 1
    ensures Extend(lines, separator, CutsFrom(units, n, end))
         == Extend(lines + [JoinWith(separator, units[..end])], separator, Cuts(units[end..], n - 1))
            + Extend(lines, separator, CutsFrom(units, n, end + 1))
  {
    var sub := Cuts(units[end..], n - 1);
    ExtendSplit(lines, separator, Prepend(units[..end], sub), CutsFrom(units, n, end + 1));
    ExtendPrepend(lines, separator, units[..end], sub);
  }

  lemma PastEnd(lines: seq<string>, separator: string, units: seq<string>, n: nat, end: nat)
    requires 2 <= n <= |units| && |units| - n + 1 < end
    ensures Extend(lines, separator, CutsFrom(units, n, end)) == []
  {
  }

  lemma ExtendSplit(lines: seq<string>, separator: string, a: seq<Cut>, b: seq<Cut>)
    ensures Extend(lines, separator, a + b) == Extend(lines, separator, a) + Extend(lines, separator, b)
  {
  }

  lemma ExtendPrepend(lines: seq<string>, separator: string, line: seq<string>, cuts: seq<Cut>)
    ensures Extend(lines, separator, Prepend(line, cuts))
        == Extend(lines + [JoinWith(separator, line)], separator, cuts)
  {
    forall i | 0 <= i < |cuts|
      ensures lines + LinesOf(separator, [line] + cuts[i])
           == lines + [JoinWith(separator, line)] + LinesOf(separator, cuts[i])
    {
      assert LinesOf(separator, [line] + cuts[i]) == [JoinWith(separator, line)] + LinesOf(separator, cuts[i]);
    }
  }

  lemma CutsAreCuts(units: seq<string>, n: nat, cut: Cut)
    requires 1 <= n <= |units| && cut in Cuts(units, n)
    ensures IsCut(cut, units, n)
    decreases n, |units| + 1
  {
    if n == 1 {
      assert Glue([units]) == units + Glue([]);
    } else {
      CutsFromAreCuts(units, n, 1, cut);
    }
  }

  lemma CutsFromAreCuts(units: seq<string>, n: nat, end: nat, cut: Cut)
    requires 2 <= n <= |units| && 1 <= end && cut in CutsFrom(units, n, end)
    ensures IsCut(cut, units, n) && |cut[0]| >= end
    decreases n, |units| + 1 - end
  {
    var here := Prepend(units[..end], Cuts(units[end..], n - 1));
    if cut in here {
      var i :| 0 <= i < |here| && here[i] == cut;
      var tail := Cuts(units[end..], n - 1)[i];
      CutsAreCuts(units[end..], n - 1, tail);
      assert cut == [units[..end]] + tail && cut[1..] == tail;
    } else {
      CutsFromAreCuts(units, n, end + 1, cut);
    }
  }

  lemma GlueLength(cut: Cut, units: seq<string>, n: nat)
    requires IsCut(cut, units, n)
    ensures n <= |units|
  {
    if n > 0 {
      GlueLength(cut[1..], Glue(cut[1..]), n - 1);
    }
  }

  lemma OneGroup(cut: Cut, units: seq<string>)
    requires IsCut(cut, units, 1)
    ensures cut == [units]
  {
    assert cut[1..] == [];
    assert Glue(cut) == cut[0] + Glue(cut[1..]);
    assert cut[0] + [] == cut[0];
  }

  lemma CutIsListed(units: seq<string>, n: nat, cut: Cut)
    requires 1 <= n && IsCut(cut, units, n)
    ensures n <= |units| && cut in Cuts(units, n)
    decreases n
  {
    GlueLength(cut, units, n);
    if n == 1 {
      OneGroup(cut, units);
    } else {
      var tail := cut[1..];
      assert units[|cut[0]|..] == Glue(tail);
      CutIsListed(Glue(tail), n - 1, tail);
      ListedFrom(units, n, 1, cut);
    }
  }

  lemma ListedFrom(units: seq<string>, n: nat, end: nat, cut: Cut)
    requires 2 <= n <= |units| && IsCut(cut, units, n) && 1 <= end <= |cut[0]|
    requires n - 1 <= |Glue(cut[1..])| && cut[1..] in Cuts(Glue(cut[1..]), n - 1)
    ensures cut in CutsFrom(units, n, end)
    decreases |units| + 1 - end
  {
    if end == |cut[0]| {
      var sub := Cuts(units[end..], n - 1);
      assert units[end..] == Glue(cut[1..]) && units[..end] == cut[0];
      var i :| 0 <= i < |sub| && sub[i] == cut[1..];
      assert Prepend(units[..end], sub)[i] == [cut[0]] + cut[1..] == cut;
    } else {
      ListedFrom(units, n, end + 1, cut);
    }
  }

  /** The candidates are all the cuts and nothing else. */
  lemma {:induction false} CutsExact(units: seq<string>, n: nat, cut: Cut)
    requires 1 <= n <= |units|
    ensures cut in Cuts(units, n) <==> IsCut(cut, units, n)
  {
    if cut in Cuts(units, n) {
      CutsAreCuts(units, n, cut);
    }
    if IsCut(cut, units, n) {
      CutIsListed(units, n, cut);
    }
  }

  /** Where two cuts first differ, a has the shorter line. */
  predicate Sooner(a: Cut, b: Cut) {
    a != [] && b != [] && (|a[0]| < |b[0]| || (a[0] == b[0] && Sooner(a[1..], b[1..])))
  }

  lemma SoonerDiffers(a: Cut, b: Cut)
    requires Sooner(a, b)
    ensures a != b
  {
  }

  lemma SoonerLater(line: seq<string>, a: Cut, b: Cut)
    requires Sooner(a, b)
    ensures Sooner([line] + a, [line] + b)
  {
    assert ([line] + a)[1..] == a && ([line] + b)[1..] == b;
  }

  lemma SoonerFirst(a: Cut, b: Cut)
    requires a != [] && b != [] && |a[0]| < |b[0]|
    ensures Sooner(a, b)
  {
  }

  /** The cuts come with shorter first lines first, and so each of them once. */
  lemma {:induction false} CutsInOrder(units: seq<string>, n: nat, i: nat, j: nat)
    requires 1 <= n <= |units| && i < j < |Cuts(units, n)|
    ensures Sooner(Cuts(units, n)[i], Cuts(units, n)[j]) && Cuts(units, n)[i] != Cuts(units, n)[j]
    decreases n, |units| + 1
  {
    if n > 1 {
      CutsFromInOrder(units, n, 1, i, j);
      SoonerDiffers(Cuts(units, n)[i], Cuts(units, n)[j]);
    }
  }

  lemma FirstGroup(units: seq<string>, n: nat, end: nat, cut: Cut)
    requires 2 <= n <= |units| && 1 <= end && cut in CutsFrom(units, n, end)
    ensures cut != [] && |cut[0]| >= end
  {
    CutsFromAreCuts(units, n, end, cut);
  }

  lemma CutsFromStep(units: seq<string>, n: nat, end: nat)
    requires 2 <= n <= |units| && 1 <= end && CutsFrom(units, n, end) != []
    ensures end <= |units| - n + 1
    ensures CutsFrom(units, n, end) ==
              Prepend(units[..end], Cuts(units[end..], n - 1)) + CutsFrom(units, n, end + 1)
  {
  }

  lemma PrependAt(line: seq<string>, cuts: seq<Cut>, i: nat)
    requires i < |cuts|
    ensures |Prepend(line, cuts)| == |cuts| && Prepend(line, cuts)[i] == [line] + cuts[i]
  {
  }

  lemma CutsFromInOrder(units: seq<string>, n: nat, end: nat, i: nat, j: nat)
    requires 2 <= n <= |units| && 1 <= end && i < j < |CutsFrom(units, n, end)|
    ensures Sooner(CutsFrom(units, n, end)[i], CutsFrom(units, n, end)[j])
    decreases n, |units| + 1 - end
  {
    hide IsCut, Sooner, Prepend, Cuts, CutsFrom;
    CutsFromStep(units, n, end);
    var line, sub := units[..end], Cuts(units[end..], n - 1);
    var first, later := Prepend(line, sub), CutsFrom(units, n, end + 1);
    PrependSize(line, sub);
    if j < |sub| {
      CutsInOrder(units[end..], n - 1, i, j);
      PrependAt(line, sub, i);
      PrependAt(line, sub, j);
      SoonerLater(line, sub[i], sub[j]);
    } else {
      assert (first + later)[j] == later[j - |sub|];
      if i < |sub| {
        PrependAt(line, sub, i);
        FirstGroup(units, n, end + 1, later[j - |sub|]);
        SoonerFirst(first[i], later[j - |sub|]);
      } else {
        CutsFromInOrder(units, n, end + 1, i - |sub|, j - |sub|);
      }
    }
  }

  lemma PrependSize(line: seq<string>, cuts: seq<Cut>)
    ensures |Prepend(line, cuts)| == |cuts|
  {
  }

  // ----- The most balanced cut -----

  function Longest(width: string -> real, lines: seq<string>): real
    requires lines != []
  {
    if |lines| == 1 then width(lines[0])
    else var rest := Longest(width, lines[1..]); if width(lines[0]) > rest then width(lines[0]) else rest
  }

  function Shortest(width: string -> real, lines: seq<string>): real
    requires lines != []
  {
    if |lines| == 1 then width(lines[0])
    else var rest := Shortest(width, lines[1..]); if width(lines[0]) < rest then width(lines[0]) else rest
  }

  /** They are the greatest and the least width of a line. */
  lemma {:induction false} WidthsExactly(width: string -> real, lines: seq<string>)
    requires lines != []
    ensures forall i :: 0 <= i < |lines| ==> Shortest(width, lines) <= width(lines[i]) <= Longest(width, lines)
    ensures exists i :: 0 <= i < |lines| && width(lines[i]) == Longest(width, lines)
    ensures exists i :: 0 <= i < |lines| && width(lines[i]) == Shortest(width, lines)
  {
    if |lines| > 1 {
      WidthsExactly(width, lines[1..]);
      var rest := lines[1..];
      var i :| 0 <= i < |rest| && width(rest[i]) == Longest(width, rest);
      var j :| 0 <= j < |rest| && width(rest[j]) == Shortest(width, rest);
      var greatest := if width(lines[0]) > Longest(width, rest) then 0 else i + 1;
      var least := if width(lines[0]) < Shortest(width, rest) then 0 else j + 1;
      assert forall k :: 0 < k < |lines| ==> lines[k] == rest[k - 1];
      assert width(lines[greatest]) == Longest(width, lines);
      assert width(lines[least]) == Shortest(width, lines);
    } else {
      assert width(lines[0]) == Longest(width, lines) == Shortest(width, lines);
    }
  }

  /** The comparator: longest line, then spread, then position in the list. */
  predicate Before(width: string -> real, candidates: seq<seq<string>>, i: nat, j: nat)
    requires i < |candidates| && j < |candidates| && candidates[i] != [] && candidates[j] != []
  {
    var a, b := candidates[i], candidates[j];
    var spreadA, spreadB := Longest(width, a) - Shortest(width, a), Longest(width, b) - Shortest(width, b);
    Longest(width, a) < Longest(width, b)
    || (Longest(width, a) == Longest(width, b) && (spreadA < spreadB || (spreadA == spreadB && i < j)))
  }

  predicate NoneEmpty(candidates: seq<seq<string>>) { forall i :: 0 <= i < |candidates| ==> candidates[i] != [] }

  lemma BeforeIsTotal(width: string -> real, candidates: seq<seq<string>>, i: nat, best: nat)
    requires i < |candidates| && best < |candidates| && NoneEmpty(candidates)
    ensures i != best ==> Before(width, candidates, i, best) || Before(width, candidates, best, i)
    ensures forall j: nat ::
              j < |candidates| && Before(width, candidates, i, best) && Before(width, candidates, best, j) ==>
                Before(width, candidates, i, j)
  {
    hide Longest, Shortest;
  }

  function BestIndex(width: string -> real, candidates: seq<seq<string>>, upTo: nat): (best: nat)
    requires 1 <= upTo <= |candidates| && NoneEmpty(candidates)
    ensures best < upTo
    ensures forall j :: 0 <= j < upTo && j != best ==> Before(width, candidates, best, j)
  {
    if upTo == 1 then 0
    else
      var best := BestIndex(width, candidates, upTo - 1);
      BeforeIsTotal(width, candidates, upTo - 1, best);
      if Before(width, candidates, upTo - 1, best) then upTo - 1 else best
  }

  /** getMostBalancedLines: sorted by the comparator, the first; [''] when there is none. */
  function MostBalanced(width: string -> real, candidates: seq<seq<string>>): seq<string>
    requires NoneEmpty(candidates)
  {
    if candidates == [] then [""] else candidates[BestIndex(width, candidates, |candidates|)]
  }

  /** However the positions are sorted by the comparator, that one comes first. */
  lemma {:induction false} SortedHeadIsBest(width: string -> real, candidates: seq<seq<string>>, order: seq<nat>)
    requires candidates != [] && NoneEmpty(candidates)
    requires forall i :: 0 <= i < |order| ==> order[i] < |candidates|
    requires forall k :: 0 <= k < |candidates| ==> k in order
    requires forall i, j :: 0 <= i < j < |order| ==> !Before(width, candidates, order[j], order[i])
    ensures order != [] && candidates[order[0]] == MostBalanced(width, candidates)
  {
    var best := BestIndex(width, candidates, |candidates|);
    assert best in order;
    var j :| 0 <= j < |order| && order[j] == best;
    if j > 0 {
      assert !Before(width, candidates, order[j], order[0]);
    }
  }

  // ----- Choosing the number of lines -----

  ghost predicate Fits(width: string -> real, track: real, lines: seq<string>) {
    lines != [] && forall i :: 0 <= i < |lines| ==> width(lines[i]) <= track
  }

  lemma FitsByLongest(width: string -> real, track: real, lines: seq<string>)
    requires lines != []
    ensures Fits(width, track, lines) <==> Longest(width, lines) <= track
  {
    WidthsExactly(width, lines);
  }

  /** Of the cuts into as many lines it is the best: by its longest line, then by its spread, then as the
      one with the shorter line where two first differ. */
  ghost predicate Chosen(width: string -> real, separator: string, units: seq<string>, cut: Cut) {
    cut != [] && forall other :: IsCut(other, units, |cut|) && other != cut ==>
      other != [] && Beats(width, separator, cut, other)
  }

  ghost predicate Beats(width: string -> real, separator: string, cut: Cut, other: Cut)
    requires cut != [] && other != []
  {
    var a, b := LinesOf(separator, cut), LinesOf(separator, other);
    var spreadA, spreadB := Longest(width, a) - Shortest(width, a), Longest(width, b) - Shortest(width, b);
    if Longest(width, a) != Longest(width, b) then Longest(width, a) < Longest(width, b)
    else if spreadA != spreadB then spreadA < spreadB
    else Sooner(cut, other)
  }

  /** Of the cuts into as many lines, none has a shorter longest line, nor as short a one with less spread. */
  ghost predicate Balanced(width: string -> real, separator: string, units: seq<string>, lines: seq<string>) {
    lines != [] && forall cut :: IsCut(cut, units, |lines|) ==>
        cut != [] && NoWorse(width, lines, LinesOf(separator, cut))
  }

  predicate NoWorse(width: string -> real, lines: seq<string>, other: seq<string>)
    requires lines != [] && other != []
  {
    && Longest(width, lines) <= Longest(width, other)
    && (Longest(width, lines) == Longest(width, other) ==>
          Longest(width, lines) - Shortest(width, lines) <= Longest(width, other) - Shortest(width, other))
  }

  lemma CandidatesOfCuts(separator: string, units: seq<string>, n: nat)
    requires 1 <= n <= |units|
    ensures var cuts, candidates := Cuts(units, n), Extend([], separator, Cuts(units, n));
            && |candidates| == |cuts| > 0 && NoneEmpty(candidates)
            && forall i :: 0 <= i < |cuts| ==> candidates[i] == LinesOf(separator, cuts[i]) && IsCut(cuts[i], units, n)
  {
    SomeCut(units, n);
    var cuts, candidates := Cuts(units, n), Extend([], separator, Cuts(units, n));
    hide Cuts, IsCut;
    forall i | 0 <= i < |cuts|
      ensures candidates[i] == LinesOf(separator, cuts[i]) && candidates[i] != [] && IsCut(cuts[i], units, n)
    {
      CutsAreCuts(units, n, cuts[i]);
      CutSize(cuts[i], units, n);
    }
  }

  lemma CutSize(cut: Cut, units: seq<string>, n: nat)
    requires IsCut(cut, units, n)
    ensures |cut| == n
  {
  }

  lemma BestIsBalanced(width: string -> real, separator: string, units: seq<string>, n: nat) returns (cut: Cut)
    requires 1 <= n <= |units|
    ensures NoneEmpty(Extend([], separator, Cuts(units, n)))
    ensures var lines := MostBalanced(width, Extend([], separator, Cuts(units, n)));
            IsCut(cut, units, n) && lines == LinesOf(separator, cut) && |lines| == n
                && Balanced(width, separator, units, lines) && Chosen(width, separator, units, cut)
  {
    hide Cuts, IsCut, Longest, Shortest, Extend, Sooner;
    var cuts, candidates := Cuts(units, n), Extend([], separator, Cuts(units, n));
    CandidatesOfCuts(separator, units, n);
    var best := BestIndex(width, candidates, |candidates|);
    cut := cuts[best];
    CutSize(cut, units, n);
    forall other | IsCut(other, units, n)
      ensures other != [] && NoWorse(width, candidates[best], LinesOf(separator, other))
    {
      CutSize(other, units, n);
      CutIsListed(units, n, other);
      var j :| 0 <= j < |cuts| && cuts[j] == other;
      assert j == best || Before(width, candidates, best, j);
    }
    forall other | IsCut(other, units, n) && other != cut
      ensures other != [] && Beats(width, separator, cut, other)
    {
      CutSize(other, units, n);
      CutIsListed(units, n, other);
      var j :| 0 <= j < |cuts| && cuts[j] == other;
      assert Before(width, candidates, best, j);
      if best < j {
        CutsInOrder(units, n, best, j);
      }
    }
  }

  lemma SomeCut(units: seq<string>, n: nat)
    requires 1 <= n <= |units|
    ensures Cuts(units, n) != []
    decreases n
  {
    if n > 1 {
      SomeCut(units[1..], n - 1);
      assert |CutsFrom(units, n, 1)| >= |Prepend(units[..1], Cuts(units[1..], n - 1))|;
    }
  }

  /** Rejoining the lines of a cut gives back the joined units. */
  lemma {:induction false} RejoinLines(separator: string, cut: Cut, units: seq<string>, n: nat)
    requires IsCut(cut, units, n)
    ensures JoinWith(separator, LinesOf(separator, cut)) == JoinWith(separator, units)
  {
    if n == 0 {
    } else if n == 1 {
      OneGroup(cut, units);
    } else {
      RejoinLines(separator, cut[1..], Glue(cut[1..]), n - 1);
      assert LinesOf(separator, cut)[1..] == LinesOf(separator, cut[1..]);
      assert Glue(cut[1..]) != [] by {
        GlueLength(cut[1..], Glue(cut[1..]), n - 1);
      }
      JoinWithAppend(separator, cut[0], Glue(cut[1..]));
    }
  }

  lemma JoinWithAppend(separator: string, a: seq<string>, b: seq<string>)
    requires a != [] && b != []
    ensures JoinWith(separator, a + b) == JoinWith(separator, a) + separator + JoinWith(separator, b)
  {
    assert (a + b)[1..] == a[1..] + b;
    if |a| > 1 {
      JoinWithAppend(separator, a[1..], b);
    } else {
      assert a[1..] + b == b;
    }
  }

  /** getLabelLines on normalised text: words when there are several, grapheme clusters otherwise. */
  method GetLabelLines(width: string -> real, normalized: string, words: seq<string>, graphemes: seq<string>,
                       track: real, maxLines: int) returns (lines: seq<string>, ghost cut: Cut)
    requires words != [] && JoinWith(" ", words) == normalized && JoinWith("", graphemes) == normalized
    requires normalized != "" ==> graphemes != []
    ensures normalized == "" || width(normalized) <= track ==> lines == [normalized]
    ensures normalized != "" && width(normalized) > track ==>
              var units := if |words| > 1 then words else graphemes;
              var separator := if |words| > 1 then " " else "";
              var most := if maxLines < 1 then 1 else maxLines;
              && IsCut(cut, units, |lines|) && lines == LinesOf(separator, cut)
              && JoinWith(separator, lines) == normalized
              && Chosen(width, separator, units, cut) && Balanced(width, separator, units, lines)
              && 1 <= |lines| <= most
              && (Fits(width, track, lines) || |lines| == if most < |units| then most else |units|)
              && (forall other :: IsCut(other, units, |other|) && |other| < |lines| ==>
                    !Fits(width, track, LinesOf(separator, other)))
              && (forall other ::
                    IsCut(other, units, |other|) && |other| <= maxLines ==>
                    (Fits(width, track, LinesOf(separator, other)) ==> Fits(width, track, lines) && |lines| <= |other|))
  {
    hide IsCut, Cuts, Extend, Balanced, NoneEmpty, MostBalanced, Longest, JoinWith, NoWorse, Chosen, Fits;
    cut := [];
    if normalized == "" || width(normalized) <= track {
      return [normalized], cut;
    }
    var boundedMaxLines := if |words| > 1 && maxLines > |words| then |words| else if maxLines < 1 then 1 else maxLines;
    var units := if |words| > 1 then words else graphemes;
    var separator := if |words| > 1 then " " else "";
    var lineLimit := if boundedMaxLines < |units| then boundedMaxLines else |units|;
    lines := [normalized];
    cut := [units];
    WholeIsCut(width, separator, units);
    LongestOne(width, normalized);
    FitsByLongest(width, track, lines);
    var lineCount := 2;
    while lineCount <= lineLimit
      invariant 2 <= lineCount <= lineLimit + 1
      invariant |lines| == lineCount - 1 && IsCut(cut, units, |lines|) && lines == LinesOf(separator, cut)
      invariant Chosen(width, separator, units, cut) && Balanced(width, separator, units, lines)
      invariant !Fits(width, track, lines)
      invariant forall other :: IsCut(other, units, |other|) && |other| < lineCount ==>
          !Fits(width, track, LinesOf(separator, other))
    {
      var all := new Candidates(units, separator, lineCount);
      all.Visit(0, []);
      ghost var expected := Extend([], separator, Cuts(units, lineCount));
      assert units[0..] == units && [] + expected == expected;
      assert all.candidates == expected;
      cut := BestIsBalanced(width, separator, units, lineCount);
      lines := MostBalanced(width, all.candidates);
      FitsByLongest(width, track, lines);
      if Longest(width, lines) <= track {
        RejoinLines(separator, cut, units, |lines|);
        return;
      }
      forall other | IsCut(other, units, |other|) && |other| == lineCount
        ensures !Fits(width, track, LinesOf(separator, other))
      {
        BalancedBeats(width, separator, units, lines, other);
        FitsByLongest(width, track, LinesOf(separator, other));
      }
      lineCount := lineCount + 1;
    }
    RejoinLines(separator, cut, units, |lines|);
    forall other | IsCut(other, units, |other|) ensures |other| <= |units| {
      GlueLength(other, units, |other|);
    }
  }

  lemma BalancedBeats(width: string -> real, separator: string, units: seq<string>, lines: seq<string>, other: Cut)
    requires Balanced(width, separator, units, lines) && IsCut(other, units, |lines|)
    ensures |other| == |lines| > 0 && Longest(width, lines) <= Longest(width, LinesOf(separator, other))
  {
  }

  lemma LongestOne(width: string -> real, line: string)
    ensures Longest(width, [line]) == width(line)
  {
  }

  /** One line is the only cut into one line. */
  lemma WholeIsCut(width: string -> real, separator: string, units: seq<string>)
    requires units != []
    ensures IsCut([units], units, 1) && LinesOf(separator, [units]) == [JoinWith(separator, units)]
    ensures forall cut :: IsCut(cut, units, |cut|) && |cut| < 2 ==> cut == [units]
    ensures |LinesOf(separator, [units])| == 1
    ensures Balanced(width, separator, units, [JoinWith(separator, units)])
    ensures Chosen(width, separator, units, [units])
  {
    assert Glue([units]) == units + Glue([]);
    forall cut | IsCut(cut, units, |cut|) && |cut| < 2 ensures cut == [units] {
      CutIsListed(units, |cut|, cut);
    }
  }
}
