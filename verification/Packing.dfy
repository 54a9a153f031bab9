/** Packing text sections into messages of limited length, in order: the /help packer and the stock
    events packer. Lengths count characters. */
module Packing {
  import opened Decimal

  const GAP := "\n\n"

  /** The sections of one message, separated by blank lines. */
  function Join(sections: seq<string>): string {
    if sections == [] then ""
    else if |sections| == 1 then sections[0]
    else Join(sections[..|sections| - 1]) + GAP + sections[|sections| - 1]
  }

  function JoinEach(groups: seq<seq<string>>): seq<string> {
    seq(|groups|, i requires 0 <= i < |groups| => Join(groups[i]))
  }

  function Flatten(groups: seq<seq<string>>): seq<string> {
    if groups == [] then [] else Flatten(groups[..|groups| - 1]) + groups[|groups| - 1]
  }

  predicate NonEmpty(sections: seq<string>) { forall i :: 0 <= i < |sections| ==> sections[i] != "" }

  /** Cutting the sections, in order, into messages that fit unless they hold a single section. */
  ghost predicate Packing(groups: seq<seq<string>>, sections: seq<string>, limit: int) {
    && Flatten(groups) == sections
    && forall i :: 0 <= i < |groups| ==> groups[i] != [] && (|groups[i]| == 1 || |Join(groups[i])| <= limit)
  }

  /** No message could have taken the first section of the next one. */
  ghost predicate Tight(groups: seq<seq<string>>, limit: int) {
    forall i :: 0 <= i < |groups| - 1 ==> Full(groups, i, limit)
  }

  ghost predicate Full(groups: seq<seq<string>>, i: int, limit: int)
    requires 0 <= i < |groups| - 1
  {
    groups[i + 1] != [] && |Join(groups[i] + [groups[i + 1][0]])| > limit
  }

  ghost predicate Greedy(groups: seq<seq<string>>, sections: seq<string>, limit: int) {
    Packing(groups, sections, limit) && Tight(groups, limit)
  }

  lemma JoinSnoc(sections: seq<string>, s: string)
    requires sections != []
    ensures Join(sections + [s]) == Join(sections) + GAP + s
  {
    assert (sections + [s])[..|sections|] == sections;
  }

  lemma FlattenSnoc(groups: seq<seq<string>>, g: seq<string>)
    ensures Flatten(groups + [g]) == Flatten(groups) + g
  {
    assert (groups + [g])[..|groups|] == groups;
  }

  lemma JoinEachSnoc(groups: seq<seq<string>>, g: seq<string>)
    ensures JoinEach(groups + [g]) == JoinEach(groups) + [Join(g)]
  {
  }

  lemma GreedyOpens(groups: seq<seq<string>>, open: seq<string>, done: seq<string>, section: string, limit: int)
    requires Greedy(groups + [open], done, limit) && |Join(open + [section])| > limit
    ensures Greedy(groups + [open] + [[section]], done + [section], limit)
  {
    FlattenSnoc(groups + [open], [section]);
    var a, b := groups + [open], groups + [open] + [[section]];
    forall i | 0 <= i < |b| - 1 ensures Full(b, i, limit) {
      assert i < |a| - 1 ==> Full(a, i, limit);
    }
  }

  lemma GreedyExtends(groups: seq<seq<string>>, open: seq<string>, done: seq<string>, section: string, limit: int)
    requires Greedy(groups + [open], done, limit) && |Join(open + [section])| <= limit
    ensures Greedy(groups + [open + [section]], done + [section], limit)
  {
    FlattenSnoc(groups, open);
    FlattenSnoc(groups, open + [section]);
    var a, b := groups + [open], groups + [open + [section]];
    assert a[|groups|] != [];
    forall i | 0 <= i < |b| - 1 ensures Full(b, i, limit) {
      assert Full(a, i, limit);
    }
    forall i | 0 <= i < |b| ensures b[i] != [] && (|b[i]| == 1 || |Join(b[i])| <= limit) {
      assert i < |groups| ==> b[i] == a[i];
    }
  }

  lemma GreedyStarts(section: string, limit: int)
    ensures Greedy([[section]], [section], limit)
  {
    FlattenSnoc([], [section]);
  }

  /** The messages closed and the one still open after the given sections. */
  function Packed(sections: seq<string>, limit: int): (seq<string>, string) {
    if sections == [] then ([], "")
    else
      var (done, current) := Packed(sections[..|sections| - 1], limit);
      var section := sections[|sections| - 1];
      if current == "" then (done, section)
      else if |current + GAP + section| > limit then (done + [current], section)
      else (done, current + GAP + section)
  }

  function Messages(sections: seq<string>, limit: int): seq<string> {
    var (done, current) := Packed(sections, limit);
    done + [current]
  }

  /** How many sections other than the first arrive while the open message is empty. */
  function Swallowed(sections: seq<string>, limit: int): nat {
    if |sections| <= 1 then 0
    else
      var before := sections[..|sections| - 1];
      Swallowed(before, limit) + (if Packed(before, limit).1 == "" then 1 else 0)
  }

  lemma NothingSwallowed(sections: seq<string>, limit: int)
    requires NonEmpty(sections)
    ensures Swallowed(sections, limit) == 0 && (sections != [] ==> Packed(sections, limit).1 != "")
  {
    if sections != [] {
      NothingSwallowed(sections[..|sections| - 1], limit);
    }
  }

  lemma SwallowedBefore(sections: seq<string>, limit: int, i: nat)
    requires 0 < i < |sections| && Swallowed(sections, limit) == 0
    ensures Packed(sections[..i], limit).1 != ""
  {
    var before := sections[..|sections| - 1];
    if i < |before| {
      SwallowedBefore(before, limit, i);
      assert before[..i] == sections[..i];
    }
  }

  /** Greedy packing, as /help does it. The groups behind the messages are returned for the record. */
  method PackSections(sections: seq<string>, limit: int) returns (messages: seq<string>, ghost groups: seq<seq<string>>)
    ensures messages == Messages(sections, limit)
    ensures forall m :: m in messages ==> m == "" || m in sections || |m| <= limit
    ensures sections != [] && Swallowed(sections, limit) == 0 ==>
        messages == JoinEach(groups) && Greedy(groups, sections, limit)
  {
    hide Greedy, Join, Swallowed;
    messages := [];
    groups := [];
    var current := "";
    ghost var open: seq<string> := [];
    ghost var sound := Swallowed(sections, limit) == 0;
    for i := 0 to |sections|
      invariant (messages, current) == Packed(sections[..i], limit)
      invariant forall m :: m in messages + [current] ==> m == "" || m in sections || |m| <= limit
      invariant sound && i > 0 ==> open != [] && current == Join(open) && messages == JoinEach(groups)
      invariant sound && i > 0 ==> Greedy(groups + [open], sections[..i], limit)
    {
      var section := sections[i];
      var candidate := section;
      if sound && i > 0 {
        SwallowedBefore(sections, limit, i);
      }
      JoinOne(section);
      if current != "" {
        candidate := current + "\n\n" + section;
        if sound {
          JoinSnoc(open, section);
          JoinEachSnoc(groups, open);
        }
      }
      assert sections[..i + 1] == sections[..i] + [section];
      assert sections[..i + 1][..i] == sections[..i];
      if current != "" && |candidate| > limit {
        if sound {
          GreedyOpens(groups, open, sections[..i], section, limit);
        }
        messages := messages + [current];
        groups := groups + [open];
        current := section;
        open := [section];
        continue;
      }
      if sound {
        if i == 0 {
          GreedyStarts(section, limit);
          groups, open := [], [section];
          assert [] + [open] == [[section]] && JoinEach([]) == [];
          assert sections[..1] == [section];
        } else {
          GreedyExtends(groups, open, sections[..i], section, limit);
          open := open + [section];
        }
      }
      current := candidate;
    }
    assert sections[..|sections|] == sections;
    JoinEachSnoc(groups, open);
    messages := messages + [current];
    groups := groups + [open];
  }

  lemma JoinOne(section: string)
    ensures Join([section]) == section
  {
  }

  // ----- Lossless -----

  lemma JoinAppend(a: seq<string>, b: seq<string>)
    requires a != [] && b != []
    ensures Join(a + b) == Join(a) + GAP + Join(b)
  {
    var init, last := b[..|b| - 1], b[|b| - 1];
    assert a + b == (a + init) + [last];
    if init == [] {
      assert a + init == a;
      JoinSnoc(a, last);
    } else {
      JoinAppend(a, init);
      JoinSnoc(a + init, last);
      JoinSnoc(init, last);
      assert init + [last] == b;
    }
  }

  /** Joining the messages gives back all the sections joined. */
  lemma {:induction false} PackingLossless(groups: seq<seq<string>>, sections: seq<string>, limit: int)
    requires Packing(groups, sections, limit)
    ensures Join(JoinEach(groups)) == Join(sections)
  {
    if |groups| == 1 {
      assert Flatten(groups) == Flatten(groups[..0]) + groups[0] == groups[0];
    } else if groups != [] {
      var before, last := groups[..|groups| - 1], groups[|groups| - 1];
      PackingLossless(before, Flatten(before), limit);
      FlattenNonEmpty(before, limit);
      JoinAppend(Flatten(before), last);
      assert JoinEach(groups)[..|groups| - 1] == JoinEach(before);
    }
  }

  lemma FlattenNonEmpty(groups: seq<seq<string>>, limit: int)
    requires groups != [] && groups[|groups| - 1] != []
    ensures Flatten(groups) != []
  {
  }

  /** Each swallowed separator is missing from the messages joined; nothing else is. */
  lemma LostExactly(sections: seq<string>, limit: int)
    ensures |Join(Messages(sections, limit))| + |GAP| * Swallowed(sections, limit) == |Join(sections)|
    ensures Swallowed(sections, limit) == 0 ==> Join(Messages(sections, limit)) == Join(sections)
  {
    if sections != [] {
      var before, section := sections[..|sections| - 1], sections[|sections| - 1];
      LostExactly(before, limit);
      hide Join, Swallowed;
      var (done, current) := Packed(before, limit);
      JoinLast(done, current, section);
      JoinSnoc(done + [current], section);
      assert sections == before + [section];
      if before == [] {
        JoinOne(section);
        JoinNone();
        assert Messages(sections, limit) == [section] && Messages(before, limit) == [""];
        SwallowedFew(sections, limit);
      } else {
        JoinSnoc(before, section);
        SwallowedStep(sections, limit);
      }
    }
  }

  lemma JoinNone()
    ensures Join([]) == ""
  {
  }

  lemma SwallowedFew(sections: seq<string>, limit: int)
    requires |sections| <= 1
    ensures Swallowed(sections, limit) == 0
  {
  }

  lemma SwallowedStep(sections: seq<string>, limit: int)
    requires |sections| > 1
    ensures var before := sections[..|sections| - 1];
            Swallowed(sections, limit) == Swallowed(before, limit) + (if Packed(before, limit).1 == "" then 1 else 0)
  {
  }

  lemma GlueAssociates(before: string, current: string, section: string)
    ensures before + (current + GAP + section) == before + current + GAP + section
    ensures current == "" ==> before + section == before + current + section
  {
  }

  lemma JoinLast(done: seq<string>, current: string, section: string)
    ensures Join(done + [current + GAP + section]) == Join(done + [current]) + GAP + section
    ensures Join(done + [section]) == (if done == [] then "" else Join(done) + GAP) + section
    ensures current == "" ==> Join(done + [section]) == Join(done + [current]) + section
  {
    hide Join;
    if done != [] {
      JoinSnoc(done, current + GAP + section);
      JoinSnoc(done, current);
      JoinSnoc(done, section);
      GlueAssociates(Join(done) + GAP, current, section);
    } else {
      assert done + [section] == [section] && done + [current] == [current];
      assert done + [current + GAP + section] == [current + GAP + section];
      JoinOne(section);
      JoinOne(current);
      JoinOne(current + GAP + section);
      GlueAssociates("", current, section);
    }
  }

  /** The messages joined are the sections joined exactly when no separator was swallowed, as it is
      when every section is non-empty. */
  lemma {:induction false} LosslessExactly(sections: seq<string>, limit: int)
    ensures Join(Messages(sections, limit)) == Join(sections) <==> Swallowed(sections, limit) == 0
    ensures NonEmpty(sections) ==> Swallowed(sections, limit) == 0
  {
    LostExactly(sections, limit);
    if NonEmpty(sections) {
      NothingSwallowed(sections, limit);
    }
  }

  /** A leading empty section loses its separator, one between others that fit does not. */
  lemma {:induction false} LeadingEmptyLost()
    ensures Messages(["", "a"], 4096) == ["a"] && Join(["", "a"]) == "\n\na"
    ensures Messages(["a", "", "b"], 4096) == ["a\n\n\n\nb"] == [Join(["a", "", "b"])]
  {
    assert ["", "a"][..1] == [""] && [""][..0] == [];
    assert Packed([""], 4096) == ([], "");
    assert Packed(["", "a"], 4096) == ([], "a");
    assert ["a", "", "b"][..2] == ["a", ""] && ["a", ""][..1] == ["a"] && ["a"][..0] == [];
    assert Packed(["a"], 4096) == ([], "a");
    assert "a" + GAP + "" == "a\n\n" && "a\n\n" + GAP + "b" == "a\n\n\n\nb";
    assert Packed(["a", ""], 4096) == ([], "a\n\n");
    assert Packed(["a", "", "b"], 4096) == ([], "a\n\n\n\nb");
    assert Join(["a", ""]) == "a\n\n";
  }

  // ----- Optimal -----

  lemma JoinSub(a: seq<string>, b: seq<string>, c: seq<string>)
    requires b != []
    ensures |Join(b)| <= |Join(a + b + c)|
  {
    if a != [] {
      JoinAppend(a, b);
    } else {
      assert a + b == b;
    }
    if c != [] {
      JoinAppend(a + b, c);
    } else {
      assert a + b + c == a + b;
    }
  }

  function Count(groups: seq<seq<string>>): int { |Flatten(groups)| }

  /** A group that starts no later and ends past the next one's start would contain an overfull one. */
  lemma Overtake(sections: seq<string>, i: int, p: int, j: int, q: int, limit: int)
    requires 0 <= j <= i < p < |sections| && j <= q <= |sections|
    requires (q == j + 1 || |Join(sections[j..q])| <= limit) && limit < |Join(sections[i..p + 1])|
    ensures q <= p
  {
    if p < q {
      assert sections[j..q] == sections[j..i] + sections[i..p + 1] + sections[p + 1..q];
      JoinSub(sections[j..i], sections[i..p + 1], sections[p + 1..q]);
    }
  }

  /** After as many messages, a tight packing has got at least as far as any other. */
  lemma {:induction false} StaysAhead(tight: seq<seq<string>>, other: seq<seq<string>>, sections: seq<string>,
      limit: int, n: nat)
    requires Packing(tight, sections, limit) && Tight(tight, limit) && Packing(other, sections, limit)
    requires n < |tight| && n <= |other|
    ensures Count(other[..n]) <= Count(tight[..n])
  {
    hide Join, Flatten, Count;
    if n > 0 {
      StaysAhead(tight, other, sections, limit, n - 1);
      FlattenPart(tight, n - 1);
      FlattenPart(tight, n);
      FlattenPart(other, n - 1);
      var i, p := Count(tight[..n - 1]), Count(tight[..n]);
      assert Full(tight, n - 1, limit);
      assert sections[i..p + 1] == sections[i..p] + [sections[p]];
      assert sections[p] == tight[n][0];
      Overtake(sections, i, p, Count(other[..n - 1]), Count(other[..n]), limit);
    } else {
      assert other[..0] == tight[..0];
    }
  }

  /** The n-th group is the stretch of sections between the counts. */
  lemma FlattenPart(groups: seq<seq<string>>, n: nat)
    requires n < |groups|
    ensures var i := Count(groups[..n]);
            && 0 <= i && Count(groups[..n + 1]) == i + |groups[n]| <= |Flatten(groups)|
            && Flatten(groups)[i..i + |groups[n]|] == groups[n]
  {
    hide Flatten;
    FlattenCut(groups, n + 1);
    assert groups[..n + 1] == groups[..n] + [groups[n]];
    FlattenSnoc(groups[..n], groups[n]);
  }

  lemma FlattenStep(groups: seq<seq<string>>, n: nat)
    requires n < |groups|
    ensures Flatten(groups[..n]) <= Flatten(groups[..n + 1])
  {
    hide Flatten;
    assert groups[..n + 1] == groups[..n] + [groups[n]];
    FlattenSnoc(groups[..n], groups[n]);
  }

  lemma {:induction false} FlattenCut(groups: seq<seq<string>>, n: nat)
    requires n <= |groups|
    ensures Flatten(groups[..n]) <= Flatten(groups)
    decreases |groups| - n
  {
    hide Flatten;
    if n < |groups| {
      FlattenCut(groups, n + 1);
      FlattenStep(groups, n);
    } else {
      assert groups[..n] == groups;
    }
  }

  /** No order-preserving packing uses fewer messages, oversized sections or not. */
  lemma {:induction false} TightIsOptimal(tight: seq<seq<string>>, other: seq<seq<string>>, sections: seq<string>,
      limit: int)
    requires Packing(tight, sections, limit) && Tight(tight, limit) && Packing(other, sections, limit)
    ensures |tight| <= |other|
  {
    if |other| < |tight| {
      StaysAhead(tight, other, sections, limit, |other|);
      assert other[..|other|] == other;
      FlattenPart(tight, |other|);
    }
  }

  // ----- Stock events -----

  const REPLY_LIMIT: int := 4000
  const BODY_LIMIT: int := REPLY_LIMIT - 80
  /** Cut to limit characters, the last of them an ellipsis character. */
  function TruncateRunes(value: string, limit: int): (r: string)
    requires 1 <= limit
    ensures |r| <= limit && (|value| <= limit ==> r == value)
  {
    if |value| <= limit then value else value[..limit - 1] + ['\U{2026}']
  }

  function Clipped(block: string): string {
    if |block| > BODY_LIMIT then TruncateRunes(block, BODY_LIMIT - 16) + "\n\U{2026}(truncated)" else block
  }

  /** A block within the limit stays whole; a longer one keeps its beginning and is marked as cut. */
  lemma {:induction false} ClippedExactly(block: string)
    ensures |block| <= 3920 ==> Clipped(block) == block
    ensures |block| > 3920 ==>
              Clipped(block) == block[..3903] + "\U{2026}\n\U{2026}(truncated)" && |Clipped(block)| <= 3920
  {
    if |block| > 3920 {
      assert Clipped(block) == block[..3903] + ['\U{2026}'] + "\n\U{2026}(truncated)";
    }
  }

  function ClippedAll(blocks: seq<string>): seq<string> {
    seq(|blocks|, i requires 0 <= i < |blocks| => Clipped(blocks[i]))
  }

  lemma ClippedFacts(blocks: seq<string>, i: nat)
    requires i < |blocks|
    ensures ClippedAll(blocks)[..i + 1] == ClippedAll(blocks)[..i] + [Clipped(blocks[i])]
    ensures |Clipped(blocks[i])| <= BODY_LIMIT
    ensures NonEmpty(blocks) ==> Clipped(blocks[i]) != ""
  {
  }

  /** The reply bodies: oversized blocks are clipped first, so every body fits and no clipped block is
      lost; the packing is the greedy one. */
  method ChunkBodies(blocks: seq<string>) returns (chunks: seq<string>, ghost groups: seq<seq<string>>)
    ensures |chunks| <= |blocks|
    ensures forall i :: 0 <= i < |chunks| ==> 0 < |chunks[i]| <= BODY_LIMIT
    ensures NonEmpty(blocks) ==>
              chunks == JoinEach(groups) && (blocks != [] ==> Greedy(groups, ClippedAll(blocks), BODY_LIMIT))
  {
    hide Greedy, Join, NonEmpty, Clipped;
    chunks := [];
    groups := [];
    var current := "";
    ghost var open: seq<string> := [];
    ghost var sound := NonEmpty(blocks);
    for i := 0 to |blocks|
      invariant |current| <= BODY_LIMIT && |chunks| + (if current == "" then 0 else 1) <= i
      invariant forall j :: 0 <= j < |chunks| ==> 0 < |chunks[j]| <= BODY_LIMIT
      invariant i == 0 ==> chunks == [] && current == "" && groups == []
      invariant sound && i > 0 ==> current != "" && open != [] && current == Join(open) && chunks == JoinEach(groups)
      invariant sound && i > 0 ==> Greedy(groups + [open], ClippedAll(blocks)[..i], BODY_LIMIT)
    {
      ClippedFacts(blocks, i);
      var block := ClipBlock(blocks[i]);
      var candidate := block;
      JoinOne(block);
      if current != "" {
        candidate := current + "\n\n" + block;
        if sound {
          JoinSnoc(open, block);
          JoinEachSnoc(groups, open);
        }
      }
      if |candidate| > BODY_LIMIT && current != "" {
        if sound {
          GreedyOpens(groups, open, ClippedAll(blocks)[..i], block, BODY_LIMIT);
        }
        chunks := chunks + [current];
        groups := groups + [open];
        current := block;
        open := [block];
      } else {
        if sound {
          if i == 0 {
            GreedyStarts(block, BODY_LIMIT);
            open := [block];
            assert [] + [open] == [[block]] && JoinEach([]) == [];
            assert ClippedAll(blocks)[..1] == [block];
          } else {
            GreedyExtends(groups, open, ClippedAll(blocks)[..i], block, BODY_LIMIT);
            open := open + [block];
          }
        }
        current := candidate;
      }
    }
    assert ClippedAll(blocks)[..|blocks|] == ClippedAll(blocks);
    if current != "" {
      JoinEachSnoc(groups, open);
      chunks := chunks + [current];
      groups := groups + [open];
    }
  }

  method ClipBlock(block: string) returns (r: string)
    ensures r == Clipped(block)
  {
    r := block;
    if |block| > BODY_LIMIT {
      r := TruncateRunes(block, BODY_LIMIT - 16) + "\n\U{2026}(truncated)";
    }
  }

  function Heading(symbol: string, i: nat, n: nat): string {
    symbol + " events" + (if n > 1 then " (" + Digits(i + 1) + "/" + Digits(n) + ")" else "")
  }

  /** Parts are numbered from 1, and a single one is not numbered. */
  lemma {:induction false} HeadingsRead(symbol: string)
    ensures Heading(symbol, 0, 1) == symbol + " events"
    ensures Heading(symbol, 0, 2) == symbol + " events (1/2)" && Heading(symbol, 1, 2) == symbol + " events (2/2)"
  {
    assert Digits(1) == "1" && Digits(2) == "2";
    assert symbol + " events" + (" (" + "1" + "/" + "2" + ")") == symbol + " events (1/2)";
    assert symbol + " events" + (" (" + "2" + "/" + "2" + ")") == symbol + " events (2/2)";
    assert symbol + " events" + "" == symbol + " events";
  }

  /** Each body goes out under its numbered heading, and every reply stays within the limit for every
      ticker, however many parts there are in practice. */
  method ChunkReplies(symbol: string, blocks: seq<string>)
    returns (replies: seq<string>, ghost groups: seq<seq<string>>)
    ensures NonEmpty(blocks) ==>
              && (blocks != [] ==> Greedy(groups, ClippedAll(blocks), BODY_LIMIT))
              && |replies| == |groups|
              && forall i :: 0 <= i < |replies| ==> replies[i] == Heading(symbol, i, |replies|) + GAP + Join(groups[i])
    ensures |symbol| <= 16 && |blocks| < Pow10(25) ==> forall i :: 0 <= i < |replies| ==> |replies[i]| <= REPLY_LIMIT
  {
    hide Greedy, NonEmpty, Join;
    var chunks;
    chunks, groups := ChunkBodies(blocks);
    replies := [];
    for i := 0 to |chunks|
      invariant |replies| == i
      invariant forall j :: 0 <= j < i ==> replies[j] == Heading(symbol, j, |chunks|) + GAP + chunks[j]
      invariant |symbol| <= 16 && |blocks| < Pow10(25) ==> forall j :: 0 <= j < i ==> |replies[j]| <= REPLY_LIMIT
    {
      var heading := symbol + " events";
      if |chunks| > 1 {
        heading := heading + " (" + Digits(i + 1) + "/" + Digits(|chunks|) + ")";
        assert heading == Heading(symbol, i, |chunks|);
        if |blocks| < Pow10(25) {
          DigitsLength(i + 1, 25);
          DigitsLength(|chunks|, 25);
        }
      }
      replies := replies + [heading + "\n\n" + chunks[i]];
    }
  }
}
