/** The DevTools pipe: NUL-framed messages cut out of a chunked stream, and the table of calls
    waiting for their responses. JSON parsing is a given function that may fail, or give null, whose
    fields cannot be read. */
module CdpPipe {
  import opened Wrappers
  import opened Decimal

  const NUL: char := 0 as char

  datatype Message = Message(id: Option<int>, error: bool, method_: Option<string>)

  datatype Parsed = Garbled | Null | Good(message: Message)

  type Parse = string -> Parsed

  datatype Settlement = Resolved(id: int, message: Message) | Rejected(id: int, message: Message) | Failed(id: int)

  /** The ids given out and the calls waiting, by id with their method; then, for the record, what was
      delivered and how calls were settled. */
  datatype Table = Table(nextId: nat, pending: map<int, string>, delivered: seq<Message>, settled: seq<Settlement>)

  datatype Conn = Conn(buffered: string, table: Table)

  const FRESH := Conn("", Table(0, map[], [], []))

  // ----- Cutting messages out -----

  /** The messages handled, the buffer left, and whether the handler threw. */
  datatype Drained = Drained(messages: seq<Message>, rest: string, threw: bool)

  /** Message by message off the front of a buffer. Text that does not parse throws while it is still in
      the buffer; null throws once it has been taken out. */
  function Drain(parse: Parse, buffer: string): Drained
    decreases |buffer|
  {
    var end := Find(buffer, NUL);
    if end == |buffer| then Drained([], buffer, false)
    else
      match parse(buffer[..end])
      case Garbled => Drained([], buffer, true)
      case Null => Drained([], buffer[end + 1..], true)
      case Good(m) => var d := Drain(parse, buffer[end + 1..]); d.(messages := [m] + d.messages)
  }

  /** The NUL-separated pieces of a stream and the tail after the last NUL. */
  function Pieces(s: string): (seq<string>, string)
    decreases |s|
  {
    var end := Find(s, NUL);
    if end == |s| then ([], s)
    else var (ps, tail) := Pieces(s[end + 1..]); ([s[..end]] + ps, tail)
  }

  function Concat(chunks: seq<string>): string {
    if chunks == [] then "" else Concat(chunks[..|chunks| - 1]) + chunks[|chunks| - 1]
  }

  // ----- What each event does -----

  datatype Event = Send(method_: string) | Data(chunk: string) | FailAll

  function Deliver(t: Table, m: Message): Table {
    var d := t.(delivered := t.delivered + [m]);
    if m.id.None? || m.id.value !in t.pending then d
    else
      var id := m.id.value;
      d.(pending := t.pending - {id}, settled := t.settled + [if m.error then Rejected(id, m) else Resolved(id, m)])
  }

  function DeliverAll(t: Table, ms: seq<Message>): Table
    decreases |ms|
  {
    if ms == [] then t else DeliverAll(Deliver(t, ms[0]), ms[1..])
  }

  function OnData(parse: Parse, c: Conn, chunk: string): Conn {
    var d := Drain(parse, c.buffered + chunk);
    Conn(d.rest, DeliverAll(c.table, d.messages))
  }

  function OnSend(t: Table, method_: string): Table {
    t.(nextId := t.nextId + 1, pending := t.pending[t.nextId + 1 := method_])
  }

  /** Every waiting call fails; which is told first does not matter. */
  ghost predicate FailsTo(t: Table, u: Table) {
    && u == t.(pending := map[], settled := u.settled)
    && t.settled <= u.settled
    && (forall i :: |t.settled| <= i < |u.settled| ==> u.settled[i].Failed? && u.settled[i].id in t.pending)
    && (forall id :: CountOf(u.settled, id) == CountOf(t.settled, id) + (if id in t.pending then 1 else 0))
  }

  function CountOf(settled: seq<Settlement>, id: int): nat {
    if settled == [] then 0
    else CountOf(settled[..|settled| - 1], id) + (if settled[|settled| - 1].id == id then 1 else 0)
  }

  lemma CountSnoc(settled: seq<Settlement>, s: Settlement, id: int)
    ensures CountOf(settled + [s], id) == CountOf(settled, id) + (if s.id == id then 1 else 0)
  {
    assert (settled + [s])[..|settled|] == settled;
  }

  lemma SomeMember(ids: set<int>)
    ensures ids == {} || exists id :: id in ids
  {
    if forall id :: id !in ids {
      assert ids == {};
    }
  }

  class Connection {
    var buffered: string
    var nextId: nat
    var pending: map<int, string>
    ghost var delivered: seq<Message>
    ghost var settled: seq<Settlement>
    const parse: Parse

    constructor (parse: Parse)
      ensures Value() == FRESH && this.parse == parse
    {
      this.parse := parse;
      buffered, nextId, pending, delivered, settled := "", 0, map[], [], [];
    }

    ghost function Calls(): Table
      reads this
    {
      Table(nextId, pending, delivered, settled)
    }

    ghost function Value(): Conn
      reads this
    {
      Conn(buffered, Calls())
    }

    method SendCall(method_: string) returns (id: int)
      modifies this
      ensures Value() == Conn(old(buffered), OnSend(old(Calls()), method_)) && id == nextId
    {
      nextId := nextId + 1;
      pending := pending[nextId := method_];
      return nextId;
    }

    method Handle(message: Message)
      modifies this`pending, this`delivered, this`settled
      ensures Calls() == Deliver(old(Calls()), message)
    {
      delivered := delivered + [message];
      if message.id.Some? {
        var id := message.id.value;
        if id in pending {
          settled := settled + [if message.error then Rejected(id, message) else Resolved(id, message)];
          pending := pending - {id};
        }
      }
    }

    /** The data handler; it throws at a message that does not parse and at null. */
    method Receive(chunk: string) returns (threw: bool)
      modifies this
      ensures Value() == OnData(parse, old(Value()), chunk)
      ensures threw == Drain(parse, old(buffered) + chunk).threw
    {
      buffered := buffered + chunk;
      var end := Find(buffered, NUL);
      ghost var goal := OnData(parse, old(Value()), chunk);
      ghost var throws := Drain(parse, buffered).threw;
      while end < |buffered|
        invariant end == Find(buffered, NUL) && throws == Drain(parse, buffered).threw
        invariant goal == Conn(Drain(parse, buffered).rest, DeliverAll(Calls(), Drain(parse, buffered).messages))
        decreases |buffered|
      {
        var parsed := parse(buffered[..end]);
        if parsed.Garbled? {
          return true;
        }
        ghost var later := Drain(parse, buffered[end + 1..]);
        buffered := buffered[end + 1..];
        end := Find(buffered, NUL);
        if parsed.Null? {
          return true;
        }
        assert ([parsed.message] + later.messages)[1..] == later.messages;
        Handle(parsed.message);
      }
      return false;
    }

    method Fail()
      modifies this
      ensures FailsTo(old(Calls()), Calls()) && buffered == old(buffered)
    {
      ghost var was := Calls();
      var ids := pending.Keys;
      while ids != {}
        invariant ids <= was.pending.Keys
        invariant Calls() == was.(settled := settled) && was.settled <= settled
        invariant buffered == old(buffered)
        invariant forall i :: |was.settled| <= i < |settled| ==> settled[i].Failed? && settled[i].id in was.pending
        invariant forall k :: CountOf(settled, k) ==
                    CountOf(was.settled, k) + (if k in was.pending && k !in ids then 1 else 0)
        decreases ids
      {
        SomeMember(ids);
        var id :| id in ids;
        ids := ids - {id};
        forall k ensures CountOf(settled + [Failed(id)], k) == CountOf(settled, k) + (if id == k then 1 else 0) {
          CountSnoc(settled, Failed(id), k);
        }
        settled := settled + [Failed(id)];
      }
      pending := map[];
    }
  }

  // ----- One chunk after another -----

  function Receives(parse: Parse, c: Conn, chunks: seq<string>): Conn {
    if chunks == [] then c else OnData(parse, Receives(parse, c, chunks[..|chunks| - 1]), chunks[|chunks| - 1])
  }

  predicate HasPiece(s: string) { Find(s, NUL) < |s| }

  function FirstOf(s: string): string { s[..Find(s, NUL)] }

  function AfterFirst(s: string): string
    requires HasPiece(s)
  {
    s[Find(s, NUL) + 1..]
  }

  /** Nothing at the front can be taken out. */
  predicate Idle(parse: Parse, s: string) { HasPiece(s) ==> parse(FirstOf(s)).Garbled? }

  /** Text that does not parse stands at the front. */
  predicate Stuck(parse: Parse, s: string) { HasPiece(s) && parse(FirstOf(s)).Garbled? }

  /** Before anything that does not parse there is a null. */
  predicate Interrupted(parse: Parse, s: string)
    decreases |s|
  {
    HasPiece(s) && (parse(FirstOf(s)).Null? || (parse(FirstOf(s)).Good? && Interrupted(parse, AfterFirst(s))))
  }

  lemma FirstAppend(s: string, t: string)
    requires HasPiece(s)
    ensures HasPiece(s + t) && FirstOf(s + t) == FirstOf(s) && AfterFirst(s + t) == AfterFirst(s) + t
  {
    var n := Find(s, NUL);
    assert (s + t)[n] == NUL;
    assert forall i :: 0 <= i < n ==> (s + t)[i] == s[i];
    assert Find(s + t, NUL) == n;
  }

  lemma DrainHead(parse: Parse, s: string)
    ensures !HasPiece(s) ==> Drain(parse, s) == Drained([], s, false)
    ensures HasPiece(s) ==>
              Drain(parse, s) ==
                match parse(FirstOf(s))
                case Garbled => Drained([], s, true)
                case Null => Drained([], AfterFirst(s), true)
                case Good(m) => Drain(parse, AfterFirst(s)).(messages := [m] + Drain(parse, AfterFirst(s)).messages)
  {
  }

  lemma IdleExactly(parse: Parse, s: string)
    ensures Idle(parse, s) ==> Drain(parse, s).messages == [] && Drain(parse, s).rest == s && !Interrupted(parse, s)
    ensures !Idle(parse, s) ==> |Drain(parse, s).rest| < |s|
    ensures |Drain(parse, s).rest| <= |s|
    decreases |s|
  {
    if HasPiece(s) && parse(FirstOf(s)).Good? {
      IdleExactly(parse, AfterFirst(s));
    }
  }

  lemma IdleBefore(parse: Parse, s: string, t: string)
    ensures Idle(parse, s + t) ==> Idle(parse, s)
  {
    if HasPiece(s) {
      FirstAppend(s, t);
    }
  }

  /** Draining what comes in two parts: a null in the first leaves the second waiting. */
  lemma {:induction false} DrainAppend(parse: Parse, s: string, t: string)
    ensures var d := Drain(parse, s);
            Drain(parse, s + t) ==
              if Interrupted(parse, s) then Drained(d.messages, d.rest + t, true)
              else Drain(parse, d.rest + t).(messages := d.messages + Drain(parse, d.rest + t).messages)
    ensures Interrupted(parse, s) ==> Interrupted(parse, s + t)
    decreases |s|
  {
    hide Drain;
    DrainHead(parse, s);
    if HasPiece(s) {
      FirstAppend(s, t);
      DrainHead(parse, s + t);
      if parse(FirstOf(s)).Good? {
        DrainAppend(parse, AfterFirst(s), t);
      }
    }
  }

  lemma DeliverAllAppend(t: Table, a: seq<Message>, b: seq<Message>)
    ensures DeliverAll(t, a + b) == DeliverAll(DeliverAll(t, a), b)
    decreases |a|
  {
    if a == [] {
      assert a + b == b;
    } else {
      assert (a + b)[1..] == a[1..] + b;
      DeliverAllAppend(Deliver(t, a[0]), a[1..], b);
    }
  }

  lemma DeliveredAll(t: Table, ms: seq<Message>)
    ensures DeliverAll(t, ms).delivered == t.delivered + ms
    decreases |ms|
  {
    if ms != [] {
      DeliveredAll(Deliver(t, ms[0]), ms[1..]);
    }
  }

  /** Two chunks in a row are as good as one, unless a null in the first keeps something waiting. */
  lemma TwoChunks(parse: Parse, c: Conn, s: string, t: string)
    ensures !Interrupted(parse, c.buffered + s) || Idle(parse, Drain(parse, c.buffered + s + t).rest) ==>
              OnData(parse, OnData(parse, c, s), t) == OnData(parse, c, s + t)
  {
    hide Drain, Interrupted, Idle;
    var d := Drain(parse, c.buffered + s);
    var e := Drain(parse, d.rest + t);
    DrainAppend(parse, c.buffered + s, t);
    assert c.buffered + s + t == c.buffered + (s + t);
    DeliverAllAppend(c.table, d.messages, e.messages);
    if Interrupted(parse, c.buffered + s) {
      IdleExactly(parse, d.rest + t);
      assert DeliverAll(DeliverAll(c.table, d.messages), []) == DeliverAll(c.table, d.messages);
    }
  }

  // ----- When chunking does not matter -----

  predicate Suffix(r: string, s: string) { |r| <= |s| && s[|s| - |r|..] == r }

  lemma SuffixAppend(r: string, s: string, t: string)
    requires Suffix(r, s)
    ensures Suffix(r + t, s + t)
  {
  }

  lemma SuffixTransitive(q: string, r: string, s: string)
    requires Suffix(q, r) && Suffix(r, s)
    ensures Suffix(q, s)
  {
  }

  lemma RestIsSuffix(parse: Parse, s: string)
    ensures Suffix(Drain(parse, s).rest, s)
    decreases |s|
  {
    if HasPiece(s) && parse(FirstOf(s)).Good? {
      RestIsSuffix(parse, AfterFirst(s));
      SuffixTransitive(Drain(parse, AfterFirst(s)).rest, AfterFirst(s), s);
    }
  }

  lemma ConcatLast(chunks: seq<string>, b: string)
    requires chunks != []
    ensures b + Concat(chunks) == b + Concat(chunks[..|chunks| - 1]) + chunks[|chunks| - 1]
  {
    Associates(b, Concat(chunks[..|chunks| - 1]), chunks[|chunks| - 1]);
  }

  lemma Associates(a: string, b: string, c: string)
    ensures a + (b + c) == a + b + c
  {
  }

  /** As long as no null came before the last chunk, chunks are as good as one. */
  lemma {:induction false} SameUntilNull(parse: Parse, c: Conn, chunks: seq<string>)
    requires Idle(parse, c.buffered)
    requires chunks != [] ==> !Interrupted(parse, c.buffered + Concat(chunks[..|chunks| - 1]))
    ensures Receives(parse, c, chunks) == OnData(parse, c, Concat(chunks))
  {
    hide Drain, Interrupted, Idle;
    if chunks == [] {
      IdleExactly(parse, c.buffered);
      assert c.buffered + "" == c.buffered;
    } else {
      var before, last := chunks[..|chunks| - 1], chunks[|chunks| - 1];
      if before != [] {
        var s := c.buffered + Concat(before[..|before| - 1]);
        DrainAppend(parse, s, before[|before| - 1]);
        ConcatLast(before, c.buffered);
      }
      SameUntilNull(parse, c, before);
      TwoChunks(parse, c, Concat(before), last);
    }
  }

  /** In chunks, at least as much has been taken off the stream as in one go. */
  lemma {:induction false} ChunksGoFurther(parse: Parse, c: Conn, chunks: seq<string>)
    requires Idle(parse, c.buffered)
    ensures var s := c.buffered + Concat(chunks);
            var r := Receives(parse, c, chunks).buffered;
            Suffix(r, s) && |r| <= |Drain(parse, s).rest|
  {
    hide Drain, Interrupted, Idle;
    var s := c.buffered + Concat(chunks);
    if chunks == [] {
      IdleExactly(parse, c.buffered);
      assert s == c.buffered;
    } else {
      var before, last := chunks[..|chunks| - 1], chunks[|chunks| - 1];
      var earlier := c.buffered + Concat(before);
      var r := Receives(parse, c, before).buffered;
      ConcatLast(chunks, c.buffered);
      ChunksGoFurther(parse, c, before);
      SuffixAppend(r, earlier, last);
      RestIsSuffix(parse, r + last);
      SuffixTransitive(Drain(parse, r + last).rest, r + last, s);
      if Interrupted(parse, earlier) {
        DrainAppend(parse, earlier, last);
        IdleExactly(parse, r + last);
      } else {
        SameUntilNull(parse, c, chunks);
      }
    }
  }

  /** However a stream is cut into chunks, the connection ends up as if it had come in one, except
      exactly when a null came before the last chunk and something after it could be taken out. */
  lemma {:induction false} ChunkingExactly(parse: Parse, c: Conn, chunks: seq<string>)
    requires Idle(parse, c.buffered)
    ensures Receives(parse, c, chunks) == OnData(parse, c, Concat(chunks)) <==>
              chunks == []
              || !Interrupted(parse, c.buffered + Concat(chunks[..|chunks| - 1]))
              || Idle(parse, Drain(parse, c.buffered + Concat(chunks)).rest)
  {
    hide Drain, Interrupted, Idle;
    if chunks == [] || !Interrupted(parse, c.buffered + Concat(chunks[..|chunks| - 1])) {
      SameUntilNull(parse, c, chunks);
    } else {
      var before, last := chunks[..|chunks| - 1], chunks[|chunks| - 1];
      var earlier := c.buffered + Concat(before);
      var rest := Drain(parse, earlier).rest;
      ConcatLast(chunks, c.buffered);
      DrainAppend(parse, earlier, last);
      if Idle(parse, rest + last) {
        IdleBefore(parse, rest, last);
        ChunkingExactly(parse, c, before);
        TwoChunks(parse, c, Concat(before), last);
      } else {
        var r := Receives(parse, c, before).buffered;
        ChunksGoFurther(parse, c, before);
        RestIsSuffix(parse, earlier);
        IdleExactly(parse, r + last);
        if |r| == |rest| {
          assert r == rest;
        }
        assert |Receives(parse, c, chunks).buffered| < |rest + last|;
      }
    }
  }

  lemma PieceFirst(p: string, rest: string)
    requires NUL !in p
    ensures HasPiece(p + [NUL] + rest) && FirstOf(p + [NUL] + rest) == p && AfterFirst(p + [NUL] + rest) == rest
  {
    var s := p + [NUL] + rest;
    assert s[|p|] == NUL && forall i :: 0 <= i < |p| ==> s[i] == p[i];
    assert Find(s, NUL) == |p|;
  }

  lemma OneChunk(parse: Parse, c: Conn, chunk: string)
    ensures Receives(parse, c, [chunk]) == OnData(parse, c, chunk)
  {
    assert [chunk][..0] == [];
  }

  lemma NoneMore(parse: Parse)
    ensures Drain(parse, "") == Drained([], "", false)
  {
  }

  /** A null makes a stream depend on its chunks: the message after it waits for the next chunk. */
  lemma {:induction false} NullSplitsChunks(parse: Parse, p: string, q: string, m: Message)
    requires NUL !in p && NUL !in q && parse(p) == Null && parse(q) == Good(m)
    ensures Receives(parse, FRESH, [p + [NUL], q + [NUL]]).table.delivered == [m]
    ensures Receives(parse, FRESH, [p + [NUL] + (q + [NUL])]).table.delivered == []
  {
    hide Drain, HasPiece, FirstOf, AfterFirst;
    var a, b := p + [NUL], q + [NUL];
    assert a == p + [NUL] + "" && b == q + [NUL] + "";
    PieceFirst(p, "");
    PieceFirst(q, "");
    PieceFirst(p, b);
    DrainHead(parse, a);
    DrainHead(parse, b);
    DrainHead(parse, a + b);
    NoneMore(parse);
    assert "" + a == a && "" + b == b && "" + (a + b) == a + b;
    OneChunk(parse, FRESH, a);
    OneChunk(parse, FRESH, a + b);
    assert OnData(parse, FRESH, a) == FRESH;
    assert [a, b][..1] == [a];
    assert Drain(parse, b).messages == [m];
    DeliveredAll(FRESH.table, [m]);
  }

  // ----- What is delivered -----

  predicate AllParse(parse: Parse, ps: seq<string>) { forall i :: 0 <= i < |ps| ==> parse(ps[i]).Good? }

  /** The messages among pieces. */
  function Goods(parse: Parse, ps: seq<string>): seq<Message> {
    if ps == [] then []
    else (match parse(ps[0]) case Good(m) => [m] case _ => []) + Goods(parse, ps[1..])
  }

  /** The stream after its first n pieces. */
  function After(s: string, n: nat): string
    requires n <= |Pieces(s).0|
  {
    if n == 0 then s else After(AfterFirst(s), n - 1)
  }

  /** Pieces up to n were taken in order, none of them garbled; it stopped at the end, at a garbled piece
      or just behind a null. */
  ghost predicate ReadUpTo(parse: Parse, s: string, n: nat, ms: seq<Message>, rest: string) {
    var ps := Pieces(s).0;
    && n <= |ps|
    && (forall i :: 0 <= i < n ==> !parse(ps[i]).Garbled?)
    && ms == Goods(parse, ps[..n])
    && rest == After(s, n)
    && (n < |ps| ==> parse(ps[n]).Garbled? || (n > 0 && parse(ps[n - 1]).Null?))
  }

  lemma PiecesHead(s: string)
    ensures !HasPiece(s) ==> Pieces(s) == ([], s)
    ensures HasPiece(s) ==> Pieces(s) == ([FirstOf(s)] + Pieces(AfterFirst(s)).0, Pieces(AfterFirst(s)).1)
  {
  }

  lemma ReadOne(parse: Parse, s: string, n: nat, ms: seq<Message>, rest: string)
    requires HasPiece(s) && !parse(FirstOf(s)).Garbled? && ReadUpTo(parse, AfterFirst(s), n, ms, rest)
    requires parse(FirstOf(s)).Good? || n > 0 || !HasPiece(AfterFirst(s))
    ensures var m := parse(FirstOf(s));
            ReadUpTo(parse, s, n + 1, (if m.Good? then [m.message] else []) + ms, rest)
  {
    hide HasPiece, FirstOf, AfterFirst, Pieces;
    PiecesHead(s);
    PiecesHead(AfterFirst(s));
    var ps, qs := Pieces(s).0, Pieces(AfterFirst(s)).0;
    assert ps[..n + 1] == [FirstOf(s)] + qs[..n];
    assert forall i :: 0 <= i < |qs| ==> ps[i + 1] == qs[i];
  }

  lemma ReadNull(parse: Parse, s: string)
    requires HasPiece(s) && parse(FirstOf(s)).Null?
    ensures ReadUpTo(parse, s, 1, [], AfterFirst(s))
  {
    hide HasPiece, FirstOf, AfterFirst, Pieces;
    PiecesHead(s);
    var ps := Pieces(s).0;
    assert ps[0] == FirstOf(s) && ps[..1] == [FirstOf(s)] && [FirstOf(s)][1..] == [];
    assert Goods(parse, [FirstOf(s)]) == Goods(parse, []);
    assert After(s, 1) == After(AfterFirst(s), 0);
  }

  lemma DrainReads(parse: Parse, s: string) returns (n: nat)
    ensures ReadUpTo(parse, s, n, Drain(parse, s).messages, Drain(parse, s).rest)
    decreases |s|
  {
    DrainHead(parse, s);
    PiecesHead(s);
    hide Drain, Pieces;
    if !HasPiece(s) || parse(FirstOf(s)).Garbled? {
      return 0;
    }
    if parse(FirstOf(s)).Null? {
      ReadNull(parse, s);
      return 1;
    }
    var k := DrainReads(parse, AfterFirst(s));
    ReadOne(parse, s, k, Drain(parse, AfterFirst(s)).messages, Drain(parse, AfterFirst(s)).rest);
    return k + 1;
  }

  lemma PiecesAppend(s: string, t: string, n: nat)
    requires n <= |Pieces(s).0|
    ensures |Pieces(s).0| <= |Pieces(s + t).0| && Pieces(s + t).0[..n] == Pieces(s).0[..n]
    ensures After(s + t, n) == After(s, n) + t
    decreases |s|
  {
    hide HasPiece, FirstOf, AfterFirst, Pieces;
    PiecesHead(s);
    if n > 0 {
      FirstAppend(s, t);
      PiecesHead(s + t);
      Shorter(s);
      PiecesAppend(AfterFirst(s), t, n - 1);
      var ps, qs := Pieces(AfterFirst(s)).0, Pieces(AfterFirst(s) + t).0;
      assert ([FirstOf(s)] + ps)[..n] == [FirstOf(s)] + ps[..n - 1];
      assert ([FirstOf(s)] + qs)[..n] == [FirstOf(s)] + qs[..n - 1];
    } else {
      MorePieces(s, t);
    }
  }

  lemma Shorter(s: string)
    requires HasPiece(s)
    ensures |AfterFirst(s)| < |s|
  {
  }

  lemma MorePieces(s: string, t: string)
    ensures |Pieces(s).0| <= |Pieces(s + t).0|
    decreases |s|
  {
    hide HasPiece, FirstOf, AfterFirst, Pieces;
    PiecesHead(s);
    if HasPiece(s) {
      FirstAppend(s, t);
      PiecesHead(s + t);
      Shorter(s);
      MorePieces(AfterFirst(s), t);
    }
  }

  lemma AfterPieces(s: string, n: nat, m: nat)
    requires n <= |Pieces(s).0|
    ensures Pieces(After(s, n)).0 == Pieces(s).0[n..]
    ensures m <= |Pieces(s).0| - n ==> After(After(s, n), m) == After(s, n + m)
    decreases n
  {
    hide HasPiece, FirstOf, AfterFirst, Pieces;
    if n > 0 {
      PiecesHead(s);
      AfterPieces(AfterFirst(s), n - 1, m);
    }
  }

  lemma GoodsAppend(parse: Parse, a: seq<string>, b: seq<string>)
    ensures Goods(parse, a + b) == Goods(parse, a) + Goods(parse, b)
    decreases |a|
  {
    if a == [] {
      assert a + b == b;
    } else {
      assert (a + b)[1..] == a[1..] + b;
      GoodsAppend(parse, a[1..], b);
    }
  }

  /** Reading on from where it stopped, with more of the stream there. */
  lemma ReadOn(parse: Parse, s: string, t: string, n: nat, k: nat, ms: seq<Message>, more: seq<Message>, b: string,
      rest: string)
    requires ReadUpTo(parse, s, n, ms, b) && ReadUpTo(parse, b + t, k, more, rest)
    ensures ReadUpTo(parse, s + t, n + k, ms + more, rest)
  {
    hide Pieces, Goods, After;
    PiecesAppend(s, t, n);
    AfterPieces(s + t, n, k);
    var ps, qs := Pieces(s + t).0, Pieces(b + t).0;
    assert qs == ps[n..];
    assert ps[..n + k] == ps[..n] + qs[..k];
    GoodsAppend(parse, ps[..n], qs[..k]);
    assert forall i :: n <= i < n + k ==> ps[i] == qs[i - n];
    assert n + k < |ps| ==> ps[n + k] == qs[k];
  }

  lemma ReadNothing(parse: Parse)
    ensures ReadUpTo(parse, "", 0, [], "")
  {
  }

  /** For every stream and chunks: pieces are taken in order, none of them garbled, and their messages
      delivered, nulls left out; reading has stopped at the end of the pieces, at a garbled one, or just
      behind a null. */
  lemma {:induction false} DeliversPieces(parse: Parse, chunks: seq<string>) returns (n: nat)
    ensures var c := Receives(parse, FRESH, chunks);
            ReadUpTo(parse, Concat(chunks), n, c.table.delivered, c.buffered)
  {
    hide Drain, ReadUpTo, DeliverAll;
    if chunks == [] {
      ReadNothing(parse);
      return 0;
    }
    var before, last := chunks[..|chunks| - 1], chunks[|chunks| - 1];
    var k := DeliversPieces(parse, before);
    var c := Receives(parse, FRESH, before);
    var m := DrainReads(parse, c.buffered + last);
    var d := Drain(parse, c.buffered + last);
    DeliveredAll(c.table, d.messages);
    ReadOn(parse, Concat(before), last, k, m, c.table.delivered, d.messages, c.buffered, d.rest);
    return k + m;
  }

  lemma AllParseCons(parse: Parse, p: string, ps: seq<string>)
    ensures AllParse(parse, [p] + ps) <==> parse(p).Good? && AllParse(parse, ps)
  {
    var all := [p] + ps;
    assert all[0] == p && forall i :: 0 <= i < |ps| ==> ps[i] == all[i + 1];
  }

  lemma AllParseNone(parse: Parse)
    ensures AllParse(parse, [])
  {
  }

  lemma TailFree(s: string)
    ensures NUL !in Pieces(s).1
  {
  }

  /** The handler throws exactly when some piece in its buffer is garbled or null; when it does not, just
      the tail behind the last NUL is left. */
  lemma {:induction false} ThrowsExactly(parse: Parse, s: string)
    ensures Drain(parse, s).threw <==> !AllParse(parse, Pieces(s).0)
    ensures !Drain(parse, s).threw ==> Drain(parse, s).rest == Pieces(s).1 && NUL !in Drain(parse, s).rest
    decreases |s|
  {
    hide AllParse, Drain, Pieces, HasPiece, FirstOf, AfterFirst;
    DrainHead(parse, s);
    PiecesHead(s);
    TailFree(s);
    AllParseNone(parse);
    if HasPiece(s) {
      Shorter(s);
      AllParseCons(parse, FirstOf(s), Pieces(AfterFirst(s)).0);
      ThrowsExactly(parse, AfterFirst(s));
    }
  }

  /** Throwing before any null leaves garbled text at the front. */
  lemma LeftStuck(parse: Parse, s: string)
    requires Drain(parse, s).threw && !Interrupted(parse, s)
    ensures Stuck(parse, Drain(parse, s).rest)
    decreases |s|
  {
    if parse(FirstOf(s)).Good? {
      LeftStuck(parse, AfterFirst(s));
    }
  }

  /** Once garbled text stands at the front, every later chunk throws, delivers nothing and leaves it. */
  lemma {:induction false} StuckForGood(parse: Parse, c: Conn, chunk: string, more: string)
    requires Drain(parse, c.buffered + chunk).threw && !Interrupted(parse, c.buffered + chunk)
    ensures var d := OnData(parse, c, chunk);
            && OnData(parse, d, more) == d.(buffered := d.buffered + more)
            && Drain(parse, d.buffered + more).threw && Stuck(parse, d.buffered + more)
  {
    hide Drain, HasPiece, FirstOf, AfterFirst;
    var rest := Drain(parse, c.buffered + chunk).rest;
    LeftStuck(parse, c.buffered + chunk);
    FirstAppend(rest, more);
    DrainHead(parse, rest + more);
  }

  // ----- Calls are settled once -----

  /** A settled call carries its own response, which was delivered: resolved without an error, rejected
      with one. */
  predicate AnswerOk(s: Settlement, delivered: seq<Message>) {
    match s
    case Resolved(id, m) => m.id == Some(id) && !m.error && m in delivered
    case Rejected(id, m) => m.id == Some(id) && m.error && m in delivered
    case Failed(_) => true
  }

  /** Every id given out is either waiting or was settled once, and no other id is either. */
  ghost predicate CallsOk(t: Table) {
    && (forall id ::
          CountOf(t.settled, id) + (if id in t.pending then 1 else 0) == (if 1 <= id <= t.nextId then 1 else 0))
    && (forall i :: 0 <= i < |t.settled| ==> AnswerOk(t.settled[i], t.delivered))
  }

  lemma DeliverKeeps(t: Table, m: Message)
    requires CallsOk(t)
    ensures CallsOk(Deliver(t, m))
  {
    var u := Deliver(t, m);
    if u.settled != t.settled {
      forall id ensures CountOf(u.settled, id) == CountOf(t.settled, id) + (if id == m.id.value then 1 else 0) {
        CountSnoc(t.settled, u.settled[|t.settled|], id);
      }
    }
  }

  lemma DeliverAllKeeps(t: Table, ms: seq<Message>)
    requires CallsOk(t)
    ensures CallsOk(DeliverAll(t, ms))
    decreases |ms|
  {
    if ms != [] {
      DeliverKeeps(t, ms[0]);
      DeliverAllKeeps(Deliver(t, ms[0]), ms[1..]);
    }
  }

  /** The k-th of the messages is the first with this id. */
  predicate FirstAnswer(ms: seq<Message>, id: int, k: int) {
    0 <= k < |ms| && ms[k].id == Some(id) && forall i :: 0 <= i < k ==> ms[i].id != Some(id)
  }

  /** How a response settles its call. */
  function Answer(id: int, m: Message): Settlement { if m.error then Rejected(id, m) else Resolved(id, m) }

  predicate Added(before: seq<Settlement>, after: seq<Settlement>, s: Settlement) {
    exists i :: |before| <= i < |after| && after[i] == s
  }

  lemma DeliverAllGrows(t: Table, ms: seq<Message>)
    ensures t.settled <= DeliverAll(t, ms).settled && DeliverAll(t, ms).pending.Keys <= t.pending.Keys
    decreases |ms|
  {
    if ms != [] {
      DeliverAllGrows(Deliver(t, ms[0]), ms[1..]);
    }
  }

  lemma Unanswered(t: Table, ms: seq<Message>, id: int)
    requires id in t.pending && forall k :: 0 <= k < |ms| ==> ms[k].id != Some(id)
    ensures id in DeliverAll(t, ms).pending
    decreases |ms|
  {
    if ms != [] {
      assert ms[0].id != Some(id);
      Unanswered(Deliver(t, ms[0]), ms[1..], id);
    }
  }

  lemma Answered(t: Table, ms: seq<Message>, id: int, k: int)
    requires id in t.pending && FirstAnswer(ms, id, k)
    ensures id !in DeliverAll(t, ms).pending && Added(t.settled, DeliverAll(t, ms).settled, Answer(id, ms[k]))
    decreases |ms|
  {
    var u := Deliver(t, ms[0]);
    DeliverAllGrows(u, ms[1..]);
    if k == 0 {
      assert u.settled[|t.settled|] == Answer(id, ms[0]);
      assert DeliverAll(t, ms).settled[|t.settled|] == Answer(id, ms[0]);
    } else {
      assert FirstAnswer(ms[1..], id, k - 1);
      Answered(u, ms[1..], id, k - 1);
      var all := DeliverAll(t, ms).settled;
      var i :| |u.settled| <= i < |all| && all[i] == Answer(id, ms[k]);
    }
  }

  /** A waiting call is settled by a chunk exactly when a message with its id comes, and then by the first:
      rejected when that reports an error, and resolved otherwise. */
  lemma {:induction false} AnsweredByFirst(parse: Parse, c: Conn, chunk: string, id: int)
    requires id in c.table.pending
    ensures var ms, d := Drain(parse, c.buffered + chunk).messages, OnData(parse, c, chunk).table;
            && d.delivered == c.table.delivered + ms
            && (id !in d.pending <==> exists k :: FirstAnswer(ms, id, k))
            && (forall k :: FirstAnswer(ms, id, k) ==>
                  Added(c.table.settled, d.settled, if ms[k].error then Rejected(id, ms[k]) else Resolved(id, ms[k])))
  {
    hide Drain;
    var ms := Drain(parse, c.buffered + chunk).messages;
    DeliveredAll(c.table, ms);
    if k :| FirstAnswer(ms, id, k) {
      forall l | FirstAnswer(ms, id, l) ensures l == k {
        assert ms[l].id == Some(id) && ms[k].id == Some(id);
      }
      Answered(c.table, ms, id, k);
    } else {
      NoFirstAnswer(ms, id, |ms|);
      Unanswered(c.table, ms, id);
    }
  }

  lemma NoFirstAnswer(ms: seq<Message>, id: int, n: nat)
    requires n <= |ms| && forall k :: !FirstAnswer(ms, id, k)
    ensures forall k :: 0 <= k < n ==> ms[k].id != Some(id)
  {
    if n > 0 {
      NoFirstAnswer(ms, id, n - 1);
      assert !FirstAnswer(ms, id, n - 1);
    }
  }

  ghost predicate Next(parse: Parse, c: Conn, d: Conn, event: Event) {
    match event
    case Send(method_) => d == Conn(c.buffered, OnSend(c.table, method_))
    case Data(chunk) => d == OnData(parse, c, chunk)
    case FailAll => d.buffered == c.buffered && FailsTo(c.table, d.table)
  }

  /** A run: each state follows from the one before by some event. */
  ghost predicate IsRun(parse: Parse, states: seq<Conn>, events: seq<Event>) {
    && |states| == |events| + 1 && states[0] == FRESH
    && forall i, j :: 0 <= i < |events| && j == i + 1 ==> Next(parse, states[i], states[j], events[i])
  }

  lemma NextKeeps(parse: Parse, c: Conn, d: Conn, event: Event)
    requires CallsOk(c.table) && Next(parse, c, d, event)
    ensures CallsOk(d.table)
  {
    if event.Data? {
      DeliverAllKeeps(c.table, Drain(parse, c.buffered + event.chunk).messages);
    }
  }

  /** Over every run of sends, chunks and failures, a call is settled at most once, by its own response
      or by a failure, and until then it waits. */
  lemma {:induction false} SettledOnce(parse: Parse, states: seq<Conn>, events: seq<Event>)
    requires IsRun(parse, states, events)
    ensures CallsOk(states[|events|].table)
  {
    if events != [] {
      var n := |events| - 1;
      SettledOnce(parse, states[..n + 1], events[..n]);
      assert Next(parse, states[n], states[n + 1], events[n]);
      NextKeeps(parse, states[n], states[n + 1], events[n]);
    }
  }
}
