/** Any number of clients change one key by reading it and writing back under its version, retrying
    on conflict. Reads and writes interleave freely, also with plain overwrites and deletes, over
    either backend. */
module OptimisticUpdate {
  import opened Wrappers
  import opened DocStore

  const ATTEMPTS: int := 5

  /** What reached the store: a client's edit, a plain overwrite, or a delete. */
  datatype Commit<+V> = By(client: int) | Overwrite(value: V) | Erased

  /** Between rounds; between a round's read and its write, with how long the log was at the read; or
      finished. */
  datatype Phase<+V> =
    | Ready(attempt: int)
    | Read(attempt: int, version: int, value: Option<V>, seen: nat)
    | Committed
    | Aborted
    | GaveUp

  /** How a client found the log when it began. */
  datatype Client<+V> = Client(began: nat, phase: Phase<V>)

  datatype World<V> = World(rows: Rows<V>, clients: map<int, Client<V>>, log: seq<Commit<V>>)

  datatype Step<V> =
    | Begin(client: int)
    | Load(client: int)
    | Store(client: int)
    | Fail(client: int)
    | Put(value: V)
    | Delete

  /** A client's edit loads, mutates, normalises and validates; it may refuse. The missing key reads
      as None. */
  type Edit<!V> = (int, Option<V>) -> Option<V>

  datatype Backend = InProcess | Mongo

  /** What a run is about: where the key is stored, what the clients do, and what was there at first. */
  datatype Race<!V> = Race(backend: Backend, key: string, edit: Edit<V>, first: Rows<V>)

  // ----- Versioned writes on either backend -----

  /** MongoDB goes by the version alone, so that version 0 also fits a document without one. */
  function Written<V>(backend: Backend, rows: Rows<V>, id: string, expected: int, val: V): Option<Rows<V>> {
    match backend
    case InProcess => WithPutVersioned(rows, id, expected, val)
    case Mongo => if VersionOf(rows, id) == expected then Some(WithPut(rows, id, val)) else None
  }

  /** That is what the filtered replacement does to the rows that documents stand for. */
  lemma {:induction false} MongoWrites<V>(docs: Docs<V>, id: string, expected: int, val: V)
    ensures var after := MongoPutVersioned(docs, id, expected, val);
            var rows := Written(Mongo, Abstract(docs), id, expected, val);
            after.Some? == rows.Some? && (after.Some? ==> Abstract(after.value) == rows.value)
  {
    var after := MongoPutVersioned(docs, id, expected, val);
    if after.Some? {
      assert Abstract(after.value) == WithPut(Abstract(docs), id, val);
    }
  }

  // ----- One step -----

  function ValueOf<V>(rows: Rows<V>, key: string): Option<V> {
    if key in rows then Some(rows[key].value) else None
  }

  function Do<V>(r: Race<V>, w: World<V>, step: Step<V>): World<V> {
    match step
    case Begin(c) =>
      if c in w.clients then w else w.(clients := w.clients[c := Client(|w.log|, Ready(0))])
    case Load(c) =>
      if c in w.clients && w.clients[c].phase.Ready? then
        Moved(w, c, Read(w.clients[c].phase.attempt, VersionOf(w.rows, r.key), ValueOf(w.rows, r.key), |w.log|))
      else w
    case Store(c) => if Reading(w, c) then DoStore(r, w, c) else w
    case Fail(c) =>
      if c in w.clients && (w.clients[c].phase.Ready? || w.clients[c].phase.Read?) then Moved(w, c, Aborted) else w
    case Put(v) => w.(rows := WithPut(w.rows, r.key, v), log := w.log + [Overwrite(v)])
    case Delete => w.(rows := w.rows - {r.key}, log := w.log + [Erased])
  }

  predicate Reading<V>(w: World<V>, c: int) { c in w.clients && w.clients[c].phase.Read? }

  function DoStore<V>(r: Race<V>, w: World<V>, c: int): World<V>
    requires Reading(w, c)
  {
    var p := w.clients[c].phase;
    match r.edit(c, p.value)
    case None => Moved(w, c, Aborted)
    case Some(v) =>
      match Written(r.backend, w.rows, r.key, p.version, v)
      case Some(rows) => Moved(w.(rows := rows, log := w.log + [By(c)]), c, Committed)
      case None => Moved(w, c, if p.attempt + 1 < ATTEMPTS then Ready(p.attempt + 1) else GaveUp)
  }

  function Moved<V>(w: World<V>, c: int, phase: Phase<V>): World<V>
    requires c in w.clients
  {
    w.(clients := w.clients[c := w.clients[c].(phase := phase)])
  }

  function Run<V>(r: Race<V>, steps: seq<Step<V>>): World<V> {
    if steps == [] then World(r.first, map[], []) else Do(r, Run(r, steps[..|steps| - 1]), steps[|steps| - 1])
  }

  // ----- Reading the log -----

  /** The value that applying the commits one after the other gives. */
  function Fold<V>(r: Race<V>, log: seq<Commit<V>>): Option<V> {
    if log == [] then ValueOf(r.first, r.key)
    else
      match log[|log| - 1]
      case Overwrite(v) => Some(v)
      case Erased => None
      case By(c) => r.edit(c, Fold(r, log[..|log| - 1]))
  }

  /** Every edit in the log was accepted when its turn came. */
  predicate Accepted<V(==)>(r: Race<V>, log: seq<Commit<V>>) {
    log != [] ==> Accepted(r, log[..|log| - 1]) && (log[|log| - 1].Erased? || Fold(r, log) != None)
  }

  function VersionAfter<V>(first: int, log: seq<Commit<V>>): int {
    if log == [] then first
    else if log[|log| - 1].Erased? then 0
    else VersionAfter(first, log[..|log| - 1]) + 1
  }

  predicate PresentAfter<V>(first: bool, log: seq<Commit<V>>) { if log == [] then first else !log[|log| - 1].Erased? }

  predicate ErasedSince<V>(log: seq<Commit<V>>, from: nat) { exists i :: from <= i < |log| && log[i].Erased? }

  /** The commits since the last delete. */
  function SinceErased<V>(log: seq<Commit<V>>): nat {
    if log == [] || log[|log| - 1].Erased? then 0 else SinceErased(log[..|log| - 1]) + 1
  }

  function CountBy<V>(log: seq<Commit<V>>, c: int): nat {
    if log == [] then 0
    else CountBy(log[..|log| - 1], c) + (if log[|log| - 1] == By(c) then 1 else 0)
  }

  /** What reached the store since a point in the log, other than from one client. */
  function ByOthers<V>(log: seq<Commit<V>>, from: nat, c: int): nat
    requires from <= |log|
    decreases |log|
  {
    if from == |log| then 0
    else ByOthers(log[..|log| - 1], from, c) + (if log[|log| - 1] == By(c) then 0 else 1)
  }

  lemma VersionGrows<V>(first: int, log: seq<Commit<V>>, n: nat)
    requires n <= |log| && !ErasedSince(log, n)
    ensures VersionAfter(first, log) == VersionAfter(first, log[..n]) + |log| - n
  {
    if n < |log| {
      var before := log[..|log| - 1];
      assert forall i :: n <= i < |before| ==> before[i] == log[i];
      VersionGrows(first, before, n);
      assert before[..n] == log[..n];
    } else {
      assert log[..n] == log;
    }
  }

  lemma VersionRestarts<V>(first: int, log: seq<Commit<V>>, n: nat)
    requires ErasedSince(log, n)
    ensures VersionAfter(first, log) == SinceErased(log)
  {
    if !log[|log| - 1].Erased? {
      var i :| n <= i < |log| && log[i].Erased?;
      var before := log[..|log| - 1];
      assert before[i] == log[i];
      VersionRestarts(first, before, n);
    }
  }

  lemma VersionSigns<V>(first: int, log: seq<Commit<V>>)
    requires 0 <= first
    ensures 0 <= VersionAfter(first, log)
    ensures log != [] && PresentAfter(false, log) ==> 1 <= VersionAfter(first, log)
  {
  }

  // ----- The invariant -----

  ghost predicate RowOk<V>(r: Race<V>, w: World<V>) {
    && VersionOf(w.rows, r.key) == VersionAfter(VersionOf(r.first, r.key), w.log)
    && (r.key in w.rows <==> PresentAfter(r.key in r.first, w.log))
  }

  /** A reader holds the version as of some point of the log, and the value stored if nothing came
      since; every round it lost was lost to something that did. */
  ghost predicate ClientOk<V>(r: Race<V>, w: World<V>, c: int)
    requires c in w.clients
  {
    var client := w.clients[c];
    && client.began <= |w.log|
    && (match client.phase
        case Ready(attempt) => 0 <= attempt < ATTEMPTS && attempt <= |w.log| - client.began
        case Read(attempt, version, value, seen) =>
          && 0 <= attempt < ATTEMPTS && client.began + attempt <= seen <= |w.log|
          && version == VersionAfter(VersionOf(r.first, r.key), w.log[..seen])
          && (value.Some? <==> PresentAfter(r.key in r.first, w.log[..seen]))
          && (seen == |w.log| ==> value == ValueOf(w.rows, r.key))
        case GaveUp => ATTEMPTS <= |w.log| - client.began
        case _ => true)
    && CountBy(w.log, c) == (if client.phase.Committed? then 1 else 0)
  }

  ghost predicate Inv<V>(r: Race<V>, w: World<V>) {
    && RowOk(r, w)
    && (forall c :: c in w.clients ==> ClientOk(r, w, c))
    && (forall c :: c !in w.clients ==> CountBy(w.log, c) == 0)
  }

  /** The key is missing at first, or present at a positive version; in MongoDB it may also predate
      versions. */
  ghost predicate Fresh<V>(r: Race<V>) {
    r.key in r.first ==> r.first[r.key].version >= if r.backend.Mongo? then 0 else 1
  }

  /** One more entry in the log, not by this client. */
  lemma ClientAfterCommit<V>(r: Race<V>, w: World<V>, v: World<V>, c: int, entry: Commit<V>)
    requires c in w.clients && c in v.clients && v.clients[c] == w.clients[c] && entry != By(c)
    requires ClientOk(r, w, c) && v.log == w.log + [entry]
    ensures ClientOk(r, v, c)
  {
    assert v.log[..|w.log|] == w.log;
    if w.clients[c].phase.Read? {
      var seen := w.clients[c].phase.seen;
      assert v.log[..seen] == w.log[..seen];
    }
  }

  lemma RowAfterCommit<V>(r: Race<V>, w: World<V>, v: World<V>, entry: Commit<V>, val: V)
    requires RowOk(r, w) && v.log == w.log + [entry]
    requires v.rows == if entry.Erased? then w.rows - {r.key} else WithPut(w.rows, r.key, val)
    ensures RowOk(r, v)
  {
    assert v.log[..|w.log|] == w.log;
  }

  lemma ClientUnmoved<V>(r: Race<V>, w: World<V>, v: World<V>, c: int)
    requires c in w.clients && c in v.clients && v.clients[c] == w.clients[c] && v.log == w.log && v.rows == w.rows
    requires ClientOk(r, w, c)
    ensures ClientOk(r, v, c)
  {
  }

  lemma RowUnmoved<V>(r: Race<V>, w: World<V>, v: World<V>)
    requires RowOk(r, w) && v.log == w.log && v.rows == w.rows
    ensures RowOk(r, v)
  {
  }

  /** A round with nothing in between its read and its write is not lost. */
  lemma LostToSomething<V>(r: Race<V>, w: World<V>, c: int, val: V)
    requires Fresh(r) && RowOk(r, w) && Reading(w, c) && ClientOk(r, w, c)
    requires Written(r.backend, w.rows, r.key, w.clients[c].phase.version, val).None?
    ensures w.clients[c].phase.seen < |w.log|
  {
    var p := w.clients[c].phase;
    if p.seen == |w.log| {
      assert w.log[..p.seen] == w.log;
      VersionSigns(VersionOf(r.first, r.key), w.log);
    }
  }

  lemma CommittedOk<V>(r: Race<V>, w: World<V>, v: World<V>, c: int)
    requires Reading(w, c) && ClientOk(r, w, c)
    requires v.log == w.log + [By(c)] && c in v.clients && v.clients[c] == w.clients[c].(phase := Committed)
    ensures ClientOk(r, v, c)
  {
    assert v.log[..|w.log|] == w.log;
  }

  lemma LostRoundOk<V>(r: Race<V>, w: World<V>, v: World<V>, c: int, phase: Phase<V>)
    requires Reading(w, c) && ClientOk(r, w, c) && w.clients[c].phase.seen < |w.log|
    requires v.log == w.log && c in v.clients && v.clients[c] == w.clients[c].(phase := phase)
    requires var next := w.clients[c].phase.attempt + 1;
             phase == if next < ATTEMPTS then Ready(next) else GaveUp
    ensures ClientOk(r, v, c)
  {
  }

  lemma StoreKeeps<V>(r: Race<V>, w: World<V>, c: int)
    requires Fresh(r) && Inv(r, w) && Reading(w, c)
    ensures Inv(r, DoStore(r, w, c))
  {
    hide RowOk, ClientOk, WithPut, ValueOf, Fresh, Current, VersionAfter, PresentAfter;
    var p := w.clients[c].phase;
    var v := DoStore(r, w, c);
    if Commits(r, w, c) {
      var val := r.edit(c, p.value).value;
      RowAfterCommit(r, w, v, By(c), val);
      assert v.log[..|w.log|] == w.log;
      forall d | d in v.clients ensures ClientOk(r, v, d) {
        if d == c {
          CommittedOk(r, w, v, c);
        } else {
          ClientAfterCommit(r, w, v, d, By(c));
        }
      }
    } else {
      RowUnmoved(r, w, v);
      forall d | d in v.clients ensures ClientOk(r, v, d) {
        if d != c {
          ClientUnmoved(r, w, v, d);
        } else if r.edit(c, p.value).None? {
          AbortedOk(r, w, v, c);
        } else {
          LostToSomething(r, w, c, r.edit(c, p.value).value);
          LostRoundOk(r, w, v, c, v.clients[c].phase);
        }
      }
    }
  }

  lemma AbortedOk<V>(r: Race<V>, w: World<V>, v: World<V>, c: int)
    requires Reading(w, c) && ClientOk(r, w, c)
    requires v.log == w.log && c in v.clients && v.clients[c] == w.clients[c].(phase := Aborted)
    ensures ClientOk(r, v, c)
  {
  }

  lemma OverwriteKeeps<V>(r: Race<V>, w: World<V>, v: World<V>, entry: Commit<V>, val: V)
    requires Inv(r, w) && !entry.By? && v.clients == w.clients && v.log == w.log + [entry]
    requires v.rows == if entry.Erased? then w.rows - {r.key} else WithPut(w.rows, r.key, val)
    ensures Inv(r, v)
  {
    hide RowOk, ClientOk, WithPut;
    RowAfterCommit(r, w, v, entry, val);
    assert v.log[..|w.log|] == w.log;
    forall d | d in v.clients ensures ClientOk(r, v, d) {
      ClientAfterCommit(r, w, v, d, entry);
    }
  }

  lemma RowAfterErase<V>(r: Race<V>, w: World<V>, v: World<V>)
    requires RowOk(r, w) && v.log == w.log + [Erased] && v.rows == w.rows - {r.key}
    ensures RowOk(r, v)
  {
    assert v.log[..|w.log|] == w.log;
  }

  lemma DeleteKeeps<V>(r: Race<V>, w: World<V>)
    requires Inv(r, w)
    ensures Inv(r, Do(r, w, Delete))
  {
    hide RowOk, ClientOk, VersionAfter, PresentAfter;
    var v := Do(r, w, Delete);
    RowAfterErase(r, w, v);
    assert v.log[..|w.log|] == w.log;
    forall d | d in v.clients ensures ClientOk(r, v, d) {
      ClientAfterCommit(r, w, v, d, Erased);
    }
  }

  lemma QuietKeeps<V>(r: Race<V>, w: World<V>, step: Step<V>)
    requires Inv(r, w) && (step.Begin? || step.Load? || step.Fail?)
    ensures Inv(r, Do(r, w, step))
  {
    hide VersionAfter, PresentAfter;
    var v := Do(r, w, step);
    assert w.log[..|w.log|] == w.log;
    forall d | d in v.clients ensures ClientOk(r, v, d) {
      if d in w.clients {
        assert ClientOk(r, w, d);
      }
    }
  }

  lemma StepKeeps<V>(r: Race<V>, w: World<V>, step: Step<V>)
    requires Fresh(r) && Inv(r, w)
    ensures Inv(r, Do(r, w, step))
  {
    hide Inv;
    match step {
      case Put(val) => OverwriteKeeps(r, w, Do(r, w, step), Overwrite(val), val);
      case Delete => DeleteKeeps(r, w);
      case Store(c) => if Reading(w, c) { StoreKeeps(r, w, c); }
      case _ => QuietKeeps(r, w, step);
    }
  }

  lemma {:induction false} Always<V>(r: Race<V>, steps: seq<Step<V>>)
    requires Fresh(r)
    ensures Inv(r, Run(r, steps))
  {
    if steps != [] {
      hide Inv, Do;
      Always(r, steps[..|steps| - 1]);
      StepKeeps(r, Run(r, steps[..|steps| - 1]), steps[|steps| - 1]);
    }
  }

  // ----- What a committing write edits -----

  /** The client's next write would go through. */
  predicate Commits<V>(r: Race<V>, w: World<V>, c: int)
    requires Reading(w, c)
  {
    var p := w.clients[c].phase;
    r.edit(c, p.value).Some? && Written(r.backend, w.rows, r.key, p.version, r.edit(c, p.value).value).Some?
  }

  /** Since the client's read, something was stored that it has not seen, or what it saw is gone. */
  predicate Blind<V>(r: Race<V>, w: World<V>, c: int)
    requires Reading(w, c)
  {
    var p := w.clients[c].phase;
    p.seen < |w.log| && (r.key in w.rows || p.value.Some?)
  }

  /** A write that is not blind edits the very value in place. */
  lemma {:induction false} SightedEditsCurrent<V>(r: Race<V>, w: World<V>, c: int)
    requires Inv(r, w) && Reading(w, c) && !Blind(r, w, c)
    ensures w.clients[c].phase.value == ValueOf(w.rows, r.key)
  {
    assert ClientOk(r, w, c);
  }

  /** A blind write goes through exactly when the key was deleted after the read and the version read is
      the number of commits since the last delete: a positive one, or that of a document read without
      a version. */
  lemma {:induction false} BlindExactly<V>(r: Race<V>, steps: seq<Step<V>>, c: int)
    requires Fresh(r) && Reading(Run(r, steps), c)
    ensures var w := Run(r, steps);
            var p := w.clients[c].phase;
            Commits(r, w, c) && Blind(r, w, c) <==>
              && r.edit(c, p.value).Some? && ErasedSince(w.log, p.seen)
              && p.version == SinceErased(w.log) && (p.version > 0 || p.value.Some?)
    ensures var p := Run(r, steps).clients[c].phase;
            p.value.Some? && p.version <= 0 ==> r.backend.Mongo? && r.key in r.first && r.first[r.key].version == 0
  {
    var w := Run(r, steps);
    var p := w.clients[c].phase;
    var first := VersionOf(r.first, r.key);
    Always(r, steps);
    assert ClientOk(r, w, c);
    VersionSigns(first, w.log);
    VersionSigns(first, w.log[..p.seen]);
    if ErasedSince(w.log, p.seen) {
      VersionRestarts(first, w.log, p.seen);
    } else {
      VersionGrows(first, w.log, p.seen);
    }
    hide Run, VersionAfter, SinceErased;
  }

  /** No blind write goes through in the run. */
  ghost predicate Sighted<V>(r: Race<V>, steps: seq<Step<V>>) {
    steps != [] ==>
      var w, step := Run(r, steps[..|steps| - 1]), steps[|steps| - 1];
      Sighted(r, steps[..|steps| - 1])
      && (step.Store? && Reading(w, step.client) ==> !(Commits(r, w, step.client) && Blind(r, w, step.client)))
  }

  predicate NeverDeleted<V>(steps: seq<Step<V>>) { forall i :: 0 <= i < |steps| ==> !steps[i].Delete? }

  lemma NothingErased<V>(r: Race<V>, steps: seq<Step<V>>)
    requires NeverDeleted(steps)
    ensures !ErasedSince(Run(r, steps).log, 0)
  {
    if steps != [] {
      NothingErased(r, steps[..|steps| - 1]);
    }
  }

  /** While the key is never deleted, no write is blind. */
  lemma {:induction false} NeverDeletedIsSighted<V>(r: Race<V>, steps: seq<Step<V>>)
    requires Fresh(r) && NeverDeleted(steps)
    ensures Sighted(r, steps)
  {
    hide Run, Commits, Blind;
    if steps != [] {
      var before, step := steps[..|steps| - 1], steps[|steps| - 1];
      NeverDeletedIsSighted(r, before);
      NothingErased(r, before);
      if step.Store? && Reading(Run(r, before), step.client) {
        BlindExactly(r, before, step.client);
      }
    }
  }

  // ----- Main results -----

  /** No update is lost: as long as no write is blind, and so while the key is never deleted, the stored
      value is the fold of what was committed, in commit order, and each edit was accepted by the value
      before it. */
  lemma {:induction false} NoLostUpdate<V>(r: Race<V>, steps: seq<Step<V>>)
    requires Fresh(r) && Sighted(r, steps)
    ensures var w := Run(r, steps);
            && ValueOf(w.rows, r.key) == Fold(r, w.log)
            && Accepted(r, w.log)
            && VersionOf(w.rows, r.key) == VersionAfter(VersionOf(r.first, r.key), w.log)
  {
    hide Do, ValueOf, Fold, Accepted, Commits, Blind, VersionAfter;
    Always(r, steps);
    if steps == [] {
      FoldNothing(r);
    } else {
      NoLostUpdate(r, steps[..|steps| - 1]);
      Always(r, steps[..|steps| - 1]);
      hide Inv, Run;
      StepFolds(r, Run(r, steps[..|steps| - 1]), steps[|steps| - 1]);
      RunLast(r, steps);
      RowKnown(r, Run(r, steps));
    }
  }

  lemma RunLast<V>(r: Race<V>, steps: seq<Step<V>>)
    requires steps != []
    ensures Run(r, steps) == Do(r, Run(r, steps[..|steps| - 1]), steps[|steps| - 1])
  {
  }

  lemma RowKnown<V>(r: Race<V>, w: World<V>)
    requires Inv(r, w)
    ensures VersionOf(w.rows, r.key) == VersionAfter(VersionOf(r.first, r.key), w.log)
  {
  }

  lemma FoldNothing<V>(r: Race<V>)
    ensures Fold(r, []) == ValueOf(r.first, r.key) && Accepted(r, [])
    ensures Run(r, []).rows == r.first && Run(r, []).log == []
    ensures VersionAfter(VersionOf(r.first, r.key), Run(r, []).log) == VersionOf(r.first, r.key)
  {
  }

  lemma StepFolds<V>(r: Race<V>, w: World<V>, step: Step<V>)
    requires Inv(r, w) && ValueOf(w.rows, r.key) == Fold(r, w.log) && Accepted(r, w.log)
    requires step.Store? && Reading(w, step.client) ==> !(Commits(r, w, step.client) && Blind(r, w, step.client))
    ensures var v := Do(r, w, step); ValueOf(v.rows, r.key) == Fold(r, v.log) && Accepted(r, v.log)
  {
    hide Inv, Blind, Fold, Accepted;
    var v := Do(r, w, step);
    if v.log != w.log {
      FoldLast(r, w.log, v.log[|w.log|]);
      if step.Store? && Commits(r, w, step.client) {
        SightedEditsCurrent(r, w, step.client);
      }
    }
  }

  lemma FoldLast<V>(r: Race<V>, log: seq<Commit<V>>, entry: Commit<V>)
    ensures Fold(r, log + [entry]) ==
              match entry case Overwrite(v) => Some(v) case Erased => None case By(c) => r.edit(c, Fold(r, log))
    ensures Accepted(r, log + [entry]) <==> Accepted(r, log) && (entry.Erased? || Fold(r, log + [entry]) != None)
  {
    assert (log + [entry])[..|log|] == log;
  }

  lemma OthersSince<V>(log: seq<Commit<V>>, from: nat, c: int)
    requires from <= |log|
    ensures ByOthers(log, from, c) + CountBy(log, c) >= |log| - from
    decreases |log|
  {
    if from < |log| {
      OthersSince(log[..|log| - 1], from, c);
    }
  }

  /** A client commits once if it reports success and never otherwise; one that gives up was overtaken
      five times by others. */
  lemma {:induction false} CommitsAtMostOnce<V>(r: Race<V>, steps: seq<Step<V>>, c: int)
    requires Fresh(r)
    ensures var w := Run(r, steps);
            && CountBy(w.log, c) == (if c in w.clients && w.clients[c].phase.Committed? then 1 else 0)
            && (c in w.clients ==> w.clients[c].began <= |w.log|)
            && (c in w.clients && w.clients[c].phase.GaveUp? ==> ByOthers(w.log, w.clients[c].began, c) >= ATTEMPTS)
  {
    hide Do, Run;
    Always(r, steps);
    var w := Run(r, steps);
    if c in w.clients {
      assert ClientOk(r, w, c);
      OthersSince(w.log, w.clients[c].began, c);
    }
  }

  // ----- When a client stops -----

  /** The n-th step is a write of the client's that the version turned away. */
  ghost predicate LosesAt<V>(r: Race<V>, steps: seq<Step<V>>, n: nat, c: int)
    requires n < |steps|
  {
    var w := Run(r, steps[..n]);
    && steps[n] == Store(c) && Reading(w, c)
    && var p := w.clients[c].phase;
       var edited := r.edit(c, p.value);
       edited.Some? && Written(r.backend, w.rows, r.key, p.version, edited.value).None?
  }

  /** The n-th step fails the client, or its edit refuses the value it read. */
  ghost predicate QuitsAt<V>(r: Race<V>, steps: seq<Step<V>>, n: nat, c: int)
    requires n < |steps|
  {
    var w := Run(r, steps[..n]);
    && c in w.clients
    && ((steps[n] == Fail(c) && (w.clients[c].phase.Ready? || w.clients[c].phase.Read?))
        || (steps[n] == Store(c) && Reading(w, c) && r.edit(c, w.clients[c].phase.value) == None))
  }

  ghost predicate Quits<V>(r: Race<V>, steps: seq<Step<V>>, c: int) {
    exists n: nat :: n < |steps| && QuitsAt(r, steps, n, c)
  }

  ghost function RoundsLost<V>(r: Race<V>, steps: seq<Step<V>>, c: int): nat {
    if steps == [] then 0
    else RoundsLost(r, steps[..|steps| - 1], c) + (if LosesAt(r, steps, |steps| - 1, c) then 1 else 0)
  }

  lemma QuitsLast<V>(r: Race<V>, steps: seq<Step<V>>, c: int)
    requires steps != []
    ensures Quits(r, steps, c) <==> Quits(r, steps[..|steps| - 1], c) || QuitsAt(r, steps, |steps| - 1, c)
  {
    hide Run;
    var before := steps[..|steps| - 1];
    forall n: nat | n < |before| ensures QuitsAt(r, before, n, c) == QuitsAt(r, steps, n, c) {
      assert before[..n] == steps[..n] && before[n] == steps[n];
    }
  }

  /** How a client stands after a run: by what it did, not by what was written down about it. */
  ghost predicate FateOk<V>(r: Race<V>, steps: seq<Step<V>>, c: int) {
    var w, lost := Run(r, steps), RoundsLost(r, steps, c);
    if c !in w.clients then lost == 0 && !Quits(r, steps, c)
    else
      && (w.clients[c].phase.Aborted? <==> Quits(r, steps, c))
      && lost <= ATTEMPTS
      && match w.clients[c].phase
         case Ready(attempt) => attempt == lost < ATTEMPTS
         case Read(attempt, _, _, _) => attempt == lost < ATTEMPTS
         case GaveUp => lost == ATTEMPTS
         case _ => lost < ATTEMPTS
  }

  lemma FateStep<V>(r: Race<V>, steps: seq<Step<V>>, c: int)
    requires steps != [] && FateOk(r, steps[..|steps| - 1], c)
    ensures FateOk(r, steps, c)
  {
    hide Run, Quits, VersionOf, ValueOf, Written;
    QuitsLast(r, steps, c);
    RunLast(r, steps);
    var n := |steps| - 1;
    assert steps[..n] == steps[..|steps| - 1];
  }

  /** A client stops without success only when a store call failed, when its edit refused a value it had
      read, or when it lost five rounds; short of that it has committed or is still trying. */
  lemma {:induction false} FateExactly<V>(r: Race<V>, steps: seq<Step<V>>, c: int)
    ensures FateOk(r, steps, c)
  {
    if steps != [] {
      hide FateOk;
      FateExactly(r, steps[..|steps| - 1], c);
      FateStep(r, steps, c);
    }
  }

  /** A round with nobody in between succeeds, and stores the edit of what was there. */
  lemma {:induction false} QuietRoundCommits<V>(r: Race<V>, steps: seq<Step<V>>, c: int)
    requires var w := Run(r, steps);
             c in w.clients && w.clients[c].phase.Ready? && r.edit(c, ValueOf(w.rows, r.key)).Some?
    requires Fresh(r)
    ensures var w := Run(r, steps);
            var v := Do(r, Do(r, w, Load(c)), Store(c));
            && v.clients[c].phase == Committed && v.log == w.log + [By(c)]
            && ValueOf(v.rows, r.key) == r.edit(c, ValueOf(w.rows, r.key))
  {
    var w := Run(r, steps);
    Always(r, steps);
    VersionSigns(VersionOf(r.first, r.key), w.log);
    var u := Do(r, w, Load(c));
    QuietKeeps(r, w, Load(c));
    hide Run, Inv;
    if Written(r.backend, u.rows, r.key, u.clients[c].phase.version, r.edit(c, u.clients[c].phase.value).value).None? {
      KnownReader(r, u, c);
      LostToSomething(r, u, c, r.edit(c, u.clients[c].phase.value).value);
    }
  }

  lemma KnownReader<V>(r: Race<V>, w: World<V>, c: int)
    requires Inv(r, w) && Reading(w, c)
    ensures RowOk(r, w) && ClientOk(r, w, c)
  {
  }

  // ----- Versions and deletes -----

  lemma StepVersion<V>(r: Race<V>, w: World<V>, step: Step<V>)
    ensures VersionOf(Do(r, w, step).rows, r.key) < VersionOf(w.rows, r.key) <==>
              step.Delete? && 0 < VersionOf(w.rows, r.key)
  {
  }

  lemma VersionPositive<V>(r: Race<V>, steps: seq<Step<V>>)
    requires r.key in r.first ==> r.first[r.key].version >= 1
    ensures var w := Run(r, steps); r.key in w.rows ==> w.rows[r.key].version >= 1
  {
    hide Do;
    Always(r, steps);
    VersionSigns(VersionOf(r.first, r.key), Run(r, steps).log);
  }

  /** The n-th step takes the key's version down. */
  ghost predicate FallsAt<V>(r: Race<V>, steps: seq<Step<V>>, n: nat)
    requires 0 < n <= |steps|
  {
    VersionOf(Run(r, steps[..n]).rows, r.key) < VersionOf(Run(r, steps[..n - 1]).rows, r.key)
  }

  /** The n-th step deletes the key while it has a version. */
  ghost predicate DeletesAt<V>(r: Race<V>, steps: seq<Step<V>>, n: nat)
    requires 0 < n <= |steps|
  {
    steps[n - 1].Delete? && 0 < VersionOf(Run(r, steps[..n - 1]).rows, r.key)
  }

  ghost predicate FindsAt<V>(r: Race<V>, steps: seq<Step<V>>, n: nat)
    requires 0 < n <= |steps|
  {
    steps[n - 1].Delete? && r.key in Run(r, steps[..n - 1]).rows
  }

  /** A key's version never falls in a run exactly when it is never deleted while it has one: while it
      is present, unless a document without a version was there first. */
  lemma {:induction false} VersionsRiseExactly<V>(r: Race<V>, steps: seq<Step<V>>)
    ensures (forall n :: 0 < n <= |steps| ==> !FallsAt(r, steps, n)) <==>
              (forall n :: 0 < n <= |steps| ==> !DeletesAt(r, steps, n))
    ensures (r.key in r.first ==> r.first[r.key].version >= 1) ==>
              forall n :: 0 < n <= |steps| ==> DeletesAt(r, steps, n) == FindsAt(r, steps, n)
  {
    forall n | 0 < n <= |steps| ensures FallsAt(r, steps, n) <==> DeletesAt(r, steps, n) {
      assert steps[..n][..n - 1] == steps[..n - 1];
      StepVersion(r, Run(r, steps[..n - 1]), steps[n - 1]);
    }
    if r.key in r.first ==> r.first[r.key].version >= 1 {
      forall n | 0 < n <= |steps| ensures DeletesAt(r, steps, n) == FindsAt(r, steps, n) {
        VersionPositive(r, steps[..n - 1]);
      }
    }
  }

  /** The shortest blind write: read version 1, have the key deleted and written afresh, and write over
      a value never seen. */
  lemma {:induction false} AbaLosesUpdate<V>(backend: Backend, key: string, edit: Edit<V>, first: V, unseen: V)
    requires edit(0, Some(first)).Some?
    ensures var r := Race(backend, key, edit, map[key := Row(1, first)]);
            var steps := [Begin(0), Load(0), Delete, Put(unseen), Store(0)];
            && !Sighted(r, steps)
            && Run(r, steps).rows == map[key := Row(2, edit(0, Some(first)).value)]
  {
    var r := Race(backend, key, edit, map[key := Row(1, first)]);
    var steps := [Begin(0), Load(0), Delete, Put(unseen), Store(0)];
    assert steps[..4][..3] == steps[..3] && steps[..3][..2] == steps[..2] && steps[..2][..1] == steps[..1];
    assert Run(r, steps[..1]) == World(r.first, map[0 := Client(0, Ready(0))], []);
    var reading := Client(0, Read(0, 1, Some(first), 0));
    assert Run(r, steps[..2]) == World(r.first, map[0 := reading], []);
    assert r.first - {key} == map[];
    assert Run(r, steps[..3]) == World(map[], map[0 := reading], [Erased]);
    var w := World(map[key := Row(1, unseen)], map[0 := reading], [Erased, Overwrite(unseen)]);
    assert Run(r, steps[..4]) == w;
    assert Commits(r, w, 0) && Blind(r, w, 0);
    assert WithPut(w.rows, key, edit(0, Some(first)).value) == map[key := Row(2, edit(0, Some(first)).value)];
  }

  // ----- The loop of one client -----

  /** The key as one client sees it: others may commit at any moment it is not looking. The log and
      the values it went through are kept for the record. */
  class SharedKey<V(==)> {
    var rows: Rows<V>
    const backend: Backend
    const key: string
    ghost var log: seq<Commit<V>>
    ghost var values: seq<Option<V>>

    constructor (backend: Backend, key: string)
      ensures this.backend == backend && this.key == key && rows == map[] && log == [] && Counted()
    {
      this.backend, this.key := backend, key;
      rows := map[];
      log := [];
      values := [None];
    }

    ghost predicate Counted()
      reads this
    {
      && VersionOf(rows, key) == |log| && (key in rows <==> log != [])
      && |values| == |log| + 1 && values[|log|] == ValueOf(rows, key)
    }

    /** Whatever other clients commit in the meantime. */
    method Others()
      requires Counted()
      modifies this
      ensures Counted() && old(log) <= log && old(values) <= values
    {
    }

    /** UpdatePortfolio: load, edit, write back under the version read; five rounds at most. A commit
        edits the very value the commit before it left; giving up means five commits of others. */
    method Update(me: int, edit: Edit<V>) returns (phase: Phase<V>)
      requires Counted()
      modifies this
      ensures Counted() && old(log) <= log && old(values) <= values
      ensures phase.Committed? || phase.Aborted? || phase.GaveUp?
      ensures phase.Committed? ==>
                |log| > |old(log)| && log[|log| - 1] == By(me) && values[|log|] == edit(me, values[|log| - 1])
      ensures phase.Aborted? ==> exists i :: |old(log)| <= i <= |log| && edit(me, values[i]) == None
      ensures phase.GaveUp? ==> |log| - |old(log)| >= ATTEMPTS
    {
      for attempt := 0 to ATTEMPTS
        invariant Counted() && old(log) <= log && old(values) <= values
        invariant |log| - |old(log)| >= attempt
      {
        Others();
        var version := VersionOf(rows, key);
        var value := ValueOf(rows, key);
        ghost var seen := |log|;
        Others();
        assert values[seen] == value;
        var edited := edit(me, value);
        if edited.None? {
          return Aborted;
        }
        var written := Written(backend, rows, key, version, edited.value);
        if written.Some? {
          rows := written.value;
          log := log + [By(me)];
          values := values + [edited];
          return Committed;
        }
      }
      return GaveUp;
    }

    /** The document store's plain Put under contention: the same loop, reading only the version. */
    method Put(val: V) returns (phase: Phase<V>)
      requires Counted()
      modifies this
      ensures Counted() && old(log) <= log && old(values) <= values
      ensures phase.Committed? || phase.GaveUp?
      ensures phase.Committed? ==> |log| > |old(log)| && log[|log| - 1] == Overwrite(val) && values[|log|] == Some(val)
      ensures phase.GaveUp? ==> |log| - |old(log)| >= ATTEMPTS
    {
      for attempt := 0 to ATTEMPTS
        invariant Counted() && old(log) <= log && old(values) <= values
        invariant |log| - |old(log)| >= attempt
      {
        Others();
        var version := VersionOf(rows, key);
        Others();
        var written := Written(backend, rows, key, version, val);
        if written.Some? {
          rows := written.value;
          log := log + [Overwrite(val)];
          values := values + [Some(val)];
          return Committed;
        }
      }
      return GaveUp;
    }
  }
}
