/** Metrics counters: increments and drains by many goroutines. A known name is looked up under the
    read lock and bumped after it is released; a new name and a drain take the write lock, and a
    drain swaps the counters to zero one by one while late bumps go on. */
module Counters {

  /** An increment under way: called, with its counter in hand, or having found none. */
  datatype Inc = Called(name: string) | Found(name: string, counter: int) | Missing(name: string)

  /** The names' counters, who holds the write lock (the names a drain has still to swap), and the
      increments under way; then how many increments took effect and what drains reported, per name. */
  datatype World = World(
    entries: map<string, int>, values: map<int, int>, draining: set<string>, locked: bool,
    threads: map<int, Inc>, completed: map<string, int>, reported: map<string, int>)

  const START := World(map[], map[], {}, false, map[], map[], map[])

  datatype Step =
    | Call(thread: int, name: string)
    | Lookup(thread: int)
    | Add(thread: int)
    | Insert(thread: int, counter: int)
    | BeginDrain
    | Swap(name: string)
    | EndDrain

  function Get(m: map<string, int>, name: string): int { if name in m then m[name] else 0 }
  function Plus(m: map<string, int>, name: string, n: int): map<string, int> { m[name := Get(m, name) + n] }

  /** The count a name has now. */
  function Live(w: World, name: string): int {
    if name in w.entries && w.entries[name] in w.values then w.values[w.entries[name]] else 0
  }

  function Do(w: World, step: Step): World {
    match step
    case Call(t, name) => if t in w.threads then w else w.(threads := w.threads[t := Called(name)])
    case Lookup(t) =>
      if t !in w.threads || !w.threads[t].Called? || w.locked then w
      else
        var name := w.threads[t].name;
        w.(threads := w.threads[t := if name in w.entries then Found(name, w.entries[name]) else Missing(name)])
    case Add(t) =>
      if t !in w.threads || !w.threads[t].Found? || w.threads[t].counter !in w.values then w
      else Bumped(w, t, w.threads[t].counter)
    case Insert(t, counter) =>
      if t !in w.threads || !w.threads[t].Missing? || w.locked then w
      else
        var name := w.threads[t].name;
        if name in w.entries then (if w.entries[name] in w.values then Bumped(w, t, w.entries[name]) else w)
        else if counter in w.values then w
        else Bumped(w.(entries := w.entries[name := counter], values := w.values[counter := 0]), t, counter)
    case BeginDrain => if w.locked then w else w.(locked := true, draining := w.entries.Keys)
    case Swap(name) =>
      if !w.locked || name !in w.draining || name !in w.entries || w.entries[name] !in w.values then w
      else w.(values := w.values[w.entries[name] := 0], draining := w.draining - {name},
              reported := Plus(w.reported, name, w.values[w.entries[name]]))
    case EndDrain => if w.locked && w.draining == {} then w.(locked := false) else w
  }

  function Bumped(w: World, t: int, counter: int): World
    requires t in w.threads && counter in w.values
  {
    w.(values := w.values[counter := w.values[counter] + 1], threads := w.threads - {t},
       completed := Plus(w.completed, w.threads[t].name, 1))
  }

  function Run(steps: seq<Step>): World {
    if steps == [] then START else Do(Run(steps[..|steps| - 1]), steps[|steps| - 1])
  }

  /** Each name keeps its own counter for good, so a counter in hand is always the live one. */
  ghost predicate EntriesOk(w: World) {
    && (forall n :: n in w.entries ==> w.entries[n] in w.values)
    && (forall m, n :: m in w.entries && n in w.entries && m != n ==> w.entries[m] != w.entries[n])
    && (forall t :: t in w.threads && w.threads[t].Found? ==>
          w.threads[t].name in w.entries && w.entries[w.threads[t].name] == w.threads[t].counter)
  }

  ghost predicate Balanced(w: World, name: string) {
    Get(w.completed, name) == Get(w.reported, name) + Live(w, name)
  }

  ghost predicate Inv(w: World) { EntriesOk(w) && forall name :: Balanced(w, name) }

  lemma BumpKeeps(w: World, t: int)
    requires Inv(w) && t in w.threads && w.threads[t].name in w.entries
    ensures Inv(Bumped(w, t, w.entries[w.threads[t].name]))
  {
    var v := Bumped(w, t, w.entries[w.threads[t].name]);
    forall name ensures Balanced(v, name) {
      assert Balanced(w, name);
    }
  }

  lemma EntryKeeps(w: World, name: string, counter: int)
    requires Inv(w) && name !in w.entries && counter !in w.values
    ensures Inv(w.(entries := w.entries[name := counter], values := w.values[counter := 0]))
  {
    var v := w.(entries := w.entries[name := counter], values := w.values[counter := 0]);
    forall n ensures Balanced(v, n) {
      assert Balanced(w, n);
    }
  }

  lemma StepKeeps(w: World, step: Step)
    requires Inv(w)
    ensures Inv(Do(w, step))
  {
    var v := Do(w, step);
    match step {
      case Add(t) =>
        if v != w {
          BumpKeeps(w, t);
        }
      case Insert(t, counter) =>
        if v != w {
          var name := w.threads[t].name;
          if name in w.entries {
            BumpKeeps(w, t);
          } else {
            EntryKeeps(w, name, counter);
            BumpKeeps(w.(entries := w.entries[name := counter], values := w.values[counter := 0]), t);
          }
        }
      case _ =>
        forall name ensures Balanced(v, name) {
          assert Balanced(w, name);
        }
    }
  }

  /** No increment is lost or counted twice: in every interleaving, the increments of a name that took
      effect are those reported by drains, finished or not, and those in its live counter. */
  lemma {:induction false} NothingLost(steps: seq<Step>, name: string)
    ensures var w := Run(steps);
            Get(w.completed, name) == Get(w.reported, name) + Live(w, name)
  {
    Always(steps);
    assert Balanced(Run(steps), name);
  }

  lemma Always(steps: seq<Step>)
    ensures Inv(Run(steps))
  {
    if steps == [] {
      forall name ensures Balanced(START, name) {
      }
    } else {
      Always(steps[..|steps| - 1]);
      StepKeeps(Run(steps[..|steps| - 1]), steps[|steps| - 1]);
    }
  }

  /** An increment with nobody in between counts one for its name and none for any other, whether the name
      is known or new. */
  lemma {:induction false} IncrementCounts(steps: seq<Step>, t: int, name: string, counter: int)
    requires var w := Run(steps); !w.locked && t !in w.threads && counter !in w.values
    ensures var w := Run(steps);
            var v := Do(Do(Do(w, Call(t, name)), Lookup(t)), if name in w.entries then Add(t) else Insert(t, counter));
            && t !in v.threads && v.reported == w.reported
            && (forall other :: Live(v, other) == Live(w, other) + (if other == name then 1 else 0))
  {
    Always(steps);
    var w := Run(steps);
    assert Inv(w);
  }

  /** A drain moves a name's live count to the report, and leaves the name at zero. */
  lemma {:induction false} SwapReports(steps: seq<Step>, name: string)
    requires var w := Run(steps); w.locked && name in w.draining && name in w.entries
    ensures var w := Run(steps);
            var v := Do(w, Swap(name));
            && Get(v.reported, name) == Get(w.reported, name) + Live(w, name)
            && Live(v, name) == 0 && name in v.entries && name !in v.draining
            && (forall other :: other != name ==>
                  Live(v, other) == Live(w, other) && Get(v.reported, other) == Get(w.reported, other))
  {
    Always(steps);
    var w := Run(steps);
    assert Inv(w);
  }

  // ----- The drain loop -----

  class Counter {
    var n: int

    method Swap(to: int) returns (was: int)
      modifies this
      ensures was == old(n) && n == to
    {
      was, n := n, to;
    }
  }

  /** drain: every counter is reset and stays in the map; the non-zero counts are handed over. */
  method Drain(m: map<string, Counter>) returns (out: map<string, int>)
    requires forall j, k :: j in m && k in m && j != k ==> m[j] != m[k]
    modifies m.Values
    ensures forall k :: k in m ==> m[k].n == 0
    ensures forall k :: k in out <==> k in m && old(m[k].n) != 0
    ensures forall k :: k in out ==> out[k] == old(m[k].n)
  {
    out := map[];
    var rest := m.Keys;
    while rest != {}
      invariant rest <= m.Keys
      invariant forall k :: k in m ==> m[k].n == if k in rest then old(m[k].n) else 0
      invariant forall k :: k in out <==> k in m && k !in rest && old(m[k].n) != 0
      invariant forall k :: k in out ==> out[k] == old(m[k].n)
      decreases rest
    {
      var k :| k in rest;
      rest := rest - {k};
      var n := m[k].Swap(0);
      if n != 0 {
        out := out[k := n];
      }
    }
  }
}
