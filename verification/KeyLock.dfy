/** One lazily created mutex per key, shared by any number of goroutines. */
module KeyLock {
  /** A caller of Acquire: before it has the key's mutex, waiting on it, or past Lock. */
  datatype Phase = Wants(key: string) | Waits(key: string, mutex: int) | Holds(key: string, mutex: int)

  datatype World = World(mutexes: map<string, int>, owners: map<int, int>, threads: map<int, Phase>)

  const START := World(map[], map[], map[])

  /** LoadOrStore brings a candidate mutex along, kept only for a key that has none. */
  datatype Step =
    | Enter(thread: int, key: string)
    | LoadOrStore(thread: int, candidate: int)
    | Lock(thread: int)
    | Unlock(thread: int)

  function Do(w: World, step: Step): World {
    match step
    case Enter(t, key) => if t in w.threads then w else w.(threads := w.threads[t := Wants(key)])
    case LoadOrStore(t, candidate) =>
      if t !in w.threads || !w.threads[t].Wants? then w
      else
        var key := w.threads[t].key;
        if key in w.mutexes then w.(threads := w.threads[t := Waits(key, w.mutexes[key])])
        else if candidate in w.mutexes.Values then w
        else w.(mutexes := w.mutexes[key := candidate], threads := w.threads[t := Waits(key, candidate)])
    case Lock(t) =>
      if t !in w.threads || !w.threads[t].Waits? || w.threads[t].mutex in w.owners then w
      else w.(owners := w.owners[w.threads[t].mutex := t],
              threads := w.threads[t := Holds(w.threads[t].key, w.threads[t].mutex)])
    case Unlock(t) =>
      if t !in w.threads || !w.threads[t].Holds? then w
      else w.(owners := w.owners - {w.threads[t].mutex}, threads := w.threads - {t})
  }

  function Run(steps: seq<Step>): World {
    if steps == [] then START else Do(Run(steps[..|steps| - 1]), steps[|steps| - 1])
  }

  /** A key keeps its mutex and shares it with no other key; a mutex is owned by the thread that holds it. */
  ghost predicate Inv(w: World) {
    && (forall k, l :: k in w.mutexes && l in w.mutexes && k != l ==> w.mutexes[k] != w.mutexes[l])
    && (forall t :: t in w.threads && !w.threads[t].Wants? ==>
          w.threads[t].key in w.mutexes && w.mutexes[w.threads[t].key] == w.threads[t].mutex)
    && (forall t :: t in w.threads && w.threads[t].Holds? ==>
          w.threads[t].mutex in w.owners && w.owners[w.threads[t].mutex] == t)
    && (forall m :: m in w.owners ==>
          var t := w.owners[m];
          t in w.threads && w.threads[t].Holds? && w.threads[t].mutex == m)
  }

  lemma StepKeeps(w: World, step: Step)
    requires Inv(w)
    ensures Inv(Do(w, step))
  {
    match step {
      case LoadOrStore(t, candidate) =>
        if t in w.threads && w.threads[t].Wants? && w.threads[t].key !in w.mutexes && candidate !in w.mutexes.Values {
          forall k | k in w.mutexes ensures w.mutexes[k] != candidate {
            assert w.mutexes[k] in w.mutexes.Values;
          }
        }
      case _ =>
    }
  }

  lemma Always(steps: seq<Step>)
    ensures Inv(Run(steps))
  {
    if steps != [] {
      Always(steps[..|steps| - 1]);
      StepKeeps(Run(steps[..|steps| - 1]), steps[|steps| - 1]);
    }
  }

  /** In every run, callers of one key are inside one at a time. */
  lemma {:induction false} MutualExclusion(steps: seq<Step>, t: int, u: int)
    requires var w := Run(steps);
             t in w.threads && u in w.threads && w.threads[t].Holds? && w.threads[u].Holds?
                 && w.threads[t].key == w.threads[u].key
    ensures t == u
  {
    Always(steps);
  }

  /** A waiting caller gets in unless someone is inside under its very key: other keys never block it. */
  lemma {:induction false} OnlyOwnKeyBlocks(steps: seq<Step>, t: int)
    requires t in Run(steps).threads && Run(steps).threads[t].Waits?
    ensures var w := Run(steps);
            Do(w, Lock(t)).threads[t].Holds? <==>
              !exists u :: u in w.threads && w.threads[u].Holds? && w.threads[u].key == w.threads[t].key
  {
    Always(steps);
    var w := Run(steps);
    if w.threads[t].mutex in w.owners {
      var u := w.owners[w.threads[t].mutex];
      assert u in w.threads && w.threads[u].Holds? && w.threads[u].key == w.threads[t].key;
    }
  }

  /** A newcomer to a key that no one holds gets in at once, whether the key had a mutex or not. */
  lemma {:induction false} FreeKeyAcquired(steps: seq<Step>, t: int, key: string, candidate: int)
    requires var w := Run(steps);
             && t !in w.threads && candidate !in w.mutexes.Values
             && forall u :: u in w.threads && w.threads[u].Holds? ==> w.threads[u].key != key
    ensures var v := Do(Do(Do(Run(steps), Enter(t, key)), LoadOrStore(t, candidate)), Lock(t));
            t in v.threads && v.threads[t].Holds? && v.threads[t].key == key
  {
    Always(steps);
    var w := Run(steps);
    forall m | m in w.owners ensures m in w.mutexes.Values && (key in w.mutexes ==> m != w.mutexes[key]) {
      var h := w.owners[m];
      assert w.mutexes[w.threads[h].key] in w.mutexes.Values;
    }
  }

  /** When the holder leaves, any caller waiting for the key gets in next. */
  lemma {:induction false} HandsOver(steps: seq<Step>, t: int, u: int)
    requires var w := Run(steps);
             && t in w.threads && w.threads[t].Holds? && u in w.threads && w.threads[u].Waits?
             && w.threads[u].key == w.threads[t].key
    ensures var v := Do(Do(Run(steps), Unlock(t)), Lock(u));
            t !in v.threads && v.threads[u].Holds? && v.threads[u].key == Run(steps).threads[t].key
  {
    Always(steps);
  }
}
