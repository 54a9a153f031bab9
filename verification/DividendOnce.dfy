/** When a dividend can be credited again: exactly when a sync takes in an event that the history has
    let go of, or is about to. */
module DividendOnce {
  import opened StockPortfolio
  import opened DividendHistory
  import opened DividendFetch
  import opened PendingDividend
  import Ledger
  import opened DividendProtocol

  // ----- What a sync takes in -----

  ghost predicate OfferedBy(job: FetchJob, events: seq<Event>, now: int, symbol: string, id: string) {
    exists j :: 0 <= j < |events| && events[j].symbol == symbol && events[j].id == id
      && job.Includes(events[j]) && !Expired(events[j].record, now)
  }

  /** Some query brought the event, in its range and not expired. */
  ghost predicate Offered(results: seq<FetchResult>, now: int, symbol: string, id: string) {
    exists i :: 0 <= i < |results| && results[i].Fetched?
        && OfferedBy(results[i].job, results[i].events, now, symbol, id)
  }

  lemma OfferedByLast(job: FetchJob, events: seq<Event>, now: int, symbol: string, id: string)
    requires events != []
    ensures var last := events[|events| - 1];
            OfferedBy(job, events, now, symbol, id) <==>
              OfferedBy(job, events[..|events| - 1], now, symbol, id)
              || (last.symbol == symbol && last.id == id && job.Includes(last) && !Expired(last.record, now))
  {
    var before := events[..|events| - 1];
    if OfferedBy(job, before, now, symbol, id) {
      var j :| 0 <= j < |before| && before[j].symbol == symbol && before[j].id == id
        && job.Includes(before[j]) && !Expired(before[j].record, now);
      assert events[j] == before[j];
    }
  }

  lemma OfferedLast(results: seq<FetchResult>, now: int, symbol: string, id: string)
    requires results != []
    ensures var last := results[|results| - 1];
            Offered(results, now, symbol, id) <==>
              Offered(results[..|results| - 1], now, symbol, id)
              || (last.Fetched? && OfferedBy(last.job, last.events, now, symbol, id))
  {
    hide OfferedBy;
    var before := results[..|results| - 1];
    if Offered(before, now, symbol, id) {
      var i :| 0 <= i < |before| && before[i].Fetched? && OfferedBy(before[i].job, before[i].events, now, symbol, id);
      assert results[i] == before[i];
    }
  }

  /** A merged history has the events it had and those offered; the new ones are not applied. */
  ghost predicate Grown(h: History, k: History, offered: bool, symbol: string, id: string) {
    && (Has(k, symbol, id) <==> Has(h, symbol, id) || offered)
    && (Has(k, symbol, id) && !Has(h, symbol, id) ==> !k[symbol][id].processed)
  }

  lemma MergedGrows(h: History, job: FetchJob, events: seq<Event>, now: int, symbol: string, id: string)
    ensures Grown(h, Merged(h, job, events, now), OfferedBy(job, events, now, symbol, id), symbol, id)
  {
    hide OfferedBy, Expired;
    if events != [] {
      MergedGrows(h, job, events[..|events| - 1], now, symbol, id);
      OfferedByLast(job, events, now, symbol, id);
    } else {
      NoneOfferedBy(job, now, symbol, id);
    }
  }

  lemma NoneOfferedBy(job: FetchJob, now: int, symbol: string, id: string)
    ensures !OfferedBy(job, [], now, symbol, id)
  {
  }

  lemma NoneOffered(now: int, symbol: string, id: string)
    ensures !Offered([], now, symbol, id)
  {
  }

  lemma MergedAllGrows(h: History, results: seq<FetchResult>, now: int, symbol: string, id: string)
    ensures Grown(h, MergedAll(h, results, now), Offered(results, now, symbol, id), symbol, id)
  {
    hide OfferedBy, Merged, Offered;
    NoneOffered(now, symbol, id);
    if results != [] {
      var before, r := results[..|results| - 1], results[|results| - 1];
      MergedAllGrows(h, before, now, symbol, id);
      OfferedLast(results, now, symbol, id);
      var k := MergedAll(h, before, now);
      if r.Fetched? {
        MergedGrows(k, r.job, r.events, now, symbol, id);
        if Has(k, symbol, id) {
          MergedKeeps(k, r.job, r.events, now, symbol, id);
        }
      }
    }
  }

  // ----- When a sync reopens a slot -----

  /** Whether the slot's event outlives the pruning at the start of a sync. */
  ghost predicate Survives(w: World, s: Slot) {
    Remembers(w, s) && !Expired(AccountOf(w, s.user).dividends[s.symbol][s.id], w.now)
  }

  /** A sync that goes through. */
  ghost predicate Syncs(w: World, step: Step) {
    && step.Sync? && step.user !in w.locks
    && var a := AccountOf(w, step.user);
       Asked(a, w.now, step.results) && Valid(a) && Valid(Synced(a, step.results, w.now))
  }

  /** A sync that brings in an event its history does not keep. */
  ghost predicate Reopens(w: World, step: Step, s: Slot) {
    Syncs(w, step) && s.user == step.user && !Survives(w, s) && Offered(step.results, w.now, s.symbol, s.id)
  }

  /** Unless its event survives the pruning, a slot is open after a sync exactly when it was offered. */
  lemma {:induction false} ReopensExactly(w: World, user: int, results: seq<FetchResult>, s: Slot)
    requires s.user == user && !Survives(w, s) && Syncs(w, Sync(user, results))
    ensures var v := Do(w, Sync(user, results));
            && (Open(v, s) <==> Offered(results, w.now, s.symbol, s.id))
            && v.inserted[s] == w.inserted[s] + (if Open(v, s) then 1 else 0)
            && v.credits == w.credits
  {
    var a := AccountOf(w, user);
    var pruned := Pruned(a.dividends, w.now);
    PrunedKeeps(a.dividends, w.now, s.symbol, s.id);
    MergedAllGrows(pruned, results, w.now, s.symbol, s.id);
    hide Pruned, MergedAll, Valid, Offered, Asked, Expired;
  }

  lemma SurvivorKeeps(w: World, user: int, results: seq<FetchResult>, s: Slot)
    requires Syncs(w, Sync(user, results)) && (s.user != user || Survives(w, s))
    ensures var v := Do(w, Sync(user, results));
            Open(v, s) == Open(w, s) && v.inserted[s] == w.inserted[s] && v.credits == w.credits
  {
    var a := AccountOf(w, user);
    var pruned := Pruned(a.dividends, w.now);
    if s.user == user {
      PrunedKeeps(a.dividends, w.now, s.symbol, s.id);
      MergedAllKeeps(pruned, results, w.now, s.symbol, s.id);
    }
    hide Pruned, MergedAll, Valid, Offered, Asked, Expired;
  }

  // ----- What the other steps do to a slot -----

  ghost predicate KeepsSlot(w: World, v: World, s: Slot) {
    && v.inserted == w.inserted && v.ended == w.ended && w.now <= v.now
    && (Remembers(w, s) <==> Remembers(v, s)) && Claims(v, s) <= Claims(w, s)
  }

  lemma TradeSlot(w: World, user: int, entry: Ledger.Entry, s: Slot)
    ensures KeepsSlot(w, DoTrade(w, user, entry), s)
  {
    AttemptKeepsHistory(AccountOf(w, user), Stamped(entry, w.now));
    hide Ledger.Attempt, Valid, Stamped;
  }

  lemma DecideSlot(w: World, press: int, writes: bool, s: Slot)
    requires press in w.presses && PressOk(w, w.presses[press]) && w.presses[press].phase.Loaded?
    ensures KeepsSlot(w, DoDecide(w, press, writes), s)
  {
    var v := DoDecide(w, press, writes);
    hide Judge, Valid, PendingKey, Claims;
    if v.accounts == w.accounts && v.credits == w.credits {
      SameAccounts(w, v, s);
    } else {
      CreditSlot(w, press, s);
    }
  }

  /** Paying what was open closes it. */
  lemma CreditSlot(w: World, press: int, s: Slot)
    requires press in w.presses && PressOk(w, w.presses[press]) && w.presses[press].phase.Loaded?
    requires Judge(w.presses[press].phase.account, w.presses[press].phase.action, w.now).Apply?
    requires Valid(Judge(w.presses[press].phase.account, w.presses[press].phase.action, w.now).account)
    ensures KeepsSlot(w, DoDecide(w, press, true), s)
  {
    hide Judge, Valid, PendingKey;
    var p := w.presses[press];
    JudgeChecks(p.phase.account, p.phase.action, w.now);
    assert DoDecide(w, press, true).credits[..|w.credits|] == w.credits;
  }

  lemma ResolveSlot(w: World, press: int, data: string, from: int, chat: int, message: int, s: Slot)
    ensures KeepsSlot(w, DoResolve(w, press, data, from, chat, message), s)
  {
    hide ParseCallback, PendingKey;
  }

  lemma SuggestSlot(w: World, user: int, symbol: string, id: string, openedAt: int, chat: int, message: int, s: Slot)
    ensures KeepsSlot(w, DoSuggest(w, user, symbol, id, openedAt, chat, message), s)
  {
    hide CallbackData, PendingKey, Valid;
  }

  lemma SameAccounts(w: World, v: World, s: Slot)
    requires v.accounts == w.accounts && v.inserted == w.inserted && v.ended == w.ended && w.now <= v.now
    requires v.credits == w.credits
    ensures KeepsSlot(w, v, s)
  {
  }

  lemma PressHolds(w: World, press: int)
    requires Inv(w)
    ensures press in w.presses ==> PressOk(w, w.presses[press])
  {
  }

  /** Only a sync puts events into a history or takes them out; a credit closes what it is paid for. */
  lemma OtherSlot(w: World, step: Step, s: Slot)
    requires Inv(w) && (step.Sync? ==> !Syncs(w, step))
    ensures KeepsSlot(w, Do(w, step), s)
  {
    hide Inv, DoTrade, DoDecide, DoSuggest, DoResolve, Synced, Valid, PressOk, PendingKey, KeepsSlot, AccountOf;
    SameAccounts(w, w, s);
    match step {
      case Trade(user, entry) => TradeSlot(w, user, entry, s);
      case Suggest(user, symbol, id, openedAt, chat, message) =>
        SuggestSlot(w, user, symbol, id, openedAt, chat, message, s);
      case Resolve(press, data, from, chat, message) => ResolveSlot(w, press, data, from, chat, message, s);
      case Decide(press, writes) =>
        PressHolds(w, press);
        if At(w, press).Some? && w.presses[press].phase.Loaded? {
          DecideSlot(w, press, writes, s);
        }
      case _ =>
        SameAccounts(w, Do(w, step), s);
    }
  }

  lemma StepSlot(w: World, step: Step, s: Slot)
    requires Inv(w)
    ensures var v := Do(w, step);
            && v.inserted[s] == w.inserted[s] + (if Reopens(w, step, s) then 1 else 0)
            && (if Reopens(w, step, s) then Open(v, s) && v.credits == w.credits else Claims(v, s) <= Claims(w, s))
  {
    if Syncs(w, step) {
      hide Do, Inv, Survives, Offered, Asked, Valid, Synced, Remembers;
      if s.user == step.user && !Survives(w, s) {
        ReopensExactly(w, step.user, step.results, s);
      } else {
        SurvivorKeeps(w, step.user, step.results, s);
      }
    } else {
      hide Do, Inv, Survives, Offered;
      OtherSlot(w, step, s);
    }
  }

  // ----- Main results -----

  /** No sync of the run takes in again what had been in the history before. */
  ghost predicate EntersOnce(steps: seq<Step>, s: Slot) {
    steps != [] ==>
      var before, w := steps[..|steps| - 1], Run(steps[..|steps| - 1]);
      EntersOnce(before, s) && !(w.inserted[s] > 0 && Reopens(w, steps[|steps| - 1], s))
  }

  lemma {:induction false} InsertedOnce(steps: seq<Step>, s: Slot)
    ensures Run(steps).inserted[s] <= 1 <==> EntersOnce(steps, s)
  {
    hide Do, Inv, Reopens;
    if steps != [] {
      var before := steps[..|steps| - 1];
      InsertedOnce(before, s);
      Always(before);
      StepSlot(Run(before), steps[|steps| - 1], s);
    }
  }

  /** No sync of the run takes in again what had been paid: checkable before each merge. */
  ghost predicate PaidStaysOut(steps: seq<Step>, s: Slot) {
    steps != [] ==>
      var before, w := steps[..|steps| - 1], Run(steps[..|steps| - 1]);
      PaidStaysOut(before, s) && !(Paid(w.credits)[s] > 0 && Reopens(w, steps[|steps| - 1], s))
  }

  ghost predicate ClaimedOnce(steps: seq<Step>, s: Slot) {
    forall n :: 0 <= n <= |steps| ==> Claims(Run(steps[..n]), s) <= 1
  }

  lemma ClaimedOnceLast(steps: seq<Step>, s: Slot)
    requires steps != []
    ensures ClaimedOnce(steps, s) <==> ClaimedOnce(steps[..|steps| - 1], s) && Claims(Run(steps), s) <= 1
  {
    hide Run, Claims;
    var before := steps[..|steps| - 1];
    assert steps[..|steps|] == steps;
    if ClaimedOnce(steps, s) {
      forall n | 0 <= n <= |before| ensures Claims(Run(before[..n]), s) <= 1 {
        assert before[..n] == steps[..n];
      }
    }
    if ClaimedOnce(before, s) && Claims(Run(steps), s) <= 1 {
      forall n | 0 <= n <= |steps| ensures Claims(Run(steps[..n]), s) <= 1 {
        if n < |steps| {
          assert before[..n] == steps[..n];
        }
      }
    }
  }

  /** No event is paid and open, or paid twice, at any point of a run exactly when no sync took in what
      had been paid; then it is credited at most once. */
  lemma {:induction false} AtMostOneCredit(steps: seq<Step>, s: Slot)
    ensures PaidStaysOut(steps, s) <==> ClaimedOnce(steps, s)
    ensures PaidStaysOut(steps, s) ==> Paid(Run(steps).credits)[s] <= 1
  {
    hide Do, Inv, Reopens, ClaimedOnce, Open;
    if steps == [] {
      NothingClaimed(s);
    } else {
      var before := steps[..|steps| - 1];
      AtMostOneCredit(before, s);
      ClaimedOnceLast(steps, s);
      Always(before);
      StepSlot(Run(before), steps[|steps| - 1], s);
      ClaimedLast(before, s);
    }
  }

  lemma ClaimedLast(steps: seq<Step>, s: Slot)
    ensures ClaimedOnce(steps, s) ==> Claims(Run(steps), s) <= 1
  {
    assert steps[..|steps|] == steps;
  }

  lemma NothingClaimed(s: Slot)
    ensures ClaimedOnce([], s) && Claims(START, s) == 0
  {
  }

  /** What had been paid comes back only as a publication of the last thirty days for a ticker held. */
  lemma {:induction false} PaidComesBackRecent(w: World, step: Step, s: Slot)
    requires Claims(w, s) <= 1 && Paid(w.credits)[s] > 0 && Reopens(w, step, s)
    ensures exists i, j :: BroughtBack(w, step, s, i, j)
  {
    hide Valid, Synced, Expired;
    var i :| 0 <= i < |step.results| && step.results[i].Fetched?
      && OfferedBy(step.results[i].job, step.results[i].events, w.now, s.symbol, s.id);
    var r := step.results[i];
    var j :| 0 <= j < |r.events| && r.events[j].symbol == s.symbol && r.events[j].id == s.id
      && r.job.Includes(r.events[j]) && !Expired(r.events[j].record, w.now);
    AppliedOnlyIfRecent(AccountOf(w, s.user), w.now, r.job, r.events[j]);
    assert BroughtBack(w, step, s, i, j);
  }

  ghost predicate BroughtBack(w: World, step: Step, s: Slot, i: int, j: int) {
    && step.Sync? && 0 <= i < |step.results| && step.results[i].Fetched? && 0 <= j < |step.results[i].events|
    && var e := step.results[i].events[j];
       && e.symbol == s.symbol && e.id == s.id && !Expired(e.record, w.now)
       && step.results[i].job.recent && w.now - WINDOW <= e.record.publishedAt <= w.now
       && DividendFetch.Holds(AccountOf(w, s.user), s.symbol)
  }

  // ----- A provider whose dates do not move later -----

  /** The history has let go of the event, or is about to. */
  ghost predicate RetentionOver(w: World, s: Slot) {
    if Remembers(w, s) then !Survives(w, s) else s in w.ended
  }

  ghost function LastAnchor(w: World, s: Slot): int
    requires RetentionOver(w, s)
  {
    if Remembers(w, s) then RetentionAnchor(AccountOf(w, s.user).dividends[s.symbol][s.id]) else w.ended[s]
  }

  /** The provider never moves the dates of an event later once its retention is over. */
  ghost predicate HonestStep(w: World, step: Step) {
    step.Sync? ==>
      forall i, j :: 0 <= i < |step.results| && step.results[i].Fetched? && 0 <= j < |step.results[i].events| ==>
        var e := step.results[i].events[j];
        var s := Slot(step.user, e.symbol, e.id);
        RetentionOver(w, s) ==> 0 < RetentionAnchor(e.record) <= LastAnchor(w, s)
  }

  ghost predicate Honest(steps: seq<Step>) {
    steps != [] ==>
      Honest(steps[..|steps| - 1]) && HonestStep(Run(steps[..|steps| - 1]), steps[|steps| - 1])
  }

  /** What entered is remembered or was let go, and what was let go stays expired and out. */
  ghost predicate LetGoOk(w: World, s: Slot) {
    && (w.inserted[s] > 0 ==> Remembers(w, s) || s in w.ended)
    && (s in w.ended ==> ExpiredAnchor(w.ended[s], w.now) && !Remembers(w, s))
  }

  lemma NotOffered(w: World, step: Step, s: Slot)
    requires step.Sync? && HonestStep(w, step) && s.user == step.user
    requires RetentionOver(w, s) && ExpiredAnchor(LastAnchor(w, s), w.now)
    ensures !Offered(step.results, w.now, s.symbol, s.id)
  {
    hide RetentionOver, LastAnchor, RetentionAnchor;
  }

  lemma HonestNeverReopens(w: World, step: Step, s: Slot)
    requires HonestStep(w, step) && LetGoOk(w, s) && (w.inserted[s] > 0 || s in w.ended)
    ensures !Reopens(w, step, s)
  {
    hide HonestStep, Offered, Asked, Valid, Synced, ExpiredAnchor, RetentionAnchor;
    if Reopens(w, step, s) {
      if Remembers(w, s) {
        ExpiredByAnchor(AccountOf(w, s.user).dividends[s.symbol][s.id], w.now);
      }
      NotOffered(w, step, s);
    }
  }

  lemma ExpiredByAnchor(r: DividendRecord, now: int)
    ensures Expired(r, now) <==> ExpiredAnchor(RetentionAnchor(r), now)
  {
  }

  lemma StaysExpired(anchor: int, now: int, later: int)
    requires ExpiredAnchor(anchor, now) && now <= later
    ensures ExpiredAnchor(anchor, later)
  {
  }

  lemma EndedAfterSync(w: World, step: Step, s: Slot)
    requires Syncs(w, step) && s.user == step.user
    ensures var v := Do(w, step);
            && v.now == w.now
            && (if Remembers(w, s) && !Survives(w, s) then
                  s in v.ended && v.ended[s] == RetentionAnchor(AccountOf(w, s.user).dividends[s.symbol][s.id])
                else (s in v.ended <==> s in w.ended) && (s in w.ended ==> v.ended[s] == w.ended[s]))
            && (Remembers(v, s) <==> Survives(w, s) || Reopens(w, step, s))
  {
    var a := AccountOf(w, step.user);
    PrunedKeeps(a.dividends, w.now, s.symbol, s.id);
    MergedAllGrows(Pruned(a.dividends, w.now), step.results, w.now, s.symbol, s.id);
    if Survives(w, s) {
      MergedAllKeeps(Pruned(a.dividends, w.now), step.results, w.now, s.symbol, s.id);
    }
    hide Pruned, MergedAll, Valid, Offered, Asked, Expired;
  }

  lemma SyncElsewhere(w: World, step: Step, s: Slot)
    requires Syncs(w, step) && s.user != step.user
    ensures var v := Do(w, step);
            && v.inserted[s] == w.inserted[s] && Remembers(v, s) == Remembers(w, s) && v.now == w.now
            && (s in v.ended <==> s in w.ended) && (s in w.ended ==> v.ended[s] == w.ended[s])
  {
    hide Pruned, MergedAll, Valid, Asked;
  }

  lemma LetGoKeeps(w: World, step: Step, s: Slot)
    requires Inv(w) && HonestStep(w, step) && LetGoOk(w, s)
    ensures LetGoOk(Do(w, step), s)
  {
    StepSlot(w, step, s);
    if Syncs(w, step) {
      hide Do, Inv, HonestStep, Syncs, Remembers, ExpiredAnchor, RetentionAnchor, Expired, Reopens;
      if s.user != step.user {
        SyncElsewhere(w, step, s);
      } else {
        EndedAfterSync(w, step, s);
        if Remembers(w, s) && !Survives(w, s) {
          ExpiredOnLeaving(w, s);
        }
        if w.inserted[s] > 0 || s in w.ended {
          HonestNeverReopens(w, step, s);
        } else if Remembers(w, s) && !Survives(w, s) {
          HonestNeverReopensHeld(w, step, s);
        }
      }
    } else {
      OtherSlot(w, step, s);
      hide Do, Inv, HonestStep, Remembers, ExpiredAnchor;
      if s in w.ended {
        StaysExpired(w.ended[s], w.now, Do(w, step).now);
      }
    }
  }

  lemma ExpiredOnLeaving(w: World, s: Slot)
    requires Remembers(w, s) && !Survives(w, s)
    ensures ExpiredAnchor(RetentionAnchor(AccountOf(w, s.user).dividends[s.symbol][s.id]), w.now)
  {
  }

  lemma HonestNeverReopensHeld(w: World, step: Step, s: Slot)
    requires HonestStep(w, step) && Remembers(w, s) && !Survives(w, s)
    ensures !Reopens(w, step, s)
  {
    hide HonestStep, Offered, Asked, Valid, Synced, ExpiredAnchor, RetentionAnchor;
    if Reopens(w, step, s) {
      ExpiredByAnchor(AccountOf(w, s.user).dividends[s.symbol][s.id], w.now);
      NotOffered(w, step, s);
    }
  }

  lemma StartLetGo(s: Slot)
    ensures LetGoOk(START, s)
  {
  }

  /** Under a provider that never moves an ended event's dates later, events enter once, so what was
      paid stays out. */
  lemma {:induction false} HonestIsEnough(steps: seq<Step>, s: Slot)
    requires Honest(steps)
    ensures LetGoOk(Run(steps), s) && EntersOnce(steps, s) && PaidStaysOut(steps, s)
  {
    hide Do, Inv, HonestStep, LetGoOk, Reopens;
    if steps == [] {
      StartLetGo(s);
    } else {
      var before, step := steps[..|steps| - 1], steps[|steps| - 1];
      HonestIsEnough(before, s);
      Always(before);
      SlotHolds(Run(before), s);
      LetGoKeeps(Run(before), step, s);
      if Run(before).inserted[s] > 0 {
        HonestNeverReopens(Run(before), step, s);
      }
    }
  }
}
