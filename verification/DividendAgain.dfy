/** A second credit: what one press does on its own, and a run in which an event is paid twice. */
module DividendAgain {
  import opened Wrappers
  import opened GoInt
  import opened Decimal
  import DividendMath
  import Ledger
  import opened StockPortfolio
  import opened DividendHistory
  import opened DividendFetch
  import opened PendingDividend
  import opened DividendProtocol
  import opened DividendOnce

  datatype Button = Button(user: int, symbol: string, id: string, chat: int, message: int, press: int)

  /** The account a press would save, if everything is in order. */
  function PaidAccount(a: Account, b: Button, now: int): Option<Account> {
    if !Valid(a) || !Has(a.dividends, b.symbol, b.id) || CallbackData(b.user, b.id).None? then None
    else
      match Judge(a, ActionFor(a, b, now), now)
      case Apply(paid) => if Valid(paid) then Some(paid) else None
      case _ => None
  }

  function ActionFor(a: Account, b: Button, now: int): Action {
    Action(b.user, b.chat, b.message, b.id, b.symbol, Held(a, b.symbol).openedAt, now, now + PENDING_TTL)
  }

  function DataOf(b: Button): string {
    match CallbackData(b.user, b.id)
    case Some(data) => data
    case None => ""
  }

  /** A suggestion, its button pressed at once, and every write succeeding. */
  function PressSteps(b: Button, openedAt: int): seq<Step> {
    [Suggest(b.user, b.symbol, b.id, openedAt, b.chat, b.message),
     Resolve(b.press, DataOf(b), b.user, b.chat, b.message),
     Acquire(b.press), Reload(b.press), Load(b.press), Decide(b.press, true), Finish(b.press, true)]
  }

  ghost function From(w: World, steps: seq<Step>): World
    decreases |steps|
  {
    if steps == [] then w else From(Do(w, steps[0]), steps[1..])
  }

  lemma RunFrom(steps: seq<Step>, more: seq<Step>)
    ensures Run(steps + more) == From(Run(steps), more)
    decreases |more|
  {
    hide Do;
    if more == [] {
      assert steps + more == steps;
    } else {
      var next := steps + [more[0]];
      assert next[..|steps|] == steps;
      assert steps + more == next + more[1..];
      RunFrom(next, more[1..]);
    }
  }

  lemma FromCons(w: World, step: Step, rest: seq<Step>)
    ensures From(w, [step] + rest) == From(Do(w, step), rest)
  {
    assert ([step] + rest)[1..] == rest;
  }

  lemma FromSeven(w: World, a: Step, b: Step, c: Step, d: Step, e: Step, f: Step, g: Step)
    ensures From(w, [a, b, c, d, e, f, g]) == Do(Do(Do(Do(Do(Do(Do(w, a), b), c), d), e), f), g)
  {
    hide Do;
    var w1 := Do(w, a);
    var w2 := Do(w1, b);
    var w3 := Do(w2, c);
    var w4 := Do(w3, d);
    var w5 := Do(w4, e);
    var w6 := Do(w5, f);
    FromCons(w6, g, []);
    assert [g] == [g] + [] && [f, g] == [f] + [g] && [e, f, g] == [e] + [f, g];
    FromCons(w5, f, [g]);
    FromCons(w4, e, [f, g]);
    assert [d, e, f, g] == [d] + [e, f, g] && [c, d, e, f, g] == [c] + [d, e, f, g];
    FromCons(w3, d, [e, f, g]);
    FromCons(w2, c, [d, e, f, g]);
    assert [b, c, d, e, f, g] == [b] + [c, d, e, f, g];
    FromCons(w1, b, [c, d, e, f, g]);
    assert [a, b, c, d, e, f, g] == [a] + [b, c, d, e, f, g];
    FromCons(w, a, [b, c, d, e, f, g]);
  }

  // ----- One press on its own -----

  lemma SuggestStep(w: World, b: Button)
    requires b.user !in w.locks && PaidAccount(AccountOf(w, b.user), b, w.now).Some?
    ensures var a := AccountOf(w, b.user);
            var action := ActionFor(a, b, w.now);
            Do(w, Suggest(b.user, b.symbol, b.id, action.openedAt, b.chat, b.message)) ==
              w.(pending := w.pending[PendingKey(b.user, b.id) := action], suggested := w.suggested + {action})
  {
    hide Valid, CallbackData, PendingKey, Suggested;
  }

  lemma ResolveStep(w: World, b: Button, action: Action)
    requires 0 < b.user <= MAX_INT64 && b.message != 0 && b.press !in w.presses && CallbackData(b.user, b.id).Some?
    requires PendingKey(b.user, b.id) in w.pending && w.pending[PendingKey(b.user, b.id)] == action
    requires action.owner == b.user && action.chat == b.chat && action.message == b.message && action.expiresAt > w.now
    ensures Do(w, Resolve(b.press, DataOf(b), b.user, b.chat, b.message)) ==
              w.(presses := w.presses[b.press := Press(PendingKey(b.user, b.id), b.user, Resolved)])
  {
    CallbackRoundTrip(b.user, b.id);
    hide CallbackData, ParseCallback, PendingKey;
  }

  function CreditOf(a: Account, action: Action, now: int): Credit
    requires Has(a.dividends, action.symbol, action.eventId)
  {
    Credit(now, action, Held(a, action.symbol), a.dividends[action.symbol][action.eventId])
  }

  lemma DecideStep(w: World, p: int, action: Action, a: Account, paid: Account)
    requires At(w, p) == Some(Loaded(action, a)) && Judge(a, action, w.now) == Apply(paid) && Valid(paid)
    requires Has(a.dividends, action.symbol, action.eventId)
    ensures Do(w, Decide(p, true)) ==
              w.(accounts := w.accounts[action.owner := paid], credits := w.credits + [CreditOf(a, action, w.now)],
                 presses := w.presses[p := w.presses[p].(phase := Saved)])
  {
    hide Judge, Valid, Held;
  }

  /** From a resolved press to the end, with the account unchanged in between. */
  lemma ConsumeSteps(w: World, p: int, key: string, user: int, action: Action, paid: Account)
    requires p in w.presses && w.presses[p] == Press(key, user, Resolved) && user !in w.locks
    requires key in w.pending && w.pending[key] == action && action.owner == user
    requires Valid(AccountOf(w, user)) && Judge(AccountOf(w, user), action, w.now) == Apply(paid) && Valid(paid)
    requires Has(AccountOf(w, user).dividends, action.symbol, action.eventId)
    ensures Do(Do(Do(Do(Do(w, Acquire(p)), Reload(p)), Load(p)), Decide(p, true)), Finish(p, true)) ==
              w.(presses := w.presses - {p}, pending := w.pending - {key}, accounts := w.accounts[user := paid],
                 credits := w.credits + [CreditOf(AccountOf(w, user), action, w.now)])
  {
    hide Valid, Judge, Do, Has, CreditOf;
    var a := AccountOf(w, user);
    var locked := w.(locks := w.locks[user := p]);
    AcquireStep(w, p);
    var w1 := locked.(presses := w.presses[p := Press(key, user, Locked)]);
    ReloadStep(w1, p);
    var w2 := locked.(presses := w.presses[p := Press(key, user, Reloaded(action))]);
    assert w1.presses[p := Press(key, user, Reloaded(action))] == w2.presses;
    LoadStep(w2, p, action);
    var w3 := locked.(presses := w.presses[p := Press(key, user, Loaded(action, a))]);
    assert w2.presses[p := Press(key, user, Loaded(action, a))] == w3.presses;
    DecideStep(w3, p, action, a, paid);
    var w4 := locked.(accounts := w.accounts[user := paid], credits := w.credits + [CreditOf(a, action, w.now)],
                      presses := w.presses[p := Press(key, user, Saved)]);
    assert w3.presses[p := Press(key, user, Saved)] == w4.presses;
    FinishStep(w4, p);
    assert w4.locks - {user} == w.locks && w4.presses - {p} == w.presses - {p};
  }

  /** A press on its own pays whatever can be paid, once. */
  lemma {:induction false} PressPays(w: World, b: Button)
    requires 0 < b.user <= MAX_INT64 && b.message != 0 && b.press !in w.presses && b.user !in w.locks
    requires PaidAccount(AccountOf(w, b.user), b, w.now).Some?
    ensures var a := AccountOf(w, b.user);
            var v := From(w, PressSteps(b, Held(a, b.symbol).openedAt));
            && v.now == w.now && v.locks == w.locks && v.presses == w.presses
            && v.accounts == w.accounts[b.user := PaidAccount(a, b, w.now).value]
            && Paid(v.credits) == Paid(w.credits) + multiset{Slot(b.user, b.symbol, b.id)}
  {
    hide Do, From, Judge, Valid, CallbackData, PendingKey, Held;
    var a := AccountOf(w, b.user);
    var action := ActionFor(a, b, w.now);
    var key := PendingKey(b.user, b.id);
    SuggestStep(w, b);
    var w1 := w.(pending := w.pending[key := action], suggested := w.suggested + {action});
    ResolveStep(w1, b, action);
    var w2 := w1.(presses := w1.presses[b.press := Press(key, b.user, Resolved)]);
    ConsumeSteps(w2, b.press, key, b.user, action, PaidAccount(a, b, w.now).value);
    var steps := PressSteps(b, action.openedAt);
    FromSeven(w, steps[0], steps[1], steps[2], steps[3], steps[4], steps[5], steps[6]);
    assert steps == [steps[0], steps[1], steps[2], steps[3], steps[4], steps[5], steps[6]];
    var v := From(w, steps);
    assert v.presses == w.presses;
    assert v.credits[..|w.credits|] == w.credits;
  }

  // ----- The second credit -----

  function SlotOfButton(b: Button): Slot { Slot(b.user, b.symbol, b.id) }

  /** Without a sync, a slot is never claimed more than before. */
  lemma FromKeeps(w: World, steps: seq<Step>, s: Slot)
    requires Inv(w) && forall i :: 0 <= i < |steps| ==> !steps[i].Sync?
    ensures Claims(From(w, steps), s) <= Claims(w, s)
    decreases |steps|
  {
    hide Do, Inv, KeepsSlot, Claims;
    if steps != [] {
      StepKeeps(w, steps[0]);
      OtherSlot(w, steps[0], s);
      KeptClaims(w, Do(w, steps[0]), s);
      FromKeeps(Do(w, steps[0]), steps[1..], s);
    }
  }

  lemma KeptClaims(w: World, v: World, s: Slot)
    requires KeepsSlot(w, v, s)
    ensures Claims(v, s) <= Claims(w, s)
  {
  }

  lemma SyncFrame(w: World, step: Step)
    requires Syncs(w, step)
    ensures var v := Do(w, step);
            v.now == w.now && v.locks == w.locks && v.presses == w.presses && v.credits == w.credits
  {
    hide Valid, Synced, Asked;
  }

  /** Take any run that has paid an event once, then a sync, then a press at once that would pay the
      event if it were open: the event is paid again exactly when the sync took it in although its
      history does not keep it. */
  lemma {:induction false} PaidAgainExactly(steps: seq<Step>, results: seq<FetchResult>, b: Button)
    requires var w, sync, s := Run(steps), Sync(b.user, results), SlotOfButton(b);
             && Syncs(w, sync) && Paid(w.credits)[s] == 1 && Claims(w, s) == 1
             && 0 < b.user <= MAX_INT64 && b.message != 0 && b.press !in w.presses
             && var v := Do(w, sync);
                Open(v, s) ==> PaidAccount(AccountOf(v, b.user), b, v.now).Some?
    ensures var w, s := Run(steps), SlotOfButton(b);
            var v := Run(steps + [Sync(b.user, results)]);
            var all := steps + [Sync(b.user, results)] + PressSteps(b, Held(AccountOf(v, b.user), b.symbol).openedAt);
            Paid(Run(all).credits)[s] == 2 <==> !Survives(w, s) && Offered(results, w.now, b.symbol, b.id)
  {
    hide Do, Inv, Survives, Offered, PaidAccount, Syncs, Reopens, Open, From, PressSteps, Held;
    PressIsNoSync(b);
    var w, sync, s := Run(steps), Sync(b.user, results), SlotOfButton(b);
    var v := Do(w, sync);
    assert (steps + [sync])[..|steps|] == steps;
    assert Run(steps + [sync]) == v;
    var press := PressSteps(b, Held(AccountOf(v, b.user), b.symbol).openedAt);
    RunFrom(steps + [sync], press);
    Always(steps);
    Always(steps + [sync]);
    StepSlot(w, sync, s);
    SyncFrame(w, sync);
    ReopensMeans(w, sync, s);
    if Reopens(w, sync, s) {
      PressPays(v, b);
    } else {
      FromKeeps(v, press, s);
    }
  }

  lemma PressIsNoSync(b: Button)
    ensures forall at, i :: 0 <= i < |PressSteps(b, at)| ==> !PressSteps(b, at)[i].Sync?
  {
  }

  lemma ReopensMeans(w: World, step: Step, s: Slot)
    requires Syncs(w, step) && s.user == step.user
    ensures Reopens(w, step, s) <==> !Survives(w, s) && Offered(step.results, w.now, s.symbol, s.id)
    ensures step.user !in w.locks
  {
    hide Survives, Offered, Asked, Valid, Synced;
  }

  // ----- A run that pays twice -----

  function Published(recordDate: int): DividendRecord {
    DividendRecord(Cash, 80 * DAY, 0, recordDate, 0, 1000, 0, 0, "", "", false)
  }

  const ONE_BUTTON: Button := Button(1, "AAA", "e", 7, 8, 0)
  const OPENING: seq<Step> :=
    [Trade(1, Ledger.TopUp(1000.0)), Trade(1, Ledger.Buy("AAA", 10, 100.0, 0)), Tick(80 * DAY)]

  function Refresh(now: int, recordDate: int): Step {
    Sync(1, [Fetched(RecentJob("AAA", now), [Event("AAA", "e", Published(recordDate))])])
  }

  function Opened(vnd: real, base: real, h: History): Account {
    Account(vnd, map["AAA" := Position(10, base, 1)], h, 1000.0)
  }

  function Remembering(r: DividendRecord): History { map["AAA" := map["e" := r]] }

  lemma ValidOpened(vnd: real, base: real, r: DividendRecord)
    requires 0.0 <= vnd && 0.0 <= base && ValidRecord(r)
    ensures Valid(Opened(vnd, base, map[])) && Valid(Opened(vnd, base, Remembering(r)))
  {
  }

  lemma OneData()
    ensures CallbackData(1, "e").Some?
  {
    assert |Itoa(1)| <= 20 by { ItoaLength(1); }
    assert IsProviderId("e");
  }

  lemma CashAmount(a: Account, now: int)
    requires "AAA" in a.assets && a.assets["AAA"].quantity == 10 && 0.0 <= a.assets["AAA"].base <= 1000.0
    requires 0.0 <= a.vnd <= 1000000.0 && now > 0
    ensures Suggested(a, "AAA", Published(DAY), 10, now) == Suggested(a, "AAA", Published(2 * DAY), 10, now)
         == Some(a.(vnd := a.vnd + 10000.0, assets := a.assets["AAA" := a.assets["AAA"].(base := 0.0)]))
  {
    assert DividendMath.CashDividendTotal(10, 1000) == Success(10000);
    assert DividendMath.CheckedVNDBalance(a.vnd, 10000) == Success(a.vnd + 10000.0);
    assert CashApplied(a, "AAA", 10000, a.vnd + 10000.0, now) ==
      Success(a.(vnd := a.vnd + 10000.0, assets := a.assets["AAA" := a.assets["AAA"].(base := 0.0)]));
  }

  /** The press turns the open event into cash. */
  lemma CashPaid(vnd: real, base: real, recordDate: int, now: int)
    requires 0.0 <= vnd <= 1000000.0 && 0.0 <= base <= 1000.0 && recordDate in {DAY, 2 * DAY}
        && now in {80 * DAY, 91 * DAY}
    ensures PaidAccount(Opened(vnd, base, Remembering(Published(recordDate))), ONE_BUTTON, now) ==
              Some(Opened(vnd + 10000.0, 0.0, Remembering(Published(recordDate).(processed := true))))
  {
    var r := Published(recordDate);
    var a, paid := Opened(vnd, base, Remembering(r)), Opened(vnd + 10000.0, 0.0, Remembering(r.(processed := true)));
    OneData();
    ValidOpened(vnd, base, r);
    ValidOpened(vnd + 10000.0, 0.0, r.(processed := true));
    CashAmount(a, now);
    assert Due(r, now) && OpenedByRecordDate(Held(a, "AAA"), r);
    hide Valid, CallbackData, Suggested, Due, OpenedByRecordDate;
    assert a.assets["AAA" := Position(10, 0.0, 1)] == paid.assets;
    assert EventsOf(a.dividends, "AAA") == map["e" := r];
    assert map["e" := r]["e" := r.(processed := true)] == map["e" := r.(processed := true)];
    assert WithRecord(a.dividends, "AAA", "e", r.(processed := true)) == paid.dividends;
    assert Judge(a, ActionFor(a, ONE_BUTTON, now), now) == Apply(paid);
  }

  /** A sync with one recent publication: what it does to a history that keeps nothing. */
  lemma RefreshStep(w: World, vnd: real, base: real, h: History, recordDate: int)
    requires 1 !in w.locks && AccountOf(w, 1) == Opened(vnd, base, h) && 0.0 <= vnd && 0.0 <= base
    requires Valid(Opened(vnd, base, h)) && Pruned(h, w.now) == map[]
    requires (w.now == 80 * DAY && recordDate == DAY) || (w.now == 91 * DAY && recordDate == 2 * DAY)
    ensures var v := Do(w, Refresh(w.now, recordDate));
            && Syncs(w, Refresh(w.now, recordDate))
            && v.now == w.now && v.locks == w.locks && v.presses == w.presses && v.credits == w.credits
            && AccountOf(v, 1) == Opened(vnd, base, Remembering(Published(recordDate)))
  {
    var e := Event("AAA", "e", Published(recordDate));
    var job := RecentJob("AAA", w.now);
    var results := [Fetched(job, [e])];
    MergedOne(job, e, w.now);
    ValidOpened(vnd, base, Published(recordDate));
    hide Pruned, MergedAll, Valid;
    assert Issued(Opened(vnd, base, h), w.now, job);
    assert Asked(AccountOf(w, 1), w.now, results);
    assert Synced(AccountOf(w, 1), results, w.now) == Opened(vnd, base, Remembering(Published(recordDate)));
  }

  lemma MergedOne(job: FetchJob, e: Event, now: int)
    requires job.Includes(e) && !Expired(e.record, now) && !e.record.processed
    ensures MergedAll(map[], [Fetched(job, [e])], now) == map[e.symbol := map[e.id := e.record]]
  {
    var results := [Fetched(job, [e])];
    assert results[..0] == [] && [e][..0] == [];
    assert Merged(map[], job, [], now) == map[];
    assert Upserted(map[], e) == map[e.symbol := map[e.id := e.record]];
    assert Merged(map[], job, [e], now) == Upserted(map[], e);
    assert MergedAll(map[], [], now) == map[];
  }

  lemma OpeningRuns()
    ensures var w := Run(OPENING);
            && w.now == 80 * DAY && w.locks == map[] && w.presses == map[] && w.credits == []
            && AccountOf(w, 1) == Opened(900.0, 100.0, map[])
  {
    var top, buy := Trade(1, Ledger.TopUp(1000.0)), Trade(1, Ledger.Buy("AAA", 10, 100.0, 0));
    RunFrom([], OPENING);
    RunNothing();
    assert [] + OPENING == OPENING;
    var w1 := START.(accounts := map[1 := Account(1000.0, map[], map[], 1000.0)]);
    var w2 := START.(accounts := map[1 := Opened(900.0, 100.0, map[])]);
    hide Do, Opened, Run, From;
    TopUpRuns(w1);
    BuyRuns(w1);
    assert w1.accounts[1 := Opened(900.0, 100.0, map[])] == w2.accounts;
    TickRuns(w2, 80 * DAY);
    FromThree(START, top, buy, Tick(80 * DAY));
  }

  lemma FromThree(w: World, a: Step, b: Step, c: Step)
    ensures From(w, [a, b, c]) == Do(Do(Do(w, a), b), c)
  {
    hide Do;
    var w1 := Do(w, a);
    var w2 := Do(w1, b);
    FromCons(w, a, [b, c]);
    assert [a] + [b, c] == [a, b, c] && [b] + [c] == [b, c] && [c] + [] == [c];
    FromCons(w1, b, [c]);
    FromCons(w2, c, []);
  }

  lemma RunNothing()
    ensures Run([]) == START && forall w :: From(w, []) == w
  {
  }

  lemma TopUpRuns(w: World)
    requires w == START.(accounts := map[1 := Account(1000.0, map[], map[], 1000.0)])
    ensures Do(START, Trade(1, Ledger.TopUp(1000.0))) == w
  {
    assert START.accounts[1 := Account(1000.0, map[], map[], 1000.0)] == w.accounts;
  }

  lemma BuyRuns(w: World)
    requires w.now == 1 && 1 !in w.locks && AccountOf(w, 1) == Account(1000.0, map[], map[], 1000.0)
    ensures Do(w, Trade(1, Ledger.Buy("AAA", 10, 100.0, 0)))
        == w.(accounts := w.accounts[1 := Opened(900.0, 100.0, map[])])
  {
    var a := AccountOf(w, 1);
    assert a.assets["AAA" := Position(10, 100.0, 1)] == map["AAA" := Position(10, 100.0, 1)];
    assert Ledger.Attempt(a, Ledger.Buy("AAA", 10, 100.0, 1)) == Some(Opened(900.0, 100.0, map[]));
  }

  lemma RunThen(steps: seq<Step>, step: Step)
    ensures Run(steps + [step]) == Do(Run(steps), step)
  {
    assert (steps + [step])[..|steps|] == steps;
  }

  /** A refresh, then the button: the event is paid. */
  lemma RefreshAndPress(steps: seq<Step>, vnd: real, base: real, h: History, recordDate: int)
    requires var w := Run(steps);
             && w.locks == map[] && w.presses == map[] && AccountOf(w, 1) == Opened(vnd, base, h)
             && Valid(Opened(vnd, base, h)) && Pruned(h, w.now) == map[]
             && ((w.now == 80 * DAY && recordDate == DAY) || (w.now == 91 * DAY && recordDate == 2 * DAY))
    requires 0.0 <= vnd <= 1000000.0 && 0.0 <= base <= 1000.0
    ensures var w := Run(steps);
            var v := Run(steps + [Refresh(w.now, recordDate)] + PressSteps(ONE_BUTTON, 1));
            && v.now == w.now && v.locks == map[] && v.presses == map[]
            && AccountOf(v, 1) == Opened(vnd + 10000.0, 0.0, Remembering(Published(recordDate).(processed := true)))
            && Paid(v.credits) == Paid(w.credits) + multiset{SlotOfButton(ONE_BUTTON)}
  {
    hide Do, Pruned, Valid, From, PressSteps, PaidAccount, Opened, Refresh, Syncs;
    var w := Run(steps);
    var step := Refresh(w.now, recordDate);
    RefreshStep(w, vnd, base, h, recordDate);
    RunThen(steps, step);
    var u := Do(w, step);
    CashPaid(vnd, base, recordDate, w.now);
    PressPays(u, ONE_BUTTON);
    OpenedAtOne(vnd, base, Remembering(Published(recordDate)));
    RunFrom(steps + [step], PressSteps(ONE_BUTTON, 1));
  }

  lemma OpenedAtOne(vnd: real, base: real, h: History)
    ensures Held(Opened(vnd, base, h), "AAA").openedAt == 1
  {
  }

  lemma PrunedAway(now: int)
    ensures Pruned(map[], now) == map[]
    ensures now == 91 * DAY ==> Pruned(Remembering(Published(DAY).(processed := true)), now) == map[]
  {
  }

  /** Ten shares, one cash dividend, paid twice: a day after its retention ends the provider corrects
      the Record date by a day, its publication still within the window. */
  lemma {:induction false} SecondCredit()
    ensures var steps := OPENING + [Refresh(80 * DAY, DAY)] + PressSteps(ONE_BUTTON, 1)
                           + [Tick(91 * DAY)] + [Refresh(91 * DAY, 2 * DAY)] + PressSteps(ONE_BUTTON, 1);
            Paid(Run(steps).credits)[SlotOfButton(ONE_BUTTON)] == 2
  {
    var r := Published(DAY).(processed := true);
    PrunedAway(80 * DAY);
    PrunedAway(91 * DAY);
    ValidOpened(900.0, 100.0, Published(DAY));
    ValidOpened(10900.0, 0.0, r);
    OpeningRuns();
    hide Do, Pruned, Valid, Opened, Remembering, Published, PressSteps, Refresh;
    RefreshAndPress(OPENING, 900.0, 100.0, map[], DAY);
    var first := OPENING + [Refresh(80 * DAY, DAY)] + PressSteps(ONE_BUTTON, 1);
    RunThen(first, Tick(91 * DAY));
    TickRuns(Run(first), 91 * DAY);
    RefreshAndPress(first + [Tick(91 * DAY)], 10900.0, 0.0, Remembering(r), 2 * DAY);
  }

  lemma TickRuns(w: World, now: int)
    requires w.now <= now
    ensures Do(w, Tick(now)) == w.(now := now)
  {
  }
}
