/** The steps of the dividend protocol in plain figures: who is admitted, when a credit is due, and what
    account it leaves. Days begin at midnight in Saigon. */
module DividendCredit {
  import opened GoInt
  import opened Wrappers
  import opened DividendMath
  import opened StockPortfolio
  import opened DividendHistory
  import opened DividendFetch
  import opened PendingDividend
  import opened DividendProtocol
  import opened DividendOnce
  import Ledger

  // ----- Days -----

  /** An event expires at the midnight that begins the ninetieth day after its Record date, or after its
      publication while it has none; it falls due at the midnight that begins its Record date. */
  lemma {:induction false} DueAndExpiredFrom(r: DividendRecord, now: int)
    ensures Due(r, now) <==> r.recordDate > 0 && DayStart(r.recordDate) <= now
    ensures Expired(r, now) <==>
              if r.recordDate != 0 then r.recordDate > 0 && DayStart(r.recordDate) + 90 * DAY <= now
              else r.publishedAt > 0 && DayStart(r.publishedAt) + 90 * DAY <= now
  {
    DayStartOrder(r.recordDate, now);
    DayStartOrder(r.publishedAt, now);
  }

  lemma DayStartOrder(ms: int, now: int)
    ensures SaigonDay(ms) <= SaigonDay(now) <==> DayStart(ms) <= now
    ensures SaigonDay(ms) + 90 <= SaigonDay(now) <==> DayStart(ms) + 90 * DAY <= now
  {
  }

  lemma OpenedExactly(p: Position, r: DividendRecord)
    requires 0 <= p.openedAt
    ensures OpenedByRecordDate(p, r) <==>
              r.recordDate > 0 && (p.openedAt == 0 || p.openedAt < DayStart(r.recordDate) + DAY)
  {
  }

  // ----- What a record pays -----

  /** The account b is a with the record paid on the holding: cash per share, less of the basis; or new
      shares, as many whole times as owned goes into held times new. */
  ghost predicate Pays(a: Account, b: Account, symbol: string, r: DividendRecord) {
    && symbol in a.assets
    && var p := a.assets[symbol];
       match r.kind
       case Cash =>
         var total := p.quantity * r.vndPerShare;
         && total <= MAX_EXACT && a.vnd + total as real <= MAX_EXACT as real
         && b == a.(vnd := a.vnd + total as real, assets := a.assets[symbol :=
              Position(p.quantity, if p.base > total as real then p.base - total as real else 0.0, p.openedAt)])
       case Shares =>
         symbol in b.assets
         && var n := b.assets[symbol].quantity - p.quantity;
            && 1 <= n && p.quantity + n <= MAX_INT64
            && n * r.ownedShares <= p.quantity * r.newShares < (n + 1) * r.ownedShares
            && b == a.(assets := a.assets[symbol := Position(p.quantity + n, p.base, p.openedAt)])
       case OtherKind => false
  }

  lemma SuggestedExactly(a: Account, b: Account, symbol: string, r: DividendRecord, now: int)
    requires symbol in a.assets && ValidPosition(a.assets[symbol]) && ValidRecord(r) && 0 < now
    ensures Suggested(a, symbol, r, a.assets[symbol].quantity, now) == Some(b) <==> Pays(a, b, symbol, r)
  {
    var p := a.assets[symbol];
    hide PayCash, PayShares;
    match r.kind {
      case Cash =>
        CashPaidExactly(a, symbol, r.vndPerShare, now);
      case Shares =>
        var ratio := ShareRatio(r.ownedShares, r.newShares);
        var paid := PayShares(a, symbol, p.quantity, ratio, now);
        if paid.Some? {
          SharesGrow(a, symbol, ratio, now);
          SharesPaidExactly(a, symbol, ratio, now, paid.value.assets[symbol].quantity - p.quantity);
        }
        if Pays(a, b, symbol, r) {
          SharesPaidExactly(a, symbol, ratio, now, b.assets[symbol].quantity - p.quantity);
          assert p.(quantity := b.assets[symbol].quantity) == Position(b.assets[symbol].quantity, p.base, p.openedAt);
        }
      case OtherKind =>
    }
  }

  lemma SharesGrow(a: Account, symbol: string, ratio: ShareRatio, now: int)
    requires symbol in a.assets && PayShares(a, symbol, a.assets[symbol].quantity, ratio, now).Some?
    ensures var b, p := PayShares(a, symbol, a.assets[symbol].quantity, ratio, now).value, a.assets[symbol];
            symbol in b.assets && b == a.(assets := a.assets[symbol := p.(quantity := b.assets[symbol].quantity)])
  {
    hide ShareDividendEntitlement, CheckedHoldingAfterDividend;
  }

  // ----- The judgement -----

  /** The event is known, open and due, and the position suggested for is held since its Record date. */
  ghost predicate Eligible(a: Account, symbol: string, id: string, openedAt: int, now: int) {
    && symbol in a.dividends && id in a.dividends[symbol] && symbol in a.assets
    && var r, p := a.dividends[symbol][id], a.assets[symbol];
       && !r.processed && 0 < r.recordDate && DayStart(r.recordDate) <= now
       && p.openedAt == openedAt && (openedAt == 0 || openedAt < DayStart(r.recordDate) + DAY)
  }

  /** The account b is a with the event paid and marked as applied. */
  ghost predicate Credits(a: Account, b: Account, symbol: string, id: string) {
    && symbol in a.dividends && id in a.dividends[symbol]
    && var r := a.dividends[symbol][id];
       && b.dividends == a.dividends[symbol := a.dividends[symbol][id := r.(processed := true)]]
       && Pays(a, b.(dividends := a.dividends), symbol, r)
  }

  lemma JudgeChecksExactly(a: Account, action: Action, now: int)
    requires Valid(a)
    ensures Judge(a, action, now).Reject? <==> !Eligible(a, action.symbol, action.eventId, action.openedAt, now)
  {
    hide Suggested;
    if Has(a.dividends, action.symbol, action.eventId) {
      var r := a.dividends[action.symbol][action.eventId];
      DueAndExpiredFrom(r, now);
      if action.symbol in a.assets {
        OpenedExactly(a.assets[action.symbol], r);
      }
      hide Due, OpenedByRecordDate, Expired;
    }
  }

  /** A press is rejected exactly when it is not eligible, and applied exactly when its event can be paid:
      to the account that pays it. */
  lemma {:induction false} JudgeExactly(a: Account, b: Account, action: Action, now: int)
    requires Valid(a) && 0 < now
    ensures Judge(a, action, now).Reject? <==> !Eligible(a, action.symbol, action.eventId, action.openedAt, now)
    ensures Judge(a, action, now) == Apply(b) <==>
              && Eligible(a, action.symbol, action.eventId, action.openedAt, now)
              && Credits(a, b, action.symbol, action.eventId)
  {
    hide Valid, Pays, Suggested, Due, OpenedByRecordDate, DayStart;
    JudgeChecksExactly(a, action, now);
    if Eligible(a, action.symbol, action.eventId, action.openedAt, now) {
      var r := a.dividends[action.symbol][action.eventId];
      var bare := b.(dividends := a.dividends);
      ValidParts(a, action.symbol, action.eventId);
      SuggestedExactly(a, bare, action.symbol, r, now);
      JudgeApplies(a, action, now);
      SuggestedKeeps(a, action.symbol, r, now);
      var paid := Suggested(a, action.symbol, r, a.assets[action.symbol].quantity, now);
      if paid.Some? {
        SuggestedExactly(a, paid.value, action.symbol, r, now);
        if Credits(a, b, action.symbol, action.eventId) {
          assert paid.value == bare;
        }
      }
    }
  }

  lemma ValidParts(a: Account, symbol: string, id: string)
    requires Valid(a) && symbol in a.assets && Has(a.dividends, symbol, id)
    ensures ValidPosition(a.assets[symbol]) && ValidRecord(a.dividends[symbol][id])
  {
    hide ValidRecord, IsProviderId;
    assert symbol in a.dividends && id in a.dividends[symbol];
    assert IsProviderId(id) && ValidRecord(a.dividends[symbol][id]);
  }

  lemma SuggestedKeeps(a: Account, symbol: string, r: DividendRecord, now: int)
    requires symbol in a.assets
    ensures var paid := Suggested(a, symbol, r, a.assets[symbol].quantity, now);
            paid.Some? ==> paid.value.dividends == a.dividends
  {
    hide CashDividendTotal, CheckedVNDBalance, ShareDividendEntitlement, CheckedHoldingAfterDividend;
  }

  lemma JudgeApplies(a: Account, action: Action, now: int)
    requires !Judge(a, action, now).Reject?
    ensures Has(a.dividends, action.symbol, action.eventId) && action.symbol in a.assets
    ensures var r := a.dividends[action.symbol][action.eventId];
            var paid := Suggested(a, action.symbol, r, a.assets[action.symbol].quantity, now);
            Judge(a, action, now) ==
              if paid.None? then Fail
              else Apply(paid.value.(dividends :=
                     WithRecord(paid.value.dividends, action.symbol, action.eventId, r.(processed := true))))
  {
    hide Suggested, Due, OpenedByRecordDate;
  }

  // ----- Who is admitted, and what is kept pending -----

  /** The button, its owner, chat and message are those the action is bound to, and it has not expired. */
  ghost predicate Bound(action: Action, data: string, from: int, chat: int, message: int, now: int) {
    && ParseCallback(data) == Some((action.owner, action.eventId))
    && from == action.owner && from != 0
    && chat == action.chat && message == action.message && message != 0
    && now < action.expiresAt
  }

  /** A press gets in exactly when a pending action is bound to it: no one but the owner, on the very
      message sent, in time. It then goes on in the owner's name. */
  lemma {:induction false} AdmittedExactly(steps: seq<Step>, press: int, data: string,
                                          from: int, chat: int, message: int)
    requires press !in Run(steps).presses
    ensures var w := Run(steps);
            var v := Do(w, Resolve(press, data, from, chat, message));
            && (press in v.presses <==>
                  exists k :: k in w.pending && Bound(w.pending[k], data, from, chat, message, w.now))
            && (press in v.presses ==> v.presses[press].owner == from && v.presses[press].phase == Resolved)
  {
    hide PendingKey, ParseCallback, Run;
    Always(steps);
    var w := Run(steps);
    if k :| k in w.pending && Bound(w.pending[k], data, from, chat, message, w.now) {
      PendingNamed(w, k);
    }
    if ParseCallback(data).Some? {
      var (owner, id) := ParseCallback(data).value;
      var key := PendingKey(owner, id);
      if key in w.pending {
        PendingNamed(w, key);
        PendingKeyInjective(owner, id, w.pending[key].owner, w.pending[key].eventId);
      }
    }
    hide Inv;
  }

  lemma PendingNamed(w: World, k: string)
    requires Inv(w) && k in w.pending
    ensures k == PendingKey(w.pending[k].owner, w.pending[k].eventId)
  {
  }

  /** A cleanup takes away the expired actions it can read and delete, and nothing else. */
  lemma {:induction false} CleanupExactly(w: World, stuck: set<string>)
    ensures var v := Do(w, Cleanup(stuck));
            && v == w.(pending := v.pending)
            && (forall k :: k in v.pending ==> k in w.pending && v.pending[k] == w.pending[k])
            && (forall k :: k in w.pending ==>
                  (k !in v.pending <==> k !in stuck && 0 < w.pending[k].expiresAt && w.pending[k].expiresAt <= w.now))
  {
  }

  /** An action is stored exactly for an eligible event of the position expected, whose button fits; it is
      bound to the message just sent and lasts a day. */
  lemma {:induction false} SuggestExactly(w: World, user: int, symbol: string, id: string, openedAt: int,
                                         chat: int, message: int)
    requires user !in w.locks
    ensures var a := AccountOf(w, user);
            var action := Action(user, chat, message, id, symbol, openedAt, w.now, w.now + 24 * 3600000);
            Do(w, Suggest(user, symbol, id, openedAt, chat, message)) ==
              if Valid(a) && Eligible(a, symbol, id, openedAt, w.now) && CallbackData(user, id).Some? then
                w.(pending := w.pending[PendingKey(user, id) := action], suggested := w.suggested + {action})
              else w
  {
    var a := AccountOf(w, user);
    if Valid(a) && Has(a.dividends, symbol, id) {
      var r := a.dividends[symbol][id];
      DueAndExpiredFrom(r, w.now);
      if symbol in a.assets {
        OpenedExactly(a.assets[symbol], r);
      }
    }
    hide Due, Expired, OpenedByRecordDate, CallbackData, PendingKey, DayStart;
  }

  // ----- The account a credit leaves -----

  lemma ClockRuns(w: World, step: Step)
    ensures w.now <= Do(w, step).now
  {
    hide Ledger.Attempt, Valid, Synced, PendingKey, ParseCallback, CallbackData, Judge, Asked, Stamped;
  }

  lemma NowPositive(steps: seq<Step>)
    ensures 0 < Run(steps).now
  {
    hide Do;
    if steps != [] {
      NowPositive(steps[..|steps| - 1]);
      ClockRuns(Run(steps[..|steps| - 1]), steps[|steps| - 1]);
    }
  }

  /** In every run, a press that has its account loaded pays, if the save succeeds, exactly when its event
      is eligible and can be paid to a valid account; the owner is left with that account, and everybody
      else with theirs. */
  lemma {:induction false} CreditExactly(steps: seq<Step>, press: int, action: Action, a: Account, b: Account)
    requires At(Run(steps), press) == Some(Loaded(action, a)) && Valid(b)
    ensures var w := Run(steps);
            var v := Do(w, Decide(press, true));
            var before := AccountOf(w, action.owner);
            && (|v.credits| > |w.credits| && AccountOf(v, action.owner) == b <==>
                  && Eligible(before, action.symbol, action.eventId, action.openedAt, w.now)
                  && Credits(before, b, action.symbol, action.eventId))
            && (|v.credits| == |w.credits| ==> v.accounts == w.accounts)
            && (forall u :: u != action.owner ==> AccountOf(v, u) == AccountOf(w, u))
  {
    hide Run, Judge, Valid, Eligible, Credits, PendingKey;
    var w := Run(steps);
    Always(steps);
    NowPositive(steps);
    LoadedNow(w, press, action, a);
    JudgeExactly(a, b, action, w.now);
    hide Inv;
    if Judge(a, action, w.now).Apply? {
      JudgeExactly(a, Judge(a, action, w.now).account, action, w.now);
    }
  }

  lemma LoadedNow(w: World, press: int, action: Action, a: Account)
    requires Inv(w) && At(w, press) == Some(Loaded(action, a))
    ensures a == AccountOf(w, action.owner) && Valid(a)
  {
    assert PressOk(w, w.presses[press]);
  }

  // ----- What a sync leaves of an event -----

  function LatestIn(job: FetchJob, events: seq<Event>, now: int, symbol: string, id: string): Option<DividendRecord> {
    if events == [] then None
    else
      var e := events[|events| - 1];
      if e.symbol == symbol && e.id == id && job.Includes(e) && !Expired(e.record, now) then Some(e.record)
      else LatestIn(job, events[..|events| - 1], now, symbol, id)
  }

  /** The event as the last of the answers gives it that has it in range and not expired. */
  function Latest(results: seq<FetchResult>, now: int, symbol: string, id: string): Option<DividendRecord> {
    if results == [] then None
    else
      var r := results[|results| - 1];
      var own := if r.Fetched? then LatestIn(r.job, r.events, now, symbol, id) else None;
      if own.Some? then own else Latest(results[..|results| - 1], now, symbol, id)
  }

  /** The history k has the event as given, its applied mark carried over from h; or else as h has it. */
  ghost predicate Updated(h: History, k: History, given: Option<DividendRecord>, symbol: string, id: string) {
    match given
    case Some(r) =>
      Has(k, symbol, id)
      && k[symbol][id] == r.(processed := Has(h, symbol, id) && h[symbol][id].processed)
    case None =>
      && (Has(k, symbol, id) <==> Has(h, symbol, id))
      && (Has(h, symbol, id) ==> k[symbol][id] == h[symbol][id])
  }

  lemma MergedUpdates(h: History, job: FetchJob, events: seq<Event>, now: int, symbol: string, id: string)
    ensures Updated(h, Merged(h, job, events, now), LatestIn(job, events, now, symbol, id), symbol, id)
  {
    hide Expired;
    if events != [] {
      MergedUpdates(h, job, events[..|events| - 1], now, symbol, id);
    }
  }

  lemma MergedAllUpdates(h: History, results: seq<FetchResult>, now: int, symbol: string, id: string)
    ensures Updated(h, MergedAll(h, results, now), Latest(results, now, symbol, id), symbol, id)
  {
    hide Merged, LatestIn;
    if results != [] {
      var before, r := results[..|results| - 1], results[|results| - 1];
      MergedAllUpdates(h, before, now, symbol, id);
      if r.Fetched? {
        MergedUpdates(MergedAll(h, before, now), r.job, r.events, now, symbol, id);
      }
    }
  }

  /** After a sync an event is as the provider last gave it, still applied if it was and was kept; without
      an answer it is as before, unless it expired. Nothing else of the account changes. */
  lemma {:induction false} SyncLeaves(w: World, step: Step, symbol: string, id: string)
    requires Syncs(w, step)
    ensures var a, b := AccountOf(w, step.user), AccountOf(Do(w, step), step.user);
            var given := Latest(step.results, w.now, symbol, id);
            var kept := Has(a.dividends, symbol, id) && !Expired(a.dividends[symbol][id], w.now);
            && b == a.(dividends := b.dividends)
            && (Has(b.dividends, symbol, id) <==> given.Some? || kept)
            && (given.Some? ==>
                  b.dividends[symbol][id] == given.value.(processed := kept && a.dividends[symbol][id].processed))
            && (given.None? && kept ==> b.dividends[symbol][id] == a.dividends[symbol][id])
  {
    var a := AccountOf(w, step.user);
    PrunedKeeps(a.dividends, w.now, symbol, id);
    MergedAllUpdates(Pruned(a.dividends, w.now), step.results, w.now, symbol, id);
    hide Pruned, MergedAll, Valid, Asked, Expired, Latest;
  }
}
