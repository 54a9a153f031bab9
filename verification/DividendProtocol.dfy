/** The life of a suggested dividend, from provider sync to a pressed button, as steps over shared
    state. Trades, syncs and suggestions run whole, under the user's lock; a press is split at
    every store access, and any number of presses interleave. */
module DividendProtocol {
  import opened Wrappers
  import opened DividendMath
  import opened StockPortfolio
  import opened DividendHistory
  import opened DividendFetch
  import opened PendingDividend
  import opened Ledger

  const PENDING_TTL: int := 24 * 3600000

  datatype Action = Action(
    owner: int, chat: int, message: int, eventId: string, symbol: string,
    openedAt: int, createdAt: int, expiresAt: int)

  /** How far a press has got: past the checks, holding the lock, with the action read again, with
      the account loaded, with the account saved. */
  datatype Phase =
    | Resolved
    | Locked
    | Reloaded(action: Action)
    | Loaded(action: Action, account: Account)
    | Saved

  datatype Press = Press(key: string, owner: int, phase: Phase)

  datatype Slot = Slot(user: int, symbol: string, id: string)

  datatype Credit = Credit(at: int, action: Action, position: Position, record: DividendRecord)

  /** The store, the locks and the presses under way; then, for the record, every suggestion made,
      every credit paid, how often each event entered a history, and when histories forgot one. */
  datatype World = World(
    now: int, accounts: map<int, Account>, pending: map<string, Action>,
    locks: map<int, int>, presses: map<int, Press>,
    suggested: set<Action>, credits: seq<Credit>, inserted: multiset<Slot>, ended: map<Slot, int>)

  const START := World(1, map[], map[], map[], map[], {}, [], multiset{}, map[])

  datatype Step =
    | Tick(now: int)
    | Trade(user: int, entry: Entry)
    | Sync(user: int, results: seq<FetchResult>)
    | Suggest(user: int, symbol: string, id: string, expectedOpenedAt: int, chat: int, message: int)
    | Cleanup(stuck: set<string>)
    | Resolve(press: int, data: string, from: int, chat: int, message: int)
    | Acquire(press: int)
    | Reload(press: int)
    | Load(press: int)
    | Decide(press: int, writes: bool)
    | Finish(press: int, deletes: bool)

  // ----- Reading the world -----

  function AccountOf(w: World, user: int): Account { if user in w.accounts then w.accounts[user] else NEW_ACCOUNT }

  predicate Remembers(w: World, s: Slot) { Has(AccountOf(w, s.user).dividends, s.symbol, s.id) }

  /** Remembered and not yet applied. */
  predicate Open(w: World, s: Slot) {
    Remembers(w, s) && !AccountOf(w, s.user).dividends[s.symbol][s.id].processed
  }

  function SlotOf(c: Credit): Slot { Slot(c.action.owner, c.action.symbol, c.action.eventId) }

  function Paid(credits: seq<Credit>): multiset<Slot> {
    if credits == [] then multiset{}
    else Paid(credits[..|credits| - 1]) + multiset{SlotOf(credits[|credits| - 1])}
  }

  // ----- One step -----

  ghost function Do(w: World, step: Step): World {
    match step
    case Tick(now) => if now < w.now then w else w.(now := now)
    case Trade(user, entry) => if user in w.locks then w else DoTrade(w, user, entry)
    case Sync(user, results) =>
      if user in w.locks || !Asked(AccountOf(w, user), w.now, results) then w else DoSync(w, user, results)
    case Suggest(user, symbol, id, expectedOpenedAt, chat, message) =>
      if user in w.locks then w else DoSuggest(w, user, symbol, id, expectedOpenedAt, chat, message)
    case Cleanup(stuck) => w.(pending := Unexpired(w.pending, w.now, stuck))
    case Resolve(press, data, from, chat, message) =>
      if press in w.presses then w else DoResolve(w, press, data, from, chat, message)
    case Acquire(press) =>
      if At(w, press) == Some(Resolved) && w.presses[press].owner !in w.locks then
        Advance(w.(locks := w.locks[w.presses[press].owner := press]), press, Locked)
      else w
    case Reload(press) =>
      if At(w, press) != Some(Locked) then w
      else if w.presses[press].key !in w.pending then Release(w, press)
      else Advance(w, press, Reloaded(w.pending[w.presses[press].key]))
    case Load(press) =>
      if At(w, press).Some? && w.presses[press].phase.Reloaded? then
        var action := w.presses[press].phase.action;
        var account := AccountOf(w, action.owner);
        if Valid(account) then Advance(w, press, Loaded(action, account)) else Release(w, press)
      else w
    case Decide(press, writes) =>
      if At(w, press).Some? && w.presses[press].phase.Loaded? then DoDecide(w, press, writes) else w
    case Finish(press, deletes) =>
      if At(w, press) == Some(Saved) then
        Release(if deletes then Forget(w, w.presses[press].key) else w, press)
      else w
  }

  /** What is left of the pending actions when some keys cannot be read or deleted. */
  function Unexpired(pending: map<string, Action>, now: int, stuck: set<string>): map<string, Action> {
    map k | k in pending && (k in stuck || !(0 < pending[k].expiresAt <= now)) :: pending[k]
  }

  /** The provider is only asked what the source asks it. */
  ghost predicate Asked(a: Account, now: int, results: seq<FetchResult>) {
    forall i :: 0 <= i < |results| ==> Issued(a, now, results[i].job)
  }

  function At(w: World, press: int): Option<Phase> {
    if press in w.presses then Some(w.presses[press].phase) else None
  }

  function Advance(w: World, press: int, phase: Phase): World
    requires press in w.presses
  {
    w.(presses := w.presses[press := w.presses[press].(phase := phase)])
  }

  function Release(w: World, press: int): World
    requires press in w.presses
  {
    w.(locks := w.locks - {w.presses[press].owner}, presses := w.presses - {press})
  }

  function Forget(w: World, key: string): World { w.(pending := w.pending - {key}) }

  function Stamped(entry: Entry, now: int): Entry {
    match entry
    case Buy(symbol, quantity, cost, _) => Buy(symbol, quantity, cost, now)
    case CashDividend(symbol, vndPerShare, _) => CashDividend(symbol, vndPerShare, now)
    case ShareDividend(symbol, ratio, _) => ShareDividend(symbol, ratio, now)
    case TopUp(_) => entry
    case SellFor(_, _, _) => entry
  }

  function DoTrade(w: World, user: int, entry: Entry): World {
    var a := AccountOf(w, user);
    var b := Attempt(a, Stamped(entry, w.now));
    if !Valid(a) || b.None? || !Valid(b.value) then w else w.(accounts := w.accounts[user := b.value])
  }

  ghost function Synced(a: Account, results: seq<FetchResult>, now: int): Account {
    a.(dividends := MergedAll(Pruned(a.dividends, now), results, now))
  }

  /** The slots that h remembers and k does not. */
  function Gone(user: int, h: History, k: History): set<Slot> {
    set s, e | s in h && e in h[s] && !Has(k, s, e) :: Slot(user, s, e)
  }

  ghost function DoSync(w: World, user: int, results: seq<FetchResult>): World {
    var a := AccountOf(w, user);
    var pruned := Pruned(a.dividends, w.now);
    var b := Synced(a, results, w.now);
    if !Valid(a) || !Valid(b) then w
    else w.(accounts := w.accounts[user := b],
            inserted := w.inserted + multiset(Gone(user, b.dividends, pruned)),
            ended := w.ended + map s | s in Gone(user, a.dividends, pruned) ::
                       if Has(a.dividends, s.symbol, s.id) then RetentionAnchor(a.dividends[s.symbol][s.id]) else 0)
  }

  function DoSuggest(w: World, user: int, symbol: string, id: string, expectedOpenedAt: int,
                     chat: int, message: int): World {
    var a := AccountOf(w, user);
    if !Valid(a) || !Has(a.dividends, symbol, id) then w
    else
      var record := a.dividends[symbol][id];
      var position := Held(a, symbol);
      if record.processed || !Due(record, w.now) then w
      else if symbol !in a.assets || position.quantity <= 0 || position.openedAt != expectedOpenedAt
              || !OpenedByRecordDate(position, record) then w
      else if CallbackData(user, id).None? then w
      else
        var action := Action(user, chat, message, id, symbol, position.openedAt, w.now, w.now + PENDING_TTL);
        w.(pending := w.pending[PendingKey(user, id) := action], suggested := w.suggested + {action})
  }

  function DoResolve(w: World, press: int, data: string, from: int, chat: int, message: int): World {
    match ParseCallback(data)
    case None => w
    case Some((owner, id)) =>
      var key := PendingKey(owner, id);
      if key !in w.pending then w
      else
        var action := w.pending[key];
        if from == 0 || from != action.owner then w
        else if chat != action.chat || message != action.message || action.message == 0 then w
        else if action.expiresAt <= w.now then Forget(w, key)
        else w.(presses := w.presses[press := Press(key, action.owner, Resolved)])
  }

  /** applySuggestedDividend: the account with the event's dividend on the given holding, if it fits. */
  function Suggested(a: Account, symbol: string, r: DividendRecord, held: int, now: int): Option<Account> {
    match r.kind
    case Cash => PayCash(a, symbol, held, r.vndPerShare, now)
    case Shares => PayShares(a, symbol, held, ShareRatio(r.ownedShares, r.newShares), now)
    case OtherKind => None
  }

  datatype Verdict = Reject | Fail | Apply(account: Account)

  /** The checks of consumeDividendAction, in its order, then the application. */
  function Judge(a: Account, action: Action, now: int): Verdict {
    if !Has(a.dividends, action.symbol, action.eventId) then Reject
    else
      var record := a.dividends[action.symbol][action.eventId];
      var position := Held(a, action.symbol);
      if record.processed || !Due(record, now) then Reject
      else if action.symbol !in a.assets || position.quantity <= 0 then Reject
      else if position.openedAt != action.openedAt || !OpenedByRecordDate(position, record) then Reject
      else
        var applied := Suggested(a, action.symbol, record, position.quantity, now);
        if applied.None? then Fail
        else
          Apply(applied.value.(dividends :=
            WithRecord(applied.value.dividends, action.symbol, action.eventId, record.(processed := true))))
  }

  function DoDecide(w: World, press: int, writes: bool): World
    requires press in w.presses && w.presses[press].phase.Loaded?
  {
    var action := w.presses[press].phase.action;
    var a := w.presses[press].phase.account;
    match Judge(a, action, w.now)
    case Reject => Release(if writes then Forget(w, w.presses[press].key) else w, press)
    case Fail => Release(w, press)
    case Apply(b) =>
      if !writes || !Valid(b) then Release(w, press)
      else
        var credit := Credit(w.now, action, Held(a, action.symbol), a.dividends[action.symbol][action.eventId]);
        Advance(w.(accounts := w.accounts[action.owner := b], credits := w.credits + [credit]), press, Saved)
  }

  ghost function Run(steps: seq<Step>): World {
    if steps == [] then START else Do(Run(steps[..|steps| - 1]), steps[|steps| - 1])
  }

  // ----- What every step keeps -----

  ghost predicate PendingOk(w: World) {
    forall k :: k in w.pending ==>
      k == PendingKey(w.pending[k].owner, w.pending[k].eventId) && w.pending[k] in w.suggested
  }

  ghost predicate LocksOk(w: World) {
    && (forall u :: u in w.locks ==> w.locks[u] in w.presses && w.presses[w.locks[u]].owner == u)
    && (forall p :: p in w.presses && !w.presses[p].phase.Resolved? ==>
          w.presses[p].owner in w.locks && w.locks[w.presses[p].owner] == p)
  }

  ghost predicate PressOk(w: World, p: Press) {
    && (exists id :: p.key == PendingKey(p.owner, id))
    && (p.phase.Reloaded? || p.phase.Loaded? ==> p.phase.action.owner == p.owner && p.phase.action in w.suggested)
    && (p.phase.Loaded? ==> p.phase.account == AccountOf(w, p.owner) && Valid(p.phase.account))
  }

  ghost predicate PressesOk(w: World) { forall p :: p in w.presses ==> PressOk(w, w.presses[p]) }

  /** The credits paid for a slot, and one to come while it is open. */
  function Claims(w: World, s: Slot): nat { Paid(w.credits)[s] + (if Open(w, s) then 1 else 0) }

  ghost predicate SlotOk(w: World, s: Slot) { Claims(w, s) <= w.inserted[s] }

  /** What a credit was paid on: an event due by then, to a position held since its Record date, the
      very one the suggestion was made for. */
  ghost predicate CreditOk(w: World, c: Credit) {
    && c.action in w.suggested
    && c.position.quantity > 0
    && c.position.openedAt == c.action.openedAt
    && c.record.recordDate > 0 && SaigonDay(c.record.recordDate) <= SaigonDay(c.at)
    && (c.position.openedAt == 0 || SaigonDay(c.position.openedAt) <= SaigonDay(c.record.recordDate))
    && c.at <= w.now
  }

  ghost predicate Inv(w: World) {
    && PendingOk(w) && LocksOk(w) && PressesOk(w)
    && (forall s :: SlotOk(w, s))
    && (forall i :: 0 <= i < |w.credits| ==> CreditOk(w, w.credits[i]))
  }

  // ----- The history under each operation -----

  lemma AttemptKeepsHistory(a: Account, entry: Entry)
    ensures Attempt(a, entry).Some? ==> Attempt(a, entry).value.dividends == a.dividends
  {
  }

  /** Merging never forgets an event and never changes whether it was processed. */
  lemma MergedKeeps(h: History, job: FetchJob, events: seq<Event>, now: int, s: string, e: string)
    requires Has(h, s, e)
    ensures var k := Merged(h, job, events, now);
            Has(k, s, e) && k[s][e].processed == h[s][e].processed
  {
    if events != [] {
      MergedKeeps(h, job, events[..|events| - 1], now, s, e);
    }
  }

  lemma MergedAllKeeps(h: History, results: seq<FetchResult>, now: int, s: string, e: string)
    requires Has(h, s, e)
    ensures var k := MergedAll(h, results, now);
            Has(k, s, e) && k[s][e].processed == h[s][e].processed
  {
    if results != [] {
      MergedAllKeeps(h, results[..|results| - 1], now, s, e);
      var r := results[|results| - 1];
      if r.Fetched? {
        MergedKeeps(MergedAll(h, results[..|results| - 1], now), r.job, r.events, now, s, e);
      }
    }
  }

  // ----- Every step keeps the invariant -----

  lemma PressesAfterAccount(w: World, user: int, b: Account, p: int)
    requires LocksOk(w) && PressesOk(w) && p in w.presses
    requires w.presses[p].phase.Loaded? ==> w.presses[p].owner != user
    ensures PressOk(w.(accounts := w.accounts[user := b]), w.presses[p])
  {
    assert PressOk(w, w.presses[p]);
  }

  /** Changing one free user's account keeps all but the slots, which must be seen to. */
  lemma AccountKeeps(w: World, v: World, user: int)
    requires Inv(w) && user !in w.locks && user in v.accounts
    requires v == w.(accounts := w.accounts[user := v.accounts[user]], inserted := v.inserted, ended := v.ended)
    requires forall s :: SlotOk(v, s)
    ensures Inv(v)
  {
    hide SlotOk, PressOk, PendingKey;
    forall p | p in w.presses ensures PressOk(v, v.presses[p]) {
      PressesAfterAccount(w, user, v.accounts[user], p);
      SameReading(w.(accounts := v.accounts), v, v.presses[p]);
    }
  }

  /** Steps that leave accounts, locks, presses and the record of credits alone. */
  lemma FrameKeeps(w: World, v: World)
    requires Inv(w) && PendingOk(v)
    requires v == w.(now := v.now, pending := v.pending, suggested := v.suggested)
    requires w.now <= v.now && w.suggested <= v.suggested
    ensures Inv(v)
  {
    hide PressOk, PendingKey;
    forall s ensures SlotOk(v, s) {
      assert SlotOk(w, s);
    }
    forall p | p in v.presses ensures PressOk(v, v.presses[p]) {
      SameReading(w, v, v.presses[p]);
    }
  }

  lemma TradeKeeps(w: World, user: int, entry: Entry)
    requires Inv(w) && user !in w.locks
    ensures Inv(DoTrade(w, user, entry))
  {
    hide Attempt, Valid, Inv;
    var v := DoTrade(w, user, entry);
    if v != w {
      AttemptKeepsHistory(AccountOf(w, user), Stamped(entry, w.now));
      forall s ensures SlotOk(v, s) {
        SlotHolds(w, s);
      }
      AccountKeeps(w, v, user);
    }
  }

  lemma SlotHolds(w: World, s: Slot)
    requires Inv(w)
    ensures SlotOk(w, s)
  {
  }

  lemma SyncSlot(w: World, user: int, results: seq<FetchResult>, s: Slot)
    requires SlotOk(w, s)
    ensures SlotOk(DoSync(w, user, results), s)
  {
    var v := DoSync(w, user, results);
    if v != w && s.user == user {
      var a := AccountOf(w, user);
      var pruned := Pruned(a.dividends, w.now);
      hide Pruned, MergedAll, Valid;
      if Has(pruned, s.symbol, s.id) {
        MergedAllKeeps(pruned, results, w.now, s.symbol, s.id);
        PrunedKeeps(a.dividends, w.now, s.symbol, s.id);
      } else if Remembers(v, s) {
        assert s in Gone(user, v.accounts[user].dividends, pruned);
      }
    }
  }

  lemma PrunedKeeps(h: History, now: int, s: string, e: string)
    ensures Has(Pruned(h, now), s, e) <==> Has(h, s, e) && !Expired(h[s][e], now)
    ensures Has(Pruned(h, now), s, e) ==> Pruned(h, now)[s][e] == h[s][e]
  {
  }

  lemma SyncKeeps(w: World, user: int, results: seq<FetchResult>)
    requires Inv(w) && user !in w.locks
    ensures Inv(DoSync(w, user, results))
  {
    hide Synced, Valid, SlotOk, Inv, Pruned, Gone;
    var v := DoSync(w, user, results);
    forall s ensures SlotOk(v, s) {
      SlotHolds(w, s);
      SyncSlot(w, user, results, s);
    }
    if v != w {
      AccountKeeps(w, v, user);
    }
  }

  lemma SameReading(w: World, v: World, p: Press)
    requires PressOk(w, p) && w.accounts == v.accounts && w.suggested <= v.suggested
    ensures PressOk(v, p)
  {
  }

  lemma SuggestKeeps(w: World, user: int, symbol: string, id: string, expectedOpenedAt: int, chat: int, message: int)
    requires Inv(w)
    ensures Inv(DoSuggest(w, user, symbol, id, expectedOpenedAt, chat, message))
  {
    hide Valid, CallbackData, PendingKey, LocksOk, PressesOk, SlotOk, CreditOk;
    FrameKeeps(w, w);
    var v := DoSuggest(w, user, symbol, id, expectedOpenedAt, chat, message);
    if v != w {
      FrameKeeps(w, v);
    }
  }

  lemma ResolvedKeeps(w: World, press: int, key: string)
    requires Inv(w) && press !in w.presses && key in w.pending
    ensures Inv(w.(presses := w.presses[press := Press(key, w.pending[key].owner, Resolved)]))
  {
    hide PendingKey;
    var v := w.(presses := w.presses[press := Press(key, w.pending[key].owner, Resolved)]);
    forall s ensures SlotOk(v, s) {
      assert SlotOk(w, s);
    }
    forall p | p in v.presses ensures PressOk(v, v.presses[p]) {
      assert p in w.presses ==> PressOk(w, w.presses[p]);
    }
  }

  lemma ResolveKeeps(w: World, press: int, data: string, from: int, chat: int, message: int)
    requires Inv(w) && press !in w.presses
    ensures Inv(DoResolve(w, press, data, from, chat, message))
  {
    hide ParseCallback, PendingKey, Inv;
    if ParseCallback(data).Some? {
      var parsed := ParseCallback(data).value;
      var key := PendingKey(parsed.0, parsed.1);
      ForgetKeeps(w, key);
      if key in w.pending {
        ResolvedKeeps(w, press, key);
      }
    }
  }

  lemma PhaseKeeps(w: World, press: int, phase: Phase)
    requires Inv(w) && press in w.presses && !w.presses[press].phase.Resolved? && !phase.Resolved?
    requires PressOk(w, w.presses[press].(phase := phase))
    ensures Inv(Advance(w, press, phase))
  {
    var v := Advance(w, press, phase);
    forall s ensures SlotOk(v, s) {
      assert SlotOk(w, s);
    }
    forall p | p in v.presses ensures PressOk(v, v.presses[p]) {
      assert PressOk(w, w.presses[p]);
    }
  }

  lemma ReleaseKeeps(w: World, press: int)
    requires Inv(w) && press in w.presses && !w.presses[press].phase.Resolved?
    ensures Inv(Release(w, press))
  {
    var v := Release(w, press);
    forall s ensures SlotOk(v, s) {
      assert SlotOk(w, s);
    }
    forall p | p in v.presses ensures PressOk(v, v.presses[p]) {
      assert PressOk(w, w.presses[p]);
    }
  }

  lemma ForgetKeeps(w: World, key: string)
    requires Inv(w)
    ensures Inv(Forget(w, key))
  {
    hide LocksOk, PressesOk, SlotOk, CreditOk, PendingKey;
    FrameKeeps(w, Forget(w, key));
  }

  lemma AcquiredKeeps(w: World, press: int)
    requires Inv(w) && press in w.presses && w.presses[press].phase.Resolved? && w.presses[press].owner !in w.locks
    ensures Inv(Advance(w.(locks := w.locks[w.presses[press].owner := press]), press, Locked))
  {
    hide PendingKey;
    var v := Advance(w.(locks := w.locks[w.presses[press].owner := press]), press, Locked);
    forall s ensures SlotOk(v, s) {
      assert SlotOk(w, s);
    }
    forall p | p in v.presses ensures PressOk(v, v.presses[p]) {
      assert PressOk(w, w.presses[p]);
    }
  }

  lemma AcquireKeeps(w: World, press: int)
    requires Inv(w)
    ensures Inv(Do(w, Acquire(press)))
  {
    hide Inv;
    if At(w, press) == Some(Resolved) && w.presses[press].owner !in w.locks {
      AcquiredKeeps(w, press);
    }
  }

  lemma ReloadKeeps(w: World, press: int)
    requires Inv(w)
    ensures Inv(Do(w, Reload(press)))
  {
    if At(w, press) == Some(Locked) {
      var p := w.presses[press];
      assert PressOk(w, p);
      if p.key in w.pending {
        var id :| p.key == PendingKey(p.owner, id);
        var action := w.pending[p.key];
        PendingKeyInjective(p.owner, id, action.owner, action.eventId);
        PhaseKeeps(w, press, Reloaded(action));
      } else {
        ReleaseKeeps(w, press);
      }
    }
  }

  lemma LoadKeeps(w: World, press: int)
    requires Inv(w)
    ensures Inv(Do(w, Load(press)))
  {
    if At(w, press).Some? && w.presses[press].phase.Reloaded? {
      var p := w.presses[press];
      assert PressOk(w, p);
      var account := AccountOf(w, p.owner);
      hide Valid;
      if Valid(account) {
        PhaseKeeps(w, press, Loaded(p.phase.action, account));
      } else {
        ReleaseKeeps(w, press);
      }
    }
  }

  lemma JudgeChecks(a: Account, action: Action, now: int)
    requires Judge(a, action, now).Apply?
    ensures Has(a.dividends, action.symbol, action.eventId)
    ensures var record, position := a.dividends[action.symbol][action.eventId], Held(a, action.symbol);
            && !record.processed && Due(record, now) && position.quantity > 0
            && position.openedAt == action.openedAt && OpenedByRecordDate(position, record)
            && Judge(a, action, now).account.dividends ==
                 WithRecord(a.dividends, action.symbol, action.eventId, record.(processed := true))
  {
  }

  lemma CreditKeeps(w: World, press: int)
    requires Inv(w) && press in w.presses && w.presses[press].phase.Loaded?
    requires Judge(w.presses[press].phase.account, w.presses[press].phase.action, w.now).Apply?
    ensures Inv(DoDecide(w, press, true))
  {
    hide Valid, Judge, PendingKey;
    var p := w.presses[press];
    var action, a := p.phase.action, p.phase.account;
    assert PressOk(w, p);
    JudgeChecks(a, action, w.now);
    var v := DoDecide(w, press, true);
    var b := Judge(a, action, w.now).account;
    ReleaseKeeps(w, press);
    if Valid(b) {
      assert v.credits[..|w.credits|] == w.credits;
      forall q | q in v.presses ensures PressOk(v, v.presses[q]) {
        assert PressOk(w, w.presses[q]);
        assert w.presses[q].phase.Loaded? && q != press ==> w.presses[q].owner != p.owner;
      }
      forall s ensures SlotOk(v, s) {
        assert SlotOk(w, s);
      }
    }
  }

  lemma DecideKeeps(w: World, press: int, writes: bool)
    requires Inv(w)
    ensures Inv(Do(w, Decide(press, writes)))
  {
    if At(w, press).Some? && w.presses[press].phase.Loaded? {
      var p := w.presses[press];
      ForgetKeeps(w, p.key);
      ReleaseKeeps(w, press);
      ReleaseKeeps(Forget(w, p.key), press);
      if Judge(p.phase.account, p.phase.action, w.now).Apply? {
        CreditKeeps(w, press);
      }
      hide Inv, Judge, Valid;
    }
  }

  lemma FinishKeeps(w: World, press: int, deletes: bool)
    requires Inv(w)
    ensures Inv(Do(w, Finish(press, deletes)))
  {
    if At(w, press) == Some(Saved) {
      ForgetKeeps(w, w.presses[press].key);
      ReleaseKeeps(if deletes then Forget(w, w.presses[press].key) else w, press);
    }
  }

  lemma OtherKeeps(w: World, step: Step)
    requires Inv(w) && (step.Tick? || step.Cleanup?)
    ensures Inv(Do(w, step))
  {
    hide LocksOk, PressesOk, SlotOk, CreditOk, PendingKey;
    FrameKeeps(w, Do(w, step));
  }

  lemma StepKeeps(w: World, step: Step)
    requires Inv(w)
    ensures Inv(Do(w, step))
  {
    hide Inv, DoTrade, DoSync, DoSuggest, DoResolve, DoDecide;
    match step {
      case Tick(_) => OtherKeeps(w, step);
      case Cleanup(_) => OtherKeeps(w, step);
      case Trade(user, entry) => if user !in w.locks { TradeKeeps(w, user, entry); }
      case Sync(user, results) => if user !in w.locks { SyncKeeps(w, user, results); }
      case Suggest(user, symbol, id, openedAt, chat, message) =>
        SuggestKeeps(w, user, symbol, id, openedAt, chat, message);
      case Resolve(press, data, from, chat, message) =>
        if press !in w.presses { ResolveKeeps(w, press, data, from, chat, message); }
      case Acquire(press) => AcquireKeeps(w, press);
      case Reload(press) => ReloadKeeps(w, press);
      case Load(press) => LoadKeeps(w, press);
      case Decide(press, writes) => DecideKeeps(w, press, writes);
      case Finish(press, deletes) => FinishKeeps(w, press, deletes);
    }
  }

  // ----- One press, step by step -----

  lemma AcquireStep(w: World, p: int)
    requires At(w, p) == Some(Resolved) && w.presses[p].owner !in w.locks
    ensures Do(w, Acquire(p)) == w.(locks := w.locks[w.presses[p].owner := p],
                                    presses := w.presses[p := w.presses[p].(phase := Locked)])
  {
  }

  lemma ReloadStep(w: World, p: int)
    requires At(w, p) == Some(Locked) && w.presses[p].key in w.pending
    ensures Do(w, Reload(p))
        == w.(presses := w.presses[p := w.presses[p].(phase := Reloaded(w.pending[w.presses[p].key]))])
  {
  }

  lemma LoadStep(w: World, p: int, action: Action)
    requires At(w, p) == Some(Reloaded(action)) && Valid(AccountOf(w, action.owner))
    ensures Do(w, Load(p)) ==
              w.(presses := w.presses[p := w.presses[p].(phase := Loaded(action, AccountOf(w, action.owner)))])
  {
  }

  lemma FinishStep(w: World, p: int)
    requires At(w, p) == Some(Saved)
    ensures Do(w, Finish(p, true)) ==
              w.(pending := w.pending - {w.presses[p].key}, locks := w.locks - {w.presses[p].owner},
                  presses := w.presses - {p})
  {
  }

  // ----- Main results -----

  lemma {:induction false} Always(steps: seq<Step>)
    ensures Inv(Run(steps))
  {
    hide Inv, Do;
    if steps == [] {
      StartInv();
    } else {
      Always(steps[..|steps| - 1]);
      StepKeeps(Run(steps[..|steps| - 1]), steps[|steps| - 1]);
    }
  }

  lemma StartInv()
    ensures Inv(START)
  {
    forall s: Slot ensures SlotOk(START, s) {
    }
  }

  /** In every run, a credit is paid only on or after Record date, to a position held since that
      date and still the one the suggestion was made for. */
  lemma {:induction false} CreditsAreDue(steps: seq<Step>, i: nat)
    requires i < |Run(steps).credits|
    ensures CreditOk(Run(steps), Run(steps).credits[i])
  {
    hide CreditOk, Do;
    Always(steps);
  }

  /** Whatever the provider sends: no event is credited more often than it entered the user's
      history. Processed is carried along by every update and only forgetting can lose it. */
  lemma {:induction false} CreditsBoundedByInsertions(steps: seq<Step>, s: Slot)
    ensures Paid(Run(steps).credits)[s] <= Run(steps).inserted[s]
  {
    hide Do;
    Always(steps);
    assert SlotOk(Run(steps), s);
  }

}
