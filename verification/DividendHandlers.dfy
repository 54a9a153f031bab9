/** The dividend handlers as the source writes them, over a mutable store, each tied to the step of
    the protocol it carries out. */
module DividendHandlers {
  import opened Wrappers
  import opened DividendMath
  import opened StockPortfolio
  import opened DividendHistory
  import opened PendingDividend
  import opened DividendProtocol

  method ApplySuggestedDividend(p: Portfolio, symbol: string, r: DividendRecord, held: int, now: int) returns (ok: bool)
    modifies p
    ensures var after := Suggested(old(p.Value()), symbol, r, held, now);
            ok == after.Some? && p.Value() == if ok then after.value else old(p.Value())
  {
    match r.kind {
      case Cash =>
        var total := CashDividendTotal(held, r.vndPerShare);
        if total.Failure? {
          return false;
        }
        var balance := CheckedVNDBalance(p.vnd, total.value);
        if balance.Failure? {
          return false;
        }
        var applied := p.ApplyCashDividend(symbol, total.value, balance.value, now);
        return applied.Success?;
      case Shares =>
        var newShares := ShareDividendEntitlement(held, ShareRatio(r.ownedShares, r.newShares));
        if newShares.Failure? || newShares.value == 0 {
          return false;
        }
        var holding := CheckedHoldingAfterDividend(held, newShares.value);
        if holding.Failure? {
          return false;
        }
        var applied := p.ApplyShareDividend(symbol, holding.value, now);
        return applied.Success?;
      case OtherKind =>
        return false;
    }
  }

  class StockState {
    var accounts: map<int, Account>
    var pending: map<string, Action>

    constructor ()
      ensures accounts == map[] && pending == map[]
    {
      accounts, pending := map[], map[];
    }

    function Load(user: int): Account
      reads this
    {
      if user in accounts then accounts[user] else NEW_ACCOUNT
    }

    /** What the protocol sees of this store. */
    ghost function View(now: int): World
      reads this
    {
      START.(now := now, accounts := accounts, pending := pending)
    }

    /** sendDividendSuggestion, under the user's lock: every check again, then the action bound to the
        message just sent replaces any earlier one for the event. `sends` and `puts` are whether the
        message goes out and the write succeeds. */
    method SendDividendSuggestion(user: int, symbol: string, id: string, expectedOpenedAt: int, chat: int, message: int,
                                  now: int, sends: bool, puts: bool)
      modifies this`pending
      ensures pending ==
                if sends && puts then
                  DoSuggest(old(View(now)), user, symbol, id, expectedOpenedAt, chat, message).pending
                else old(pending)
    {
      var account := Load(user);
      if !Valid(account) || !Has(account.dividends, symbol, id) {
        return;
      }
      var record := account.dividends[symbol][id];
      if record.processed || !Due(record, now) {
        return;
      }
      if symbol !in account.assets {
        return;
      }
      var position := account.assets[symbol];
      if position.quantity <= 0 || position.openedAt != expectedOpenedAt || !OpenedByRecordDate(position, record) {
        return;
      }
      var data := CallbackData(user, id);
      if data.None? {
        return;
      }
      if !sends {
        return;
      }
      if !puts {
        return;
      }
      pending := pending[PendingKey(user, id) :=
        Action(user, chat, message, id, symbol, position.openedAt, now, now + PENDING_TTL)];
    }

    /** resolveDividendCallback: parse, look up, and check owner, message and expiry, without the lock. */
    method ResolveDividendCallback(data: string, from: int, chat: int, message: int, now: int, deletes: bool)
      returns (press: Option<Press>)
      modifies this`pending
      ensures var w := DoResolve(old(View(now)), 0, data, from, chat, message);
              pending == (if deletes then w.pending else old(pending))
                  && press == if 0 in w.presses then Some(w.presses[0]) else None
    {
      var parsed := ParseCallback(data);
      if parsed.None? {
        return None;
      }
      var key := PendingKey(parsed.value.0, parsed.value.1);
      if key !in pending {
        return None;
      }
      var action := pending[key];
      if from == 0 || from != action.owner {
        return None;
      }
      if chat != action.chat || message != action.message || action.message == 0 {
        return None;
      }
      if action.expiresAt <= now {
        Invalidate(key, deletes);
        return None;
      }
      return Some(Press(key, action.owner, Resolved));
    }

    /** Deletes every action past its expiry, one listed key at a time, but for keys that cannot be read
        or deleted; when listing fails, nothing happens. */
    method CleanupExpiredDividends(now: int, lists: bool, stuck: set<string>)
      modifies this`pending
      ensures pending == if lists then Unexpired(old(pending), now, stuck) else old(pending)
    {
      if !lists {
        return;
      }
      ghost var was := pending;
      var keys := pending.Keys;
      while keys != {}
        invariant keys <= was.Keys && pending.Keys <= was.Keys
        invariant forall k :: k in pending ==> pending[k] == was[k]
        invariant forall k :: k in was ==> (k in pending <==> k in keys || k in Unexpired(was, now, stuck))
        decreases keys
      {
        var key :| key in keys;
        keys := keys - {key};
        if key !in stuck && pending[key].expiresAt > 0 && pending[key].expiresAt <= now {
          pending := pending - {key};
        }
      }
    }

    method Invalidate(key: string, deletes: bool)
      modifies this`pending
      ensures pending == if deletes then old(pending) - {key} else old(pending)
    {
      if deletes {
        pending := pending - {key};
      }
    }

    /** consumeDividendAction, under the owner's lock: reread, check, apply, mark processed, save, clean up.
        `saves` and `deletes` are whether the two writes succeed. */
    method ConsumeDividendAction(key: string, now: int, saves: bool, deletes: bool) returns (applied: bool)
      modifies this
      ensures var after := Consumed(old(View(now)), key, saves, deletes);
              applied == after.applied && accounts == after.accounts && pending == after.pending
    {
      if key !in pending {
        return false;
      }
      var action := pending[key];
      var account := Load(action.owner);
      if !Valid(account) {
        return false;
      }
      if !Has(account.dividends, action.symbol, action.eventId) {
        Invalidate(key, deletes);
        return false;
      }
      var record := account.dividends[action.symbol][action.eventId];
      if record.processed || !Due(record, now) {
        Invalidate(key, deletes);
        return false;
      }
      if action.symbol !in account.assets || account.assets[action.symbol].quantity <= 0 {
        Invalidate(key, deletes);
        return false;
      }
      var position := account.assets[action.symbol];
      if position.openedAt != action.openedAt || !OpenedByRecordDate(position, record) {
        Invalidate(key, deletes);
        return false;
      }
      var p := new Portfolio(account);
      var ok := ApplySuggestedDividend(p, action.symbol, record, position.quantity, now);
      if !ok {
        return false;
      }
      p.dividends := WithRecord(p.dividends, action.symbol, action.eventId, record.(processed := true));
      if !saves || !Valid(p.Value()) {
        return false;
      }
      accounts := accounts[action.owner := p.Value()];
      Invalidate(key, deletes);
      return true;
    }
  }

  // ----- The handler is its steps -----

  datatype Consumption = Consumption(applied: bool, accounts: map<int, Account>, pending: map<string, Action>)

  function VerdictOn(w: World, action: Action): Verdict {
    var a := AccountOf(w, action.owner);
    if Valid(a) then Judge(a, action, w.now) else Fail
  }

  /** What consuming an action leaves: an applied dividend when it should, can and does get saved, and
      the action gone when it was rejected or applied and the delete succeeds. */
  function Consumed(w: World, key: string, saves: bool, deletes: bool): Consumption {
    if key !in w.pending then Consumption(false, w.accounts, w.pending)
    else
      var action := w.pending[key];
      var verdict := VerdictOn(w, action);
      var applied := verdict.Apply? && saves && Valid(verdict.account);
      Consumption(applied,
        if applied then w.accounts[action.owner := verdict.account] else w.accounts,
        if deletes && (verdict.Reject? || applied) then w.pending - {key} else w.pending)
  }

  /** The one write a decision makes: the delete of a rejected action, or the save of an applied one. */
  function Writes(w: World, key: string, saves: bool, deletes: bool): bool {
    if key in w.pending && VerdictOn(w, w.pending[key]).Reject? then deletes else saves
  }

  ghost function ConsumeSteps(w: World, press: int, writes: bool, deletes: bool): World {
    Do(Do(Do(Do(w, Reload(press)), Load(press)), Decide(press, writes)), Finish(press, deletes))
  }

  lemma NoPress(w: World, press: int, writes: bool, deletes: bool)
    requires press !in w.presses
    ensures Do(w, Load(press)) == Do(w, Decide(press, writes)) == Do(w, Finish(press, deletes)) == w
  {
  }

  lemma FinishEnds(w: World, press: int, deletes: bool)
    requires At(w, press) == Some(Saved)
    ensures Do(w, Finish(press, deletes)) == Release(if deletes then Forget(w, w.presses[press].key) else w, press)
  {
  }

  lemma DecideOnce(w: World, press: int, action: Action, a: Account, writes: bool)
    requires At(w, press) == Some(Loaded(action, a))
    ensures var u := Do(w, Decide(press, writes));
            var verdict := Judge(a, action, w.now);
            if verdict.Apply? && writes && Valid(verdict.account) then
              At(u, press) == Some(Saved) && u.presses[press].key == w.presses[press].key && u.pending == w.pending
              && u.accounts == w.accounts[action.owner := verdict.account] && |u.credits| == |w.credits| + 1
            else
              press !in u.presses && u.accounts == w.accounts && u.credits == w.credits
              && u.pending == if verdict.Reject? && writes then w.pending - {w.presses[press].key} else w.pending
  {
    hide Judge, Valid, Held;
  }

  lemma DecideEnds(w: World, press: int, saves: bool, deletes: bool, writes: bool, key: string)
    requires press in w.presses && w.presses[press].key == key && key in w.pending
    requires w.presses[press].phase == Loaded(w.pending[key], AccountOf(w, w.pending[key].owner))
    requires Valid(AccountOf(w, w.pending[key].owner)) && writes == Writes(w, key, saves, deletes)
    ensures var v := Do(Do(w, Decide(press, writes)), Finish(press, deletes));
            var after := Consumed(w, key, saves, deletes);
            && v.accounts == after.accounts && v.pending == after.pending && press !in v.presses
            && (|v.credits| > |w.credits| <==> after.applied)
  {
    hide Do, Judge, Valid, Held;
    var action := w.pending[key];
    var a := AccountOf(w, action.owner);
    DecideOnce(w, press, action, a, writes);
    var u := Do(w, Decide(press, writes));
    if At(u, press) == Some(Saved) {
      FinishEnds(u, press, deletes);
    } else {
      NoPress(u, press, writes, deletes);
    }
  }

  lemma NotThere(w: World, press: int)
    requires At(w, press) == Some(Locked) && w.presses[press].key !in w.pending
    ensures Do(w, Reload(press)) == Release(w, press)
  {
  }

  lemma BadAccount(w: World, press: int, action: Action)
    requires At(w, press) == Some(Reloaded(action)) && !Valid(AccountOf(w, action.owner))
    ensures Do(w, Load(press)) == Release(w, press)
  {
  }

  lemma ConsumedNot(w: World, key: string, saves: bool, deletes: bool)
    requires key !in w.pending || !Valid(AccountOf(w, w.pending[key].owner))
    ensures Consumed(w, key, saves, deletes) == Consumption(false, w.accounts, w.pending)
  {
  }

  lemma SameConsumed(w: World, v: World, key: string, saves: bool, deletes: bool)
    requires v.now == w.now && v.accounts == w.accounts && v.pending == w.pending
    ensures Consumed(w, key, saves, deletes) == Consumed(v, key, saves, deletes)
    ensures Writes(w, key, saves, deletes) == Writes(v, key, saves, deletes)
  {
  }

  /** Run without anyone else in between, a locked press's four steps do to the store what the handler
      does, and pay exactly when it applies. */
  lemma {:induction false} ConsumeIsItsSteps(w: World, press: int, saves: bool, deletes: bool)
    requires Inv(w) && At(w, press) == Some(Locked)
    ensures var key := w.presses[press].key;
            var v := ConsumeSteps(w, press, Writes(w, key, saves, deletes), deletes);
            var after := Consumed(w, key, saves, deletes);
            && v.accounts == after.accounts && v.pending == after.pending && press !in v.presses
            && (|v.credits| > |w.credits| <==> after.applied)
  {
    var key := w.presses[press].key;
    var writes := Writes(w, key, saves, deletes);
    hide Do, Inv, Judge, Valid, Consumed;
    var w1 := Do(w, Reload(press));
    if key !in w.pending {
      NotThere(w, press);
      NoPress(w1, press, writes, deletes);
      ConsumedNot(w, key, saves, deletes);
    } else {
      var action := w.pending[key];
      ReloadStep(w, press);
      if Valid(AccountOf(w, action.owner)) {
        LoadStep(w1, press, action);
        var w2 := Do(w1, Load(press));
        SameConsumed(w, w2, key, saves, deletes);
        DecideEnds(w2, press, saves, deletes, writes, key);
      } else {
        BadAccount(w1, press, action);
        NoPress(Do(w1, Load(press)), press, writes, deletes);
        ConsumedNot(w, key, saves, deletes);
      }
    }
  }
}
