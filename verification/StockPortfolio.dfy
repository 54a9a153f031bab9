/** One user's paper stock account: the persisted value, the functions that say what each
    operation does to it, and the mutable portfolio the handlers work on. Money is real. */
module StockPortfolio {
  import opened GoInt
  import opened Wrappers
  import opened DividendMath

  datatype Kind = Cash | Shares | OtherKind

  datatype DividendRecord = DividendRecord(
    kind: Kind, publishedAt: int, exDate: int, recordDate: int, paymentDate: int,
    vndPerShare: int, ownedShares: int, newShares: int,
    title: string, sourceUrl: string, processed: bool)

  datatype Position = Position(quantity: int, base: real, openedAt: int)

  type Events = map<string, DividendRecord>
  type History = map<string, Events>

  datatype Account = Account(vnd: real, assets: map<string, Position>, dividends: History, invested: real)

  const NEW_ACCOUNT := Account(0.0, map[], map[], 0.0)

  datatype AccountError = InvalidPurchase | QuantityOverflow | NoPosition | InvalidDividend | InvalidBasis

  // ----- What must never be persisted -----

  predicate IsTicker(symbol: string) {
    1 <= |symbol| <= 16 && forall i :: 0 <= i < |symbol| ==> 'A' <= symbol[i] <= 'Z' || '0' <= symbol[i] <= '9'
  }

  predicate IsProviderId(id: string) {
    1 <= |id| <= 64 && forall i :: 0 <= i < |id| ==> IsProviderChar(id[i])
  }

  predicate IsProviderChar(c: char) {
    'A' <= c <= 'Z' || 'a' <= c <= 'z' || '0' <= c <= '9' || c == '_' || c == '-'
  }

  predicate ValidRecord(r: DividendRecord) {
    && 0 < r.publishedAt && 0 <= r.exDate && 0 <= r.recordDate && 0 <= r.paymentDate
    && match r.kind
       case Cash => 0 < r.vndPerShare && r.ownedShares == 0 && r.newShares == 0
       case Shares => r.vndPerShare == 0 && 0 < r.ownedShares && 0 < r.newShares
       case OtherKind => false
  }

  predicate ValidPosition(p: Position) { 0 < p.quantity && 0.0 <= p.base && 0 <= p.openedAt }

  predicate Valid(a: Account) {
    && 0.0 <= a.vnd
    && (forall s :: s in a.assets ==> IsTicker(s) && ValidPosition(a.assets[s]))
    && (forall s :: s in a.dividends ==> IsTicker(s))
    && (forall s, e :: s in a.dividends && e in a.dividends[s] ==> IsProviderId(e) && ValidRecord(a.dividends[s][e]))
  }

  // ----- What each operation does -----

  function Held(a: Account, symbol: string): Position {
    if symbol in a.assets then a.assets[symbol] else Position(0, 0.0, 0)
  }

  function Bought(a: Account, symbol: string, quantity: int, base: real, now: int): Result<Account, AccountError> {
    var p := Held(a, symbol);
    if quantity <= 0 || base <= 0.0 || now <= 0 then Failure(InvalidPurchase)
    else if p.quantity > MAX_INT64 - quantity then Failure(QuantityOverflow)
    else if p.base + base <= 0.0 then Failure(InvalidBasis)
    else Success(a.(assets := a.assets[symbol :=
      Position(p.quantity + quantity, p.base + base, if p.quantity == 0 then now else p.openedAt)]))
  }

  /** The share of a basis that goes with part of a holding. */
  function BaseOf(base: real, quantity: int, held: int): real
    requires held != 0
  {
    base * (quantity as real / held as real)
  }

  datatype Sale = Insufficient(held: int) | BadBasis | Sold(remaining: int, soldBase: real, account: Account)

  function Sell(a: Account, symbol: string, quantity: int): Sale {
    var p := Held(a, symbol);
    if symbol !in a.assets || p.quantity < quantity || quantity <= 0 then Insufficient(p.quantity)
    else if quantity == p.quantity then Sold(0, p.base, a.(assets := a.assets - {symbol}))
    else
      var soldBase := BaseOf(p.base, quantity, p.quantity);
      if soldBase < 0.0 || p.base - soldBase < 0.0 then BadBasis
      else Sold(p.quantity - quantity, soldBase,
                a.(assets := a.assets[symbol := p.(quantity := p.quantity - quantity, base := p.base - soldBase)]))
  }

  function CashApplied(a: Account, symbol: string, total: int, balance: real, now: int): Result<Account, AccountError> {
    var p := Held(a, symbol);
    if symbol !in a.assets || p.quantity <= 0 then Failure(NoPosition)
    else if total <= 0 || p.base < 0.0 || now <= 0 then Failure(InvalidDividend)
    else
      var base := if p.base - total as real > 0.0 then p.base - total as real else 0.0;
      Success(a.(vnd := balance, assets := a.assets[symbol := p.(base := base)]))
  }

  function SharesApplied(a: Account, symbol: string, quantity: int, now: int): Result<Account, AccountError> {
    var p := Held(a, symbol);
    if symbol !in a.assets || p.quantity <= 0 then Failure(NoPosition)
    else if quantity < p.quantity || p.base < 0.0 || now <= 0 then Failure(InvalidDividend)
    else Success(a.(assets := a.assets[symbol := p.(quantity := quantity)]))
  }

  /** The two dividend commands and the suggested dividend share this arithmetic. */
  function PayCash(a: Account, symbol: string, held: int, vndPerShare: int, now: int): Option<Account> {
    match CashDividendTotal(held, vndPerShare)
    case Failure(_) => None
    case Success(total) =>
      match CheckedVNDBalance(a.vnd, total)
      case Failure(_) => None
      case Success(balance) => Kept(CashApplied(a, symbol, total, balance, now))
  }

  function PayShares(a: Account, symbol: string, held: int, ratio: ShareRatio, now: int): Option<Account> {
    match ShareDividendEntitlement(held, ratio)
    case Failure(_) => None
    case Success(newShares) =>
      if newShares == 0 then None else
      match CheckedHoldingAfterDividend(held, newShares)
      case Failure(_) => None
      case Success(holding) => Kept(SharesApplied(a, symbol, holding, now))
  }

  /** A sale goes through exactly when that many are held. It takes from the basis in proportion, leaves
      the rest of the position as it was, and closes it when nothing is left. */
  lemma {:induction false} SoldExactly(a: Account, symbol: string, quantity: int)
    requires symbol in a.assets ==> ValidPosition(a.assets[symbol])
    ensures Sell(a, symbol, quantity).Sold? <==> symbol in a.assets && 0 < quantity <= a.assets[symbol].quantity
    ensures match Sell(a, symbol, quantity)
            case Sold(left, soldBase, b) =>
              var p := a.assets[symbol];
              && left == p.quantity - quantity
              && soldBase * p.quantity as real == p.base * quantity as real
              && b == a.(assets := b.assets) && b.assets - {symbol} == a.assets - {symbol}
              && (left == 0 ==> symbol !in b.assets)
              && (left > 0 ==>
                    && symbol in b.assets
                    && var q := b.assets[symbol];
                       q.quantity == left && q.openedAt == p.openedAt
                       && q.base * p.quantity as real == p.base * left as real && q.base + soldBase == p.base)
            case Insufficient(held) => held == if symbol in a.assets then a.assets[symbol].quantity else 0
            case BadBasis => false
  {
    if symbol in a.assets && 0 < quantity <= a.assets[symbol].quantity {
      var p := a.assets[symbol];
      SoldShare(p.base, quantity, p.quantity);
      hide BaseOf;
      if quantity < p.quantity {
        var b := Sell(a, symbol, quantity).account;
        assert b.assets - {symbol} == a.assets - {symbol};
      }
    }
  }

  lemma SoldShare(base: real, quantity: int, held: int)
    requires 0.0 <= base && 0 < quantity <= held
    ensures BaseOf(base, quantity, held) * held as real == base * quantity as real
    ensures (base - BaseOf(base, quantity, held)) * held as real == base * (held - quantity) as real
    ensures 0.0 <= BaseOf(base, quantity, held) <= base
  {
    var share := quantity as real / held as real;
    assert share * held as real == quantity as real;
    assert 0.0 <= share <= 1.0;
    assert BaseOf(base, quantity, held) * held as real == base * (share * held as real);
  }

  /** A purchase goes through exactly when its numbers are positive and the holding fits 64 bits. It adds
      to a position, which stays opened when it was, or opens one now. */
  lemma {:induction false} BoughtExactly(a: Account, symbol: string, quantity: int, base: real, now: int)
    requires symbol in a.assets ==> ValidPosition(a.assets[symbol])
    ensures var held := if symbol in a.assets then a.assets[symbol].quantity else 0;
            Bought(a, symbol, quantity, base, now).Success? <==>
              0 < quantity && 0.0 < base && 0 < now && held + quantity <= MAX_INT64
    ensures Bought(a, symbol, quantity, base, now).Success? ==>
              var p := if symbol in a.assets
                       then var q := a.assets[symbol]; Position(q.quantity + quantity, q.base + base, q.openedAt)
                       else Position(quantity, base, now);
              Bought(a, symbol, quantity, base, now).value == a.(assets := a.assets[symbol := p])
  {
  }

  /** A share dividend on a holding adds the whole number of new shares it is entitled to, at least one,
      provided the sum still fits 64 bits; nothing else changes. */
  lemma {:induction false} SharesPaidExactly(a: Account, symbol: string, ratio: ShareRatio, now: int, shares: int)
    requires symbol in a.assets && ValidPosition(a.assets[symbol]) && now > 0
    requires 0 < ratio.owned && 0 < ratio.new_
    ensures var p := a.assets[symbol];
            var grown := p.(quantity := p.quantity + shares);
            PayShares(a, symbol, p.quantity, ratio, now) == Some(a.(assets := a.assets[symbol := grown])) <==>
              && 1 <= shares && p.quantity + shares <= MAX_INT64
              && shares * ratio.owned <= p.quantity * ratio.new_ < (shares + 1) * ratio.owned
  {
    hide ShareDividendEntitlement, CheckedHoldingAfterDividend;
    var p := a.assets[symbol];
    EntitlementFloor(p.quantity, ratio, shares);
    var entitled := ShareDividendEntitlement(p.quantity, ratio);
    if entitled.Success? {
      EntitlementFloor(p.quantity, ratio, entitled.value);
      EntitledNumber(p.quantity, ratio);
      HoldingGuardExact(p.quantity, entitled.value, p.quantity + entitled.value);
      var holding := CheckedHoldingAfterDividend(p.quantity, entitled.value);
      if holding.Success? {
        HoldingGuardExact(p.quantity, entitled.value, holding.value);
      }
      var paid := PayShares(a, symbol, p.quantity, ratio, now);
      if paid.Some? {
        assert paid.value.assets[symbol].quantity == p.quantity + entitled.value;
        var grown := a.(assets := a.assets[symbol := p.(quantity := p.quantity + shares)]);
        assert grown.assets[symbol].quantity == p.quantity + shares;
      }
    }
  }

  /** A cash dividend on a holding is paid exactly when amount and balance stay exact in a float; it moves
      as much as there is of the basis into cash. */
  lemma {:induction false} CashPaidExactly(a: Account, symbol: string, vndPerShare: int, now: int)
    requires symbol in a.assets && ValidPosition(a.assets[symbol]) && now > 0
    ensures var p := a.assets[symbol];
            var total := p.quantity * vndPerShare;
            var base := if p.base > total as real then p.base - total as real else 0.0;
            PayCash(a, symbol, p.quantity, vndPerShare, now) ==
              if 0 < vndPerShare && total <= MAX_EXACT && a.vnd + total as real <= MAX_EXACT as real then
                Some(a.(vnd := a.vnd + total as real, assets := a.assets[symbol := p.(base := base)]))
              else None
  {
    hide CashDividendTotal;
    var held := a.assets[symbol].quantity;
    CashTotalExact(held, vndPerShare, held * vndPerShare);
    var total := CashDividendTotal(held, vndPerShare);
    if total.Success? {
      CashTotalExact(held, vndPerShare, total.value);
    }
    if 0 < vndPerShare {
      Positive(held, vndPerShare);
    }
  }

  lemma EntitledNumber(held: int, ratio: ShareRatio)
    requires ShareDividendEntitlement(held, ratio).Success?
    ensures 0 <= ShareDividendEntitlement(held, ratio).value && IsInt64(ShareDividendEntitlement(held, ratio).value)
  {
    Positive(held, ratio.new_);
  }

  function Kept(r: Result<Account, AccountError>): Option<Account> {
    if r.Success? then Some(r.value) else None
  }

  /** The in-memory portfolio a handler loads, changes and saves. */
  class Portfolio {
    var vnd: real
    var assets: map<string, Position>
    var dividends: History
    var invested: real

    constructor (a: Account)
      ensures Value() == a
    {
      vnd, assets, dividends, invested := a.vnd, a.assets, a.dividends, a.invested;
    }

    function Value(): Account
      reads this
    {
      Account(vnd, assets, dividends, invested)
    }

    method AddVND(amount: real)
      modifies this
      ensures Value() == old(Value()).(vnd := old(vnd) + amount)
    {
      vnd := vnd + amount;
    }

    method DeductVND(amount: real) returns (ok: bool, balance: real)
      modifies this
      ensures ok <==> amount <= old(vnd)
      ensures Value() == if ok then old(Value()).(vnd := old(vnd) - amount) else old(Value())
      ensures balance == vnd
    {
      if vnd < amount {
        return false, vnd;
      }
      vnd := vnd - amount;
      return true, vnd;
    }

    method BuyTicker(symbol: string, quantity: int, base: real, now: int) returns (r: Result<(), AccountError>)
      modifies this
      ensures match Bought(old(Value()), symbol, quantity, base, now)
              case Success(a) => r == Success(()) && Value() == a
              case Failure(e) => r == Failure(e) && Value() == old(Value())
    {
      if quantity <= 0 || !(base > 0.0) || now <= 0 {
        return Failure(InvalidPurchase);
      }
      var position := if symbol in assets then assets[symbol] else Position(0, 0.0, 0);
      var isOpening := position.quantity == 0;
      if position.quantity > MAX_INT64 - quantity {
        return Failure(QuantityOverflow);
      }
      position := position.(quantity := position.quantity + quantity);
      position := position.(base := position.base + base);
      if !(position.base > 0.0) {
        return Failure(InvalidBasis);
      }
      if isOpening {
        position := position.(openedAt := now);
      }
      assets := assets[symbol := position];
      return Success(());
    }

    method SellTicker(symbol: string, quantity: int)
      returns (remaining: int, soldBase: real, ok: bool, basisError: bool)
      modifies this
      ensures match Sell(old(Value()), symbol, quantity)
              case Insufficient(held) => !ok && !basisError && remaining == held && soldBase == 0.0
                  && Value() == old(Value())
              case BadBasis => !ok && basisError && Value() == old(Value())
              case Sold(left, base, a) => ok && !basisError && remaining == left && soldBase == base && Value() == a
    {
      var position := if symbol in assets then assets[symbol] else Position(0, 0.0, 0);
      if symbol !in assets || position.quantity < quantity || quantity <= 0 {
        return position.quantity, 0.0, false, false;
      }
      if quantity == position.quantity {
        assets := assets - {symbol};
        return 0, position.base, true, false;
      }
      soldBase := position.base * (quantity as real / position.quantity as real);
      position := position.(quantity := position.quantity - quantity);
      position := position.(base := position.base - soldBase);
      if soldBase < 0.0 || position.base < 0.0 {
        return 0, 0.0, false, true;
      }
      assets := assets[symbol := position];
      return position.quantity, soldBase, true, false;
    }

    method ApplyCashDividend(symbol: string, total: int, balance: real, now: int) returns (r: Result<(), AccountError>)
      modifies this
      ensures match CashApplied(old(Value()), symbol, total, balance, now)
              case Success(a) => r == Success(()) && Value() == a
              case Failure(e) => r == Failure(e) && Value() == old(Value())
    {
      if symbol !in assets || assets[symbol].quantity <= 0 {
        return Failure(NoPosition);
      }
      var position := assets[symbol];
      if total <= 0 || position.base < 0.0 || now <= 0 {
        return Failure(InvalidDividend);
      }
      var rest := position.base - total as real;
      position := position.(base := if rest > 0.0 then rest else 0.0);
      assets := assets[symbol := position];
      vnd := balance;
      return Success(());
    }

    method ApplyShareDividend(symbol: string, quantity: int, now: int) returns (r: Result<(), AccountError>)
      modifies this
      ensures match SharesApplied(old(Value()), symbol, quantity, now)
              case Success(a) => r == Success(()) && Value() == a
              case Failure(e) => r == Failure(e) && Value() == old(Value())
    {
      if symbol !in assets || assets[symbol].quantity <= 0 {
        return Failure(NoPosition);
      }
      var position := assets[symbol];
      if quantity < position.quantity || position.base < 0.0 || now <= 0 {
        return Failure(InvalidDividend);
      }
      position := position.(quantity := quantity);
      assets := assets[symbol := position];
      return Success(());
    }
  }
}
