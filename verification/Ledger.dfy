/** Where the money goes: the account identity over every run of top-ups, trades and dividends. */
module Ledger {
  import opened GoInt
  import opened Wrappers
  import opened DividendMath
  import opened StockPortfolio

  /** One saved command: price times quantity is already the cost or the revenue. */
  datatype Entry =
    | TopUp(amount: real)
    | Buy(symbol: string, quantity: int, cost: real, now: int)
    | SellFor(symbol: string, quantity: int, revenue: real)
    | CashDividend(symbol: string, vndPerShare: int, now: int)
    | ShareDividend(symbol: string, ratio: ShareRatio, now: int)

  /** The handlers load, change and save; a refused command, or one whose result may not be
      persisted, leaves the account as it was. Amounts arrive parsed: top-ups and revenue positive. */
  function Post(a: Account, entry: Entry): Account {
    var b := Attempt(a, entry);
    if b.Some? && Valid(b.value) then b.value else a
  }

  function Attempt(a: Account, entry: Entry): Option<Account> {
    match entry
    case TopUp(amount) =>
      if amount <= 0.0 then None else Some(a.(vnd := a.vnd + amount, invested := a.invested + amount))
    case Buy(symbol, quantity, cost, now) =>
      if a.vnd < cost then None else Kept(Bought(a.(vnd := a.vnd - cost), symbol, quantity, cost, now))
    case SellFor(symbol, quantity, revenue) =>
      var sale := Sell(a, symbol, quantity);
      if sale.Sold? then Some(sale.account.(vnd := sale.account.vnd + revenue)) else None
    case CashDividend(symbol, vndPerShare, now) =>
      PayCash(a, symbol, Held(a, symbol).quantity, vndPerShare, now)
    case ShareDividend(symbol, ratio, now) =>
      PayShares(a, symbol, Held(a, symbol).quantity, ratio, now)
  }

  function PostAll(a: Account, entries: seq<Entry>): Account {
    if entries == [] then a else Post(PostAll(a, entries[..|entries| - 1]), entries[|entries| - 1])
  }

  /** What a posted command gains beyond moving money between cash and basis: revenue less the basis
      sold, or dividend paid less the basis it returned. */
  function Gain(a: Account, entry: Entry): real {
    var b := Attempt(a, entry);
    if b.None? || !Valid(b.value) then 0.0 else
    match entry
    case SellFor(symbol, quantity, revenue) => revenue - Sell(a, symbol, quantity).soldBase
    case CashDividend(symbol, vndPerShare, _) =>
      var paid := (Held(a, symbol).quantity * vndPerShare) as real;
      var base := Held(a, symbol).base;
      paid - (if paid < base then paid else base)
    case _ => 0.0
  }

  function Gains(a: Account, entries: seq<Entry>): real {
    if entries == [] then 0.0
    else var before := entries[..|entries| - 1];
         Gains(a, before) + Gain(PostAll(a, before), entries[|entries| - 1])
  }

  // ----- What each command does, in figures -----

  /** Top-ups and purchases: when they are accepted and what they leave. */
  lemma {:induction false} MoneyInExactly(a: Account, symbol: string, quantity: int, amount: real, now: int)
    requires Valid(a)
    ensures Post(a, TopUp(amount)) ==
              if amount > 0.0 then a.(vnd := a.vnd + amount, invested := a.invested + amount) else a
    ensures var held := if symbol in a.assets then a.assets[symbol].quantity else 0;
            var p := if symbol in a.assets
                     then var q := a.assets[symbol]; Position(q.quantity + quantity, q.base + amount, q.openedAt)
                     else Position(quantity, amount, now);
            Post(a, Buy(symbol, quantity, amount, now)) ==
              if 0 < quantity && 0.0 < amount <= a.vnd && 0 < now && held + quantity <= MAX_INT64 && IsTicker(symbol)
              then a.(vnd := a.vnd - amount, assets := a.assets[symbol := p]) else a
  {
    hide Bought, IsTicker, IsProviderId, ValidRecord;
    BoughtExactly(a.(vnd := a.vnd - amount), symbol, quantity, amount, now);
    if amount > 0.0 {
      TopUpValid(a, amount);
    }
    var q := if symbol in a.assets then a.assets[symbol] else Position(0, 0.0, now);
    var p := Position(q.quantity + quantity, q.base + amount, q.openedAt);
    if 0 < quantity && 0.0 < amount <= a.vnd && 0 < now {
      BuyValid(a, symbol, p, amount);
    }
    hide Valid;
  }

  lemma TopUpValid(a: Account, amount: real)
    requires Valid(a) && 0.0 < amount
    ensures Valid(a.(vnd := a.vnd + amount, invested := a.invested + amount))
  {
    hide IsTicker, IsProviderId, ValidRecord, ValidPosition;
    var b := a.(vnd := a.vnd + amount, invested := a.invested + amount);
    assert b.assets == a.assets && b.dividends == a.dividends;
  }

  lemma BuyValid(a: Account, symbol: string, p: Position, amount: real)
    requires Valid(a) && amount <= a.vnd && ValidPosition(p)
    ensures Valid(a.(vnd := a.vnd - amount, assets := a.assets[symbol := p])) <==> IsTicker(symbol)
  {
    hide IsTicker, IsProviderId, ValidRecord, ValidPosition;
    var b := a.(vnd := a.vnd - amount, assets := a.assets[symbol := p]);
    assert symbol in b.assets && b.dividends == a.dividends;
    forall s | s in b.assets && s != symbol ensures IsTicker(s) && ValidPosition(b.assets[s]) {
      assert s in a.assets;
    }
  }

  /** Sales: the revenue comes in and a proportional part of the basis goes. */
  lemma {:induction false} SaleExactly(a: Account, symbol: string, quantity: int, revenue: real)
    requires Valid(a) && 0.0 <= revenue
    ensures var b := Post(a, SellFor(symbol, quantity, revenue));
            if symbol in a.assets && 0 < quantity <= a.assets[symbol].quantity then
              var p := a.assets[symbol];
              && b.vnd == a.vnd + revenue && b.invested == a.invested && b.dividends == a.dividends
              && b.assets - {symbol} == a.assets - {symbol}
              && (symbol in b.assets <==> quantity < p.quantity)
              && (symbol in b.assets ==>
                    && b.assets[symbol].quantity == p.quantity - quantity
                    && b.assets[symbol].base * p.quantity as real == p.base * (p.quantity - quantity) as real
                    && b.assets[symbol].openedAt == p.openedAt)
            else b == a
  {
    SoldExactly(a, symbol, quantity);
    hide Sell;
    var sale := Sell(a, symbol, quantity);
    if sale.Sold? {
      var b := sale.account.(vnd := sale.account.vnd + revenue);
      forall s | s in b.assets ensures IsTicker(s) && ValidPosition(b.assets[s]) {
        if s == symbol {
          LeftValid(a.assets[s], b.assets[s], quantity);
        } else {
          assert s in a.assets - {symbol} && b.assets[s] == (b.assets - {symbol})[s];
        }
      }
    }
  }

  lemma LeftValid(p: Position, q: Position, quantity: int)
    requires ValidPosition(p) && q.quantity == p.quantity - quantity && 0 < q.quantity && q.openedAt == p.openedAt
    requires q.base * p.quantity as real == p.base * q.quantity as real
    ensures ValidPosition(q)
  {
    assert q.base == p.base * q.quantity as real / p.quantity as real;
  }

  /** A cash dividend command, from the holding and the figure given. */
  lemma {:induction false} CashCommandExactly(a: Account, symbol: string, vndPerShare: int, now: int)
    requires Valid(a) && symbol in a.assets && 0 < now
    ensures var p := a.assets[symbol];
            var total := p.quantity * vndPerShare;
            var base := if p.base > total as real then p.base - total as real else 0.0;
            Post(a, CashDividend(symbol, vndPerShare, now)) ==
              if 0 < vndPerShare && total <= MAX_EXACT && a.vnd + total as real <= MAX_EXACT as real then
                a.(vnd := a.vnd + total as real, assets := a.assets[symbol := p.(base := base)])
              else a
  {
    hide PayCash;
    var p := a.assets[symbol];
    PositionValid(a, symbol);
    CashPaidExactly(a, symbol, vndPerShare, now);
    if 0 < vndPerShare {
      Positive(p.quantity, vndPerShare);
      var total := (p.quantity * vndPerShare) as real;
      PaidValid(a, symbol, p.(base := if p.base > total then p.base - total else 0.0), a.vnd + total);
    }
    hide Valid;
  }

  lemma PositionValid(a: Account, symbol: string)
    requires Valid(a) && symbol in a.assets
    ensures IsTicker(symbol) && ValidPosition(a.assets[symbol]) && 0.0 <= a.vnd
  {
  }

  lemma PaidValid(a: Account, symbol: string, p: Position, vnd: real)
    requires Valid(a) && symbol in a.assets && ValidPosition(p) && 0.0 <= vnd
    ensures Valid(a.(vnd := vnd, assets := a.assets[symbol := p]))
  {
    hide IsTicker, IsProviderId, ValidRecord, ValidPosition;
    var b := a.(vnd := vnd, assets := a.assets[symbol := p]);
    assert b.dividends == a.dividends;
  }

  /** A share dividend command of n whole shares, from the holding and the ratio given. */
  lemma {:induction false} ShareCommandExactly(a: Account, symbol: string, ratio: ShareRatio, now: int, n: int)
    requires Valid(a) && symbol in a.assets && 0 < now && 0 < ratio.owned && 0 < ratio.new_
    requires var held := a.assets[symbol].quantity; n * ratio.owned <= held * ratio.new_ < (n + 1) * ratio.owned
    ensures var p := a.assets[symbol];
            var grown := p.(quantity := p.quantity + n);
            Post(a, ShareDividend(symbol, ratio, now)) ==
              if 1 <= n && grown.quantity <= MAX_INT64 then a.(assets := a.assets[symbol := grown]) else a
  {
    hide PayShares;
    var p := a.assets[symbol];
    PositionValid(a, symbol);
    if 1 <= n && p.quantity + n <= MAX_INT64 {
      SharesPaidExactly(a, symbol, ratio, now, n);
      PaidValid(a, symbol, p.(quantity := p.quantity + n), a.vnd);
      assert a.(vnd := a.vnd) == a;
    } else {
      NoSharesFit(a, symbol, ratio, now, n);
    }
    hide Valid;
  }

  lemma NoSharesFit(a: Account, symbol: string, ratio: ShareRatio, now: int, n: int)
    requires symbol in a.assets && ValidPosition(a.assets[symbol]) && 0 < now && 0 < ratio.owned && 0 < ratio.new_
    requires var held := a.assets[symbol].quantity;
             n * ratio.owned <= held * ratio.new_ < (n + 1) * ratio.owned && (n < 1 || held + n > MAX_INT64)
    ensures PayShares(a, symbol, a.assets[symbol].quantity, ratio, now) == None
  {
    hide ShareDividendEntitlement, CheckedHoldingAfterDividend;
    var held := a.assets[symbol].quantity;
    var entitled := ShareDividendEntitlement(held, ratio);
    EntitlementFloor(held, ratio, n);
    if entitled.Success? {
      EntitlementFloor(held, ratio, entitled.value);
      QuotientUnique(held * ratio.new_, ratio.owned, n);
      QuotientUnique(held * ratio.new_, ratio.owned, entitled.value);
      var sum := CheckedHoldingAfterDividend(held, entitled.value);
      if sum.Success? {
        HoldingGuardExact(held, entitled.value, sum.value);
      }
    }
  }

  // ----- Sums over positions -----

  ghost function TotalBase(assets: map<string, Position>): real {
    if assets == map[] then 0.0
    else var s :| s in assets; assets[s].base + TotalBase(assets - {s})
  }

  lemma TotalBaseWithout(assets: map<string, Position>, s: string)
    requires s in assets
    ensures TotalBase(assets) == assets[s].base + TotalBase(assets - {s})
    decreases |assets|
  {
    var t :| t in assets && TotalBase(assets) == assets[t].base + TotalBase(assets - {t});
    if t != s {
      TotalBaseWithout(assets - {t}, s);
      TotalBaseWithout(assets - {s}, t);
      assert assets - {t} - {s} == assets - {s} - {t};
    }
  }

  lemma TotalBaseUpdate(assets: map<string, Position>, s: string, p: Position)
    ensures TotalBase(assets[s := p]) ==
              TotalBase(assets) + p.base - (if s in assets then assets[s].base else 0.0)
  {
    TotalBaseWithout(assets[s := p], s);
    assert assets[s := p] - {s} == assets - {s};
    if s in assets {
      TotalBaseWithout(assets, s);
    } else {
      assert assets - {s} == assets;
    }
  }

  ghost function Balance(a: Account): real { a.vnd + TotalBase(a.assets) - a.invested }

  lemma PostConserves(a: Account, entry: Entry)
    requires Valid(a)
    ensures Valid(Post(a, entry))
    ensures Balance(Post(a, entry)) == Balance(a) + Gain(a, entry)
  {
    var b := Attempt(a, entry);
    if b.Some? && Valid(b.value) {
      match entry {
        case TopUp(_) =>
        case Buy(symbol, _, _, _) =>
          TotalBaseUpdate(a.assets, symbol, b.value.assets[symbol]);
        case SellFor(symbol, _, _) =>
          if symbol in b.value.assets {
            TotalBaseUpdate(a.assets, symbol, b.value.assets[symbol]);
          } else {
            TotalBaseWithout(a.assets, symbol);
          }
        case CashDividend(symbol, _, _) =>
          TotalBaseUpdate(a.assets, symbol, b.value.assets[symbol]);
        case ShareDividend(symbol, _, _) =>
          TotalBaseUpdate(a.assets, symbol, b.value.assets[symbol]);
      }
    }
  }

  /** Over every run, cash and remaining basis less what was invested is exactly what was realised;
      the account stays fit to be persisted, so no balance or basis is ever negative. */
  lemma {:induction false} LedgerConserves(a: Account, entries: seq<Entry>)
    requires Valid(a)
    ensures Valid(PostAll(a, entries))
    ensures Balance(PostAll(a, entries)) == Balance(a) + Gains(a, entries)
  {
    if entries != [] {
      var before := entries[..|entries| - 1];
      LedgerConserves(a, before);
      PostConserves(PostAll(a, before), entries[|entries| - 1]);
    }
  }

  // ----- Partial sells -----

  function SellEach(a: Account, symbol: string, quantities: seq<int>): (real, Account) {
    if quantities == [] then (0.0, a)
    else
      var (sold, b) := SellEach(a, symbol, quantities[..|quantities| - 1]);
      var sale := Sell(b, symbol, quantities[|quantities| - 1]);
      if sale.Sold? then (sold + sale.soldBase, sale.account) else (sold, b)
  }

  function Sum(quantities: seq<int>): int {
    if quantities == [] then 0 else Sum(quantities[..|quantities| - 1]) + quantities[|quantities| - 1]
  }

  lemma Proportion(base: real, quantity: int, q: int)
    requires 0 <= q <= quantity && 0 < quantity && 0.0 <= base
    ensures 0.0 <= BaseOf(base, q, quantity) <= base
    ensures BaseOf(base, quantity, quantity) == base
  {
    var f := q as real / quantity as real;
    assert f * quantity as real == q as real;
    assert 0.0 <= f <= 1.0;
  }

  /** Selling a position piece by piece takes the same basis from it as selling the total at once,
      and leaves the same position. */
  lemma {:induction false} PartialSellsAddUp(a: Account, symbol: string, quantities: seq<int>)
    requires Valid(a) && symbol in a.assets && |quantities| > 0
    requires forall i :: 0 <= i < |quantities| ==> 0 < quantities[i]
    requires Sum(quantities) <= a.assets[symbol].quantity
    ensures var (sold, b) := SellEach(a, symbol, quantities);
            var once := Sell(a, symbol, Sum(quantities));
            once == Sold(Held(b, symbol).quantity, sold, b)
  {
    var p := a.assets[symbol];
    var last := quantities[|quantities| - 1];
    var before := quantities[..|quantities| - 1];
    if before == [] {
      assert SellEach(a, symbol, before) == (0.0, a);
      assert Sum(before) == 0;
    } else {
      SumPositive(before);
      PartialSellsAddUp(a, symbol, before);
      SellTwice(a, symbol, Sum(before), last);
    }
  }

  lemma SumPositive(quantities: seq<int>)
    requires quantities != [] && forall i :: 0 <= i < |quantities| ==> 0 < quantities[i]
    ensures 0 < Sum(quantities)
  {
    if |quantities| > 1 {
      SumPositive(quantities[..|quantities| - 1]);
    }
  }

  lemma SellTwice(a: Account, symbol: string, q: int, r: int)
    requires symbol in a.assets && 0.0 <= a.assets[symbol].base && 0 < q && 0 < r && q + r <= a.assets[symbol].quantity
    ensures var first := Sell(a, symbol, q);
            && first.Sold?
            && var second := Sell(first.account, symbol, r);
            && second.Sold?
            && Sell(a, symbol, q + r) == Sold(second.remaining, first.soldBase + second.soldBase, second.account)
  {
    hide BaseOf, Valid;
    var p := a.assets[symbol];
    var left := p.base - BaseOf(p.base, q, p.quantity);
    Proportion(p.base, p.quantity, q);
    Proportion(p.base, p.quantity, q + r);
    Proportion(left, p.quantity - q, r);
    SameAverage(p.base, p.quantity, q, r);
  }

  lemma SameAverage(base: real, n: int, q: int, r: int)
    requires 0 < q && 0 < r && q + r <= n
    ensures BaseOf(base, q, n) + BaseOf(base - BaseOf(base, q, n), r, n - q) == BaseOf(base, q + r, n)
  {
    var whole, first, second := n as real, q as real, r as real;
    var average := base / whole;
    var sold := BaseOf(base, q, n);
    assert sold == average * first;
    assert base - sold == average * (whole - first);
    assert (base - sold) * (second / (whole - first)) == average * second;
    assert (q + r) as real == first + second;
    assert base * ((first + second) / whole) == average * (first + second);
  }
}
