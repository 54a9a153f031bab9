/** Whole-number dividend arithmetic on 64-bit quantities, with the source's refusals. */
module DividendMath {
  import opened GoInt
  import opened Wrappers

  datatype MathError = InvalidInputs | Overflow

  const MAX_EXACT: int := 0x20_0000_0000_0000

  predicate IsInt64(n: int) { MIN_INT64 <= n <= MAX_INT64 }

  datatype ShareRatio = ShareRatio(owned: int, new_: int)

  function ShareDividendEntitlement(held: int, ratio: ShareRatio): Result<int, MathError>
  {
    if held <= 0 || ratio.owned <= 0 || ratio.new_ <= 0 then Failure(InvalidInputs)
    else
      var result := held * ratio.new_ / ratio.owned;
      if IsInt64(result) then Success(result) else Failure(Overflow)
  }

  function MinimumHoldingForShare(ratio: ShareRatio): int
    requires ratio.new_ > 0
  {
    Quo(ratio.owned - 1, ratio.new_) + 1
  }

  function CheckedHoldingAfterDividend(held: int, newShares: int): Result<int, MathError>
  {
    if newShares < 0 || held > MAX_INT64 - newShares then Failure(Overflow) else Success(held + newShares)
  }

  function CashDividendTotal(held: int, vndPerShare: int): Result<int, MathError>
  {
    if held <= 0 || vndPerShare <= 0 || held > Quo(MAX_INT64, vndPerShare) then Failure(Overflow)
    else if held * vndPerShare > MAX_EXACT then Failure(Overflow)
    else Success(held * vndPerShare)
  }

  function CheckedVNDBalance(balance: real, credit: int): Result<real, MathError>
  {
    if credit <= 0 || balance + credit as real > MAX_EXACT as real then Failure(Overflow)
    else Success(balance + credit as real)
  }

  // ----- Properties -----

  /** The entitlement is the number of whole times `owned` fits into `held * new`. */
  lemma {:induction false} EntitlementFloor(held: int, ratio: ShareRatio, shares: int)
    requires 0 < held && 0 < ratio.owned && 0 < ratio.new_
    ensures ShareDividendEntitlement(held, ratio) == Success(shares) <==>
              shares <= MAX_INT64 && shares * ratio.owned <= held * ratio.new_ < (shares + 1) * ratio.owned
  {
    var product := held * ratio.new_;
    QuotientUnique(product, ratio.owned, shares);
    Positive(held, ratio.new_);
  }

  lemma Positive(a: int, b: int)
    requires 0 < a && 0 < b
    ensures 0 < a * b
  {
  }

  lemma QuotientUnique(a: int, b: int, q: int)
    requires 0 <= a && 0 < b
    ensures a / b == q <==> q * b <= a < (q + 1) * b
  {
    var r := a / b;
    assert r * b <= a < (r + 1) * b;
    if q < r {
      MulMonotone(q + 1, r, b);
    } else if r < q {
      MulMonotone(r + 1, q, b);
    }
  }

  lemma MulMonotone(x: int, y: int, b: int)
    requires x <= y && 0 <= b
    ensures x * b <= y * b
  {
  }

  /** Writing the ratio in other terms changes nothing. */
  lemma {:induction false} EntitlementScales(held: int, ratio: ShareRatio, factor: int)
    requires 0 < factor
    ensures ShareDividendEntitlement(held, ShareRatio(factor * ratio.owned, factor * ratio.new_))
         == ShareDividendEntitlement(held, ratio)
  {
    SameSign(factor, ratio.owned);
    SameSign(factor, ratio.new_);
    if 0 < held && 0 < ratio.owned && 0 < ratio.new_ {
      Positive(held, ratio.new_);
      ScaledProduct(held, factor, ratio.new_);
      ScaledQuotient(held * ratio.new_, ratio.owned, factor);
    }
  }

  lemma ScaledProduct(held: int, factor: int, n: int)
    ensures held * (factor * n) == factor * (held * n)
  {
  }

  lemma ScaledQuotient(a: int, b: int, factor: int)
    requires 0 <= a && 0 < b && 0 < factor
    ensures 0 < factor * b && (factor * a) / (factor * b) == a / b
  {
    var q := a / b;
    Positive(factor, b);
    QuotientUnique(a, b, q);
    ScaledProduct(q, factor, b);
    ScaledProduct(q + 1, factor, b);
    MulMonotone(q * b, a, factor);
    MulMonotone(a + 1, (q + 1) * b, factor);
    Distribute(factor, a);
    MulMonotone(0, a, factor);
    QuotientUnique(factor * a, factor * b, q);
  }

  lemma Distribute(factor: int, a: int)
    ensures (a + 1) * factor == factor * a + factor
  {
  }

  lemma SameSign(factor: int, x: int)
    requires 0 < factor
    ensures factor * x <= 0 <==> x <= 0
  {
  }

  /** A larger holding never earns less. */
  lemma {:induction false} EntitlementMonotone(held: int, more: int, ratio: ShareRatio)
    requires 0 < held <= more
    requires ShareDividendEntitlement(more, ratio).Success?
    ensures ShareDividendEntitlement(held, ratio).Success?
         && ShareDividendEntitlement(held, ratio).value <= ShareDividendEntitlement(more, ratio).value
  {
    var p, q := held * ratio.new_, more * ratio.new_;
    MulMonotone(held, more, ratio.new_);
    Positive(held, ratio.new_);
    QuotientUnique(p, ratio.owned, p / ratio.owned);
    QuotientUnique(q, ratio.owned, q / ratio.owned);
    if q / ratio.owned < p / ratio.owned {
      MulMonotone(q / ratio.owned + 1, p / ratio.owned, ratio.owned);
    }
  }

  /** Below the minimum holding nothing is earned; from it on, something is. */
  lemma {:induction false} MinimumHoldingExact(held: int, ratio: ShareRatio)
    requires 0 < held && 0 < ratio.owned && 0 < ratio.new_
    ensures ShareDividendEntitlement(held, ratio) == Success(0) <==> held < MinimumHoldingForShare(ratio)
  {
    var o, n := ratio.owned, ratio.new_;
    var q := (o - 1) / n;
    EntitlementFloor(held, ratio, 0);
    QuotientUnique(o - 1, n, q);
    if held <= q {
      MulMonotone(held, q, n);
    } else {
      MulMonotone(q + 1, held, n);
    }
  }

  /** The cash guard refuses exactly the totals that are not exact in a float. */
  lemma {:induction false} CashTotalExact(held: int, vndPerShare: int, total: int)
    ensures CashDividendTotal(held, vndPerShare) == Success(total) <==>
              0 < held && 0 < vndPerShare && total == held * vndPerShare && total <= MAX_EXACT
  {
    if 0 < held && 0 < vndPerShare {
      var q := MAX_INT64 / vndPerShare;
      QuotientUnique(MAX_INT64, vndPerShare, q);
      if held <= q {
        MulMonotone(held, q, vndPerShare);
      } else {
        MulMonotone(q + 1, held, vndPerShare);
      }
    }
  }

  lemma {:induction false} HoldingGuardExact(held: int, newShares: int, final: int)
    requires MIN_INT64 <= held
    ensures CheckedHoldingAfterDividend(held, newShares) == Success(final) <==>
              0 <= newShares && final == held + newShares && IsInt64(final)
  {
  }
}
