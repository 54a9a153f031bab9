/** Decimal text of integers, as strconv prints and parses it. */
module Decimal {
  import opened GoInt
  import opened Wrappers

  predicate IsDigit(c: char) { '0' <= c <= '9' }
  function Digit(d: int): char requires 0 <= d < 10 { '0' + d as char }
  predicate AllDigits(s: string) { forall i :: 0 <= i < |s| ==> IsDigit(s[i]) }

  function Digits(n: nat): (s: string)
    ensures |s| > 0 && AllDigits(s)
  {
    if n < 10 then [Digit(n)] else Digits(n / 10) + [Digit(n % 10)]
  }

  function Itoa(n: int): string { if n < 0 then "-" + Digits(-n) else Digits(n) }

  function ParseDigits(s: string): nat
    requires AllDigits(s)
  {
    if s == "" then 0 else 10 * ParseDigits(s[..|s| - 1]) + (s[|s| - 1] - '0') as int
  }

  /** ParseInt in base 10: an optional sign, at least one digit, and a 64-bit value. */
  function ParseInt64(s: string): Option<int> {
    var signed := |s| > 0 && (s[0] == '-' || s[0] == '+');
    var digits := if signed then s[1..] else s;
    if digits == "" || !AllDigits(digits) then None
    else
      var n: int := if signed && s[0] == '-' then -(ParseDigits(digits) as int) else ParseDigits(digits);
      if MIN_INT64 <= n <= MAX_INT64 then Some(n) else None
  }

  lemma {:induction false} ParseOfDigits(n: nat)
    ensures ParseDigits(Digits(n)) == n
  {
    if n >= 10 {
      ParseOfDigits(n / 10);
      assert Digits(n)[..|Digits(n)| - 1] == Digits(n / 10);
    } else {
      assert Digits(n)[..0] == "";
    }
  }

  /** Printing a 64-bit integer loses nothing. */
  lemma {:induction false} ParseOfItoa(n: int)
    requires MIN_INT64 <= n <= MAX_INT64
    ensures ParseInt64(Itoa(n)) == Some(n)
  {
    ParseOfDigits(if n < 0 then -n else n);
    if n < 0 {
      assert Itoa(n)[1..] == Digits(-n);
    } else {
      assert IsDigit(Digits(n)[0]);
    }
  }

  lemma {:induction false} ItoaInjective(m: int, n: int)
    requires Itoa(m) == Itoa(n)
    ensures m == n
  {
    ParseOfDigits(if m < 0 then -m else m);
    ParseOfDigits(if n < 0 then -n else n);
    assert IsDigit(Digits(if m < 0 then -m else m)[0]) && IsDigit(Digits(if n < 0 then -n else n)[0]);
    if m < 0 && n < 0 {
      assert Itoa(m)[1..] == Digits(-m) && Itoa(n)[1..] == Digits(-n);
    }
  }

  /** A number is digits with at most a sign in front, so no separator occurs in it. */
  lemma ItoaChars(n: int)
    ensures |Itoa(n)| > 0
    ensures forall i :: 0 <= i < |Itoa(n)| ==> IsDigit(Itoa(n)[i]) || Itoa(n)[i] == '-'
  {
  }

  function Pow10(k: nat): nat { if k == 0 then 1 else 10 * Pow10(k - 1) }

  lemma {:induction false} DigitsLength(n: nat, k: nat)
    requires 1 <= k && n < Pow10(k)
    ensures |Digits(n)| <= k
  {
    if n >= 10 {
      assert Pow10(1) == 10;
      DigitsLength(n / 10, k - 1);
    }
  }

  lemma ItoaLength(n: int)
    requires MIN_INT64 <= n <= MAX_INT64
    ensures |Itoa(n)| <= 20
  {
    assert Pow10(10) == 10_000_000_000 && Pow10(19) == 10_000_000_000_000_000_000;
    DigitsLength(if n < 0 then -n else n, 19);
  }

  /** The position of the first occurrence of c, or the length. */
  function Find(s: string, c: char): (n: nat)
    ensures n <= |s| && (n < |s| ==> s[n] == c) && forall i :: 0 <= i < n ==> s[i] != c
  {
    if s == "" || s[0] == c then 0 else 1 + Find(s[1..], c)
  }

  lemma FindSeparator(n: int, separator: char, s: string)
    requires !IsDigit(separator) && separator != '-'
    ensures Find(Itoa(n) + [separator] + s, separator) == |Itoa(n)|
  {
    ItoaChars(n);
    var whole := Itoa(n) + [separator] + s;
    assert whole[|Itoa(n)|] == separator;
    forall i | 0 <= i < |Itoa(n)| ensures whole[i] != separator {
      assert whole[i] == Itoa(n)[i];
    }
  }

  /** Two numbers followed by the same separator are found again: neither text can reach past it. */
  lemma {:induction false} ItoaPrefix(m: int, n: int, separator: char, s: string, t: string)
    requires !IsDigit(separator) && separator != '-'
    requires Itoa(m) + [separator] + s == Itoa(n) + [separator] + t
    ensures m == n && s == t
  {
    FindSeparator(m, separator, s);
    FindSeparator(n, separator, t);
    var whole := Itoa(m) + [separator] + s;
    assert Itoa(m) == whole[..|Itoa(m)|] && Itoa(n) == whole[..|Itoa(n)|];
    ItoaInjective(m, n);
    assert s == whole[|Itoa(m)| + 1..] == t;
  }
}
