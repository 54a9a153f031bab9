/** Julian day numbers: the two conversions of the calendar module, and the calendar they are
    measured against. Years are astronomical (0 is 1 BC), as in the source. */
module JulianDay {
  import opened GoInt

  datatype Date = Date(day: int, month: int, year: int)

  const FIRST_GREGORIAN: int := 2299161

  function JdFromDate(date: Date): int
  {
    var a := Quo(14 - date.month, 12);
    var y := date.year + 4800 - a;
    var m := date.month + 12 * a - 3;
    var e := date.day + Quo(153 * m + 2, 5) + 365 * y + Quo(y, 4);
    var jd := e - Quo(y, 100) + Quo(y, 400) - 32045;
    if jd < FIRST_GREGORIAN then e - 32083 else jd
  }

  function JdToDate(jd: int): Date
  {
    var b := if jd > FIRST_GREGORIAN - 1 then Quo(4 * (jd + 32044) + 3, 146097) else 0;
    var c := if jd > FIRST_GREGORIAN - 1 then jd + 32044 - Quo(b * 146097, 4) else jd + 32082;
    var d := Quo(4 * c + 3, 1461);
    var e := c - Quo(1461 * d, 4);
    var m := Quo(5 * e + 2, 153);
    Date(e - Quo(153 * m + 2, 5) + 1, m + 3 - 12 * Quo(m, 10), b * 100 + d - 4800 + Quo(m, 10))
  }

  // ----- The calendar itself, independent of the formulas -----

  /** Dates from 15 October 1582 on are Gregorian, earlier ones Julian. */
  predicate IsGregorian(date: Date) {
    date.year > 1582
    || (date.year == 1582 && (date.month > 10 || (date.month == 10 && date.day >= 15)))
  }

  predicate IsLeap(year: int, gregorian: bool) {
    year % 4 == 0 && (gregorian ==> year % 100 != 0 || year % 400 == 0)
  }

  function DaysInMonth(month: int, leap: bool): int {
    if month == 2 then (if leap then 29 else 28)
    else if month == 4 || month == 6 || month == 9 || month == 11 then 30
    else 31
  }

  /** The ten days dropped when the Gregorian calendar began. */
  predicate InGap(date: Date) {
    date.year == 1582 && date.month == 10 && 5 <= date.day <= 14
  }

  predicate IsDate(date: Date) {
    && -4712 <= date.year
    && 1 <= date.month <= 12
    && 1 <= date.day <= DaysInMonth(date.month, IsLeap(date.year, IsGregorian(date)))
    && !InGap(date)
  }

  function NextDay(date: Date): Date {
    if date == Date(4, 10, 1582) then Date(15, 10, 1582)
    else if date.day < DaysInMonth(date.month, IsLeap(date.year, IsGregorian(date))) then date.(day := date.day + 1)
    else if date.month < 12 then Date(1, date.month + 1, date.year)
    else Date(1, 1, date.year + 1)
  }

  // ----- Years that begin on 1 March -----

  /** Days before shifted month m, and before shifted year y, counted from a 1 March. */
  function MonthDays(m: int): int { (153 * m + 2) / 5 }
  function JulianDays(y: int): int { 365 * y + y / 4 }
  function GregorianDays(y: int): int { 365 * y + y / 4 - y / 100 + y / 400 }

  function ShiftedMonth(date: Date): int { if date.month > 2 then date.month - 3 else date.month + 9 }
  function ShiftedYear(date: Date): int { date.year + 4800 - (if date.month > 2 then 0 else 1) }
  function DayOfYear(date: Date): int { date.day - 1 + MonthDays(ShiftedMonth(date)) }

  /** The date on day e of shifted year y. */
  function Unshift(y: int, e: int): Date {
    var m := (5 * e + 2) / 153;
    if m < 10 then Date(e - MonthDays(m) + 1, m + 3, y - 4800)
    else Date(e - MonthDays(m) + 1, m - 9, y - 4799)
  }

  lemma FromDateByYear(date: Date)
    requires 1 <= date.month <= 12 && 0 <= ShiftedYear(date)
    ensures var y := ShiftedYear(date);
            var g := DayOfYear(date) + GregorianDays(y) - 32044;
            JdFromDate(date) == if g < FIRST_GREGORIAN then DayOfYear(date) + JulianDays(y) - 32082 else g
  {
    assert Quo(14 - date.month, 12) == if date.month > 2 then 0 else 1;
    hide IsDate;
  }

  /** A day count splits in one way into a Julian year and a day of it. */
  lemma JulianSplit(c: int, y: int)
    requires 0 <= c && 0 <= y
    ensures var d := (4 * c + 3) / 1461;
            && JulianDays(d) == (1461 * d) / 4 <= c < JulianDays(d + 1)
            && (JulianDays(y) <= c < JulianDays(y + 1) ==> d == y && c <= JulianDays(y) + 365)
  {
  }

  /** A century number splits off in one way, leaving the Julian rule inside the century. */
  lemma CenturySplit(a: int)
    requires 0 <= a
    ensures var b := (4 * a + 3) / 146097;
            var c := a - (b * 146097) / 4;
            && 0 <= b && 0 <= c <= 36524 && (c == 36524 ==> b % 4 == 3)
  {
  }

  function Century(a: int): int { (4 * a + 3) / 146097 }
  function YearOfCentury(a: int): int { (4 * (a - (Century(a) * 146097) / 4) + 3) / 1461 }

  lemma GregorianSplit(a: int)
    requires 0 <= a
    ensures var y := 100 * Century(a) + YearOfCentury(a);
            && 0 <= y
            && GregorianDays(y) <= a < GregorianDays(y + 1)
            && GregorianDays(y) == (Century(a) * 146097) / 4 + (1461 * YearOfCentury(a)) / 4
  {
    hide GregorianDays, Century, YearOfCentury, JulianDays;
    var b, d := Century(a), YearOfCentury(a);
    CenturyParts(a);
    CenturyDays(b, d);
    if d == 99 {
      CenturyDays(b + 1, 0);
      assert 100 * (b + 1) + 0 == 100 * b + d + 1;
    } else {
      CenturyDays(b, d + 1);
      assert 100 * b + (d + 1) == 100 * b + d + 1;
    }
  }

  lemma CenturyParts(a: int)
    requires 0 <= a
    ensures var b, d := Century(a), YearOfCentury(a);
            && 0 <= b && 0 <= d <= 99
            && 0 <= a - (b * 146097) / 4 - (1461 * d) / 4 <= 365
            && (d < 99 ==> a < (b * 146097) / 4 + (1461 * (d + 1)) / 4)
            && (d == 99 ==> a < ((b + 1) * 146097) / 4)
  {
    CenturySplit(a);
    CenturyStep(Century(a));
    YearInCentury(a - (Century(a) * 146097) / 4);
  }

  lemma CenturyStep(b: int)
    requires 0 <= b
    ensures ((b + 1) * 146097) / 4 == (b * 146097) / 4 + 36524 + (if b % 4 == 3 then 1 else 0)
  {
    QuarterCentury(b);
    QuarterCentury(b + 1);
  }

  lemma QuarterCentury(b: int)
    requires 0 <= b
    ensures (b * 146097) / 4 == 36524 * b + b / 4
  {
    assert b * 146097 == 4 * (36524 * b) + b;
  }

  lemma YearInCentury(c: int)
    requires 0 <= c <= 36524
    ensures var d := (4 * c + 3) / 1461;
            0 <= d <= 99 && (1461 * d) / 4 <= c < (1461 * (d + 1)) / 4 && c <= (1461 * d) / 4 + 365
  {
  }

  lemma GregorianYearUnique(a: int, y: int, z: int)
    requires 0 <= y && 0 <= z
    requires GregorianDays(y) <= a < GregorianDays(y + 1)
    requires GregorianDays(z) <= a < GregorianDays(z + 1)
    ensures y == z
  {
    if y < z {
      GregorianMonotone(y + 1, z);
    } else if z < y {
      GregorianMonotone(z + 1, y);
    }
  }

  lemma CenturyDays(b: int, d: int)
    requires 0 <= b && 0 <= d <= 99
    ensures GregorianDays(100 * b + d) == (b * 146097) / 4 + (1461 * d) / 4
  {
    assert (100 * b + d) / 4 == 25 * b + d / 4;
    assert (100 * b + d) / 100 == b;
    assert (100 * b + d) / 400 == b / 4;
  }

  lemma GregorianMonotone(y: int, z: int)
    requires 0 <= y <= z
    ensures GregorianDays(y) <= GregorianDays(z)
  {
    assert y / 4 <= z / 4 && y / 400 <= z / 400 && z / 100 - y / 100 <= z - y;
  }

  lemma ToDateJulian(jd: int, y: int)
    requires 0 <= jd < FIRST_GREGORIAN && 0 <= y
    requires JulianDays(y) <= jd + 32082 < JulianDays(y + 1)
    ensures JdToDate(jd) == Unshift(y, jd + 32082 - JulianDays(y))
  {
    var c := jd + 32082;
    JulianSplit(c, y);
    var e := c - Quo(1461 * Quo(4 * c + 3, 1461), 4);
    assert e == c - JulianDays(y);
    hide JulianDays, Unshift;
    UnshiftQuo(y, e);
  }

  lemma ToDateParts(jd: int)
    requires FIRST_GREGORIAN <= jd
    ensures var a := jd + 32044;
            var e := a - (Century(a) * 146097) / 4 - (1461 * YearOfCentury(a)) / 4;
            JdToDate(jd) == Unshift(100 * Century(a) + YearOfCentury(a), e)
  {
    hide Unshift;
    var a := jd + 32044;
    CenturyParts(a);
    CenturySplit(a);
    QuoCentury(a);
    hide Century, YearOfCentury, Quo;
    UnshiftQuo(100 * Century(a) + YearOfCentury(a), a - (Century(a) * 146097) / 4 - (1461 * YearOfCentury(a)) / 4);
  }

  lemma QuoCentury(a: int)
    requires 0 <= a
    ensures var b := Quo(4 * a + 3, 146097);
            var c := a - Quo(b * 146097, 4);
            var d := Quo(4 * c + 3, 1461);
            && b == Century(a) && c == a - (b * 146097) / 4
            && d == YearOfCentury(a) && Quo(1461 * d, 4) == (1461 * d) / 4
  {
    CenturySplit(a);
    CenturyParts(a);
  }

  lemma UnshiftQuo(y: int, e: int)
    requires 0 <= e <= 365
    ensures var m := Quo(5 * e + 2, 153);
            Unshift(y, e) == Date(e - Quo(153 * m + 2, 5) + 1, m + 3 - 12 * Quo(m, 10), y - 4800 + Quo(m, 10))
  {
  }

  lemma ToDateGregorian(jd: int, y: int)
    requires FIRST_GREGORIAN <= jd && 0 <= y
    requires GregorianDays(y) <= jd + 32044 < GregorianDays(y + 1)
    ensures JdToDate(jd) == Unshift(y, jd + 32044 - GregorianDays(y))
  {
    hide JdToDate, Unshift, GregorianDays, Century, YearOfCentury;
    var a := jd + 32044;
    GregorianSplit(a);
    GregorianYearUnique(a, y, 100 * Century(a) + YearOfCentury(a));
    ToDateParts(jd);
  }

  // ----- Days of a shifted year -----

  lemma MonthSplit(e: int, m: int)
    requires 0 <= m <= 11
    ensures (5 * e + 2) / 153 == m <==> MonthDays(m) <= e < MonthDays(m + 1)
  {
  }

  lemma MonthLength(month: int)
    requires 1 <= month <= 12
    ensures var m := if month > 2 then month - 3 else month + 9;
            if month == 2 then MonthDays(m) == 337 && MonthDays(m + 1) == 367
            else MonthDays(m + 1) - MonthDays(m) == DaysInMonth(month, true) && MonthDays(m + 1) <= 337
  {
  }

  lemma UnshiftDay(y: int, e: int)
    requires 0 <= e <= 365
    ensures var date := Unshift(y, e);
            && 1 <= date.month <= 12
            && ShiftedYear(date) == y && DayOfYear(date) == e
            && 1 <= date.day <= DaysInMonth(date.month, true)
            && (date.month == 2 && date.day == 29 <==> e == 365)
  {
    var m := (5 * e + 2) / 153;
    MonthSplit(e, m);
    MonthLength(Unshift(y, e).month);
    hide MonthDays;
  }

  lemma UnshiftShift(date: Date)
    requires 1 <= date.month <= 12 && 1 <= date.day <= DaysInMonth(date.month, true)
    ensures 0 <= DayOfYear(date) <= 365
    ensures DayOfYear(date) == 365 <==> date.month == 2 && date.day == 29
    ensures Unshift(ShiftedYear(date), DayOfYear(date)) == date
  {
    MonthLength(date.month);
    MonthSplit(DayOfYear(date), ShiftedMonth(date));
    hide MonthDays;
  }

  /** A shifted year has a 366th day exactly when the next calendar year is a leap year. */
  lemma YearLength(y: int)
    requires 0 <= y
    ensures JulianDays(y + 1) - JulianDays(y) == if IsLeap(y - 4799, false) then 366 else 365
    ensures GregorianDays(y + 1) - GregorianDays(y) == if IsLeap(y - 4799, true) then 366 else 365
  {
    JulianLength(y);
    GregorianLength(y);
    hide JulianDays, GregorianDays, IsLeap;
  }

  lemma JulianLength(y: int)
    requires 0 <= y
    ensures JulianDays(y + 1) - JulianDays(y) == if IsLeap(y - 4799, false) then 366 else 365
  {
    Step4(y);
  }

  lemma GregorianLength(y: int)
    requires 0 <= y
    ensures GregorianDays(y + 1) - GregorianDays(y) == if IsLeap(y - 4799, true) then 366 else 365
  {
    Step4(y);
    Step100(y);
    Step400(y);
    Multiples(y - 4799);
  }

  lemma Multiples(y: int)
    ensures y % 400 == 0 ==> y % 100 == 0
    ensures y % 100 == 0 ==> y % 4 == 0
  {
  }

  lemma Step4(y: int)
    requires 0 <= y
    ensures (y + 1) / 4 - y / 4 == if (y - 4799) % 4 == 0 then 1 else 0
  {
  }

  lemma Step100(y: int)
    requires 0 <= y
    ensures (y + 1) / 100 - y / 100 == if (y - 4799) % 100 == 0 then 1 else 0
  {
  }

  lemma Step400(y: int)
    requires 0 <= y
    ensures (y + 1) / 400 - y / 400 == if (y - 4799) % 400 == 0 then 1 else 0
  {
  }

  /** The reform cuts the day count where it cuts the calendar. */
  lemma ReformCut(date: Date)
    requires 1 <= date.month <= 12 && 1 <= date.day <= DaysInMonth(date.month, true) && 0 <= ShiftedYear(date)
    ensures var g := DayOfYear(date) + GregorianDays(ShiftedYear(date)) - 32044;
            var j := DayOfYear(date) + JulianDays(ShiftedYear(date)) - 32082;
            && (IsGregorian(date) <==> FIRST_GREGORIAN <= g)
            && (!IsGregorian(date) && !InGap(date) <==> j < FIRST_GREGORIAN)
  {
    UnshiftShift(date);
    if ShiftedYear(date) == 6382 {
      ReformYear(date);
    } else {
      OtherYear(ShiftedYear(date), DayOfYear(date));
      hide DayOfYear, GregorianDays, JulianDays;
    }
  }

  lemma ReformYear(date: Date)
    requires 1 <= date.month <= 12 && 1 <= date.day <= DaysInMonth(date.month, true) && ShiftedYear(date) == 6382
    ensures GregorianDays(6382) - 32044 == 2298933 && JulianDays(6382) - 32082 == 2298943
    ensures IsGregorian(date) <==> 228 <= DayOfYear(date)
    ensures !IsGregorian(date) && !InGap(date) <==> DayOfYear(date) < 218
  {
  }

  lemma OtherYear(y: int, e: int)
    requires 0 <= y && 0 <= e <= 365 && y != 6382
    ensures y < 6382 ==> e + GregorianDays(y) - 32044 < FIRST_GREGORIAN && e + JulianDays(y) - 32082 < FIRST_GREGORIAN
    ensures y > 6382 ==> FIRST_GREGORIAN <= e + GregorianDays(y) - 32044 && FIRST_GREGORIAN <= e + JulianDays(y) - 32082
  {
    if y < 6382 {
      GregorianMonotone(y, 6381);
    } else {
      GregorianMonotone(6383, y);
    }
  }

  lemma EpochYear(date: Date)
    requires 1 <= date.month <= 12 && 1 <= date.day <= DaysInMonth(date.month, true) && 0 <= ShiftedYear(date)
    ensures 0 <= DayOfYear(date) + JulianDays(ShiftedYear(date)) - 32082 <==> -4712 <= date.year
  {
  }

  // ----- Main results -----

  /** Every day number from 0 on is a calendar date, and converts back to itself. */
  lemma {:induction false} JdRoundTrip(jd: int)
    requires 0 <= jd
    ensures IsDate(JdToDate(jd)) && JdFromDate(JdToDate(jd)) == jd
    ensures FIRST_GREGORIAN <= jd <==> IsGregorian(JdToDate(jd))
  {
    var y, e := SplitJd(jd);
    hide JdToDate, JdFromDate, Unshift, GregorianDays, JulianDays, DayOfYear, IsGregorian, IsLeap;
    var date := JdToDate(jd);
    UnshiftDay(y, e);
    FromDateByYear(date);
    ReformCut(date);
    EpochYear(date);
  }

  /** The shifted year of a day number, and the day of that year. */
  lemma SplitJd(jd: int) returns (y: int, e: int)
    requires 0 <= jd
    ensures 0 <= y && 0 <= e && JdToDate(jd) == Unshift(y, e)
    ensures jd == if jd < FIRST_GREGORIAN then e + JulianDays(y) - 32082 else e + GregorianDays(y) - 32044
    ensures e < if IsLeap(y - 4799, FIRST_GREGORIAN <= jd) then 366 else 365
  {
    hide JdToDate, Unshift, GregorianDays, JulianDays, Century, YearOfCentury, IsLeap;
    if jd < FIRST_GREGORIAN {
      y := (4 * (jd + 32082) + 3) / 1461;
      JulianSplit(jd + 32082, y);
      e := jd + 32082 - JulianDays(y);
      ToDateJulian(jd, y);
    } else {
      var a := jd + 32044;
      y := 100 * Century(a) + YearOfCentury(a);
      GregorianSplit(a);
      e := a - GregorianDays(y);
      ToDateGregorian(jd, y);
    }
    YearLength(y);
  }

  /** A date with a day number from 0 on survives the trip exactly when it is on the calendar: the
      ten dropped days of October 1582 come back as ten other dates. */
  lemma {:induction false} DateRoundTrip(date: Date)
    ensures IsDate(date) <==> 0 <= JdFromDate(date) && JdToDate(JdFromDate(date)) == date
  {
    var jd := JdFromDate(date);
    hide JdToDate, JdFromDate, Unshift, GregorianDays, JulianDays, DayOfYear, IsGregorian, IsLeap;
    if 0 <= jd && JdToDate(jd) == date {
      JdRoundTrip(jd);
    }
    if IsDate(date) {
      var y := ShiftedYear(date);
      FromDateByYear(date);
      UnshiftShift(date);
      ReformCut(date);
      EpochYear(date);
      YearLength(y);
      if IsGregorian(date) {
        ToDateGregorian(jd, y);
      } else {
        ToDateJulian(jd, y);
      }
    }
  }

  /** The next day is the next day of its shifted year, or the first of the next one. */
  lemma NextDayShift(date: Date)
    requires IsDate(date) && date != Date(4, 10, 1582)
    ensures var next := NextDay(date);
            var length := if IsLeap(ShiftedYear(date) - 4799, IsGregorian(date)) then 366 else 365;
            && 1 <= next.month <= 12 && 1 <= next.day <= DaysInMonth(next.month, IsLeap(next.year, IsGregorian(next)))
            && -4712 <= next.year && !InGap(next) && IsGregorian(next) == IsGregorian(date)
            && (if DayOfYear(date) + 1 < length then
                  ShiftedYear(next) == ShiftedYear(date) && DayOfYear(next) == DayOfYear(date) + 1
                else
                  ShiftedYear(next) == ShiftedYear(date) + 1 && DayOfYear(next) == 0 && DayOfYear(date) + 1 == length)
  {
  }

  /** Day numbers count the days of the calendar, one by one, from 1 January 4713 BC. */
  lemma {:induction false} JdCountsDays(date: Date)
    requires IsDate(date)
    ensures IsDate(NextDay(date)) && JdFromDate(NextDay(date)) == JdFromDate(date) + 1
    ensures JdFromDate(Date(1, 1, -4712)) == 0
  {
    if date != Date(4, 10, 1582) {
      NextDayJd(date);
    }
  }

  lemma NextDayJd(date: Date)
    requires IsDate(date) && date != Date(4, 10, 1582)
    ensures IsDate(NextDay(date)) && JdFromDate(NextDay(date)) == JdFromDate(date) + 1
  {
    NextDayShift(date);
    var next := NextDay(date);
    hide JdFromDate, NextDay, GregorianDays, JulianDays, IsLeap, IsGregorian, DayOfYear;
    FromDateByYear(date);
    FromDateByYear(next);
    ReformCut(date);
    ReformCut(next);
    YearLength(ShiftedYear(date));
  }
}
