/** The Vietnamese lunar calendar over an abstract sky: conversions both ways, as the source
    computes them, against a direct definition of how lunar months are named. */
module LunarCalendar {
  import opened GoInt
  import opened JulianDay

  const CYCLE: real := 29.530588853
  const EPOCH: real := 2415021.076998695

  /** The astronomy: the local day of the k-th new moon, and how many major solar terms have
      passed by the midnight that begins a day; and the years between which it is relied on. */
  datatype Sky = Sky(newMoon: int -> int, terms: int -> int, from: int, to: int) {
    function SunIndex(day: int): int { terms(day) % 12 }
  }

  datatype LunarDate = LunarDate(day: int, month: int, year: int, leap: bool)

  datatype Conversion =
    | Solar(date: Date)
    | NoSuchLeapMonth
    | NoLeapMonth
    | ShortMonth(days: int)

  // ----- What the sky is taken to do -----

  function MeanMoon(k: int): real { EPOCH + CYCLE * k as real }
  function December(day: int, year: int): int { JdFromDate(Date(day, 12, year)) }

  /** The last mean new moon up to a day, as the source counts it. */
  function MeanIndex(day: int): int { ((day - 2415021) as real / CYCLE).Floor }

  /** The lunations relied on: three to either side of the last Decembers. */
  predicate Known(sky: Sky, k: int) {
    MeanIndex(December(31, sky.from)) - 3 <= k <= MeanIndex(December(31, sky.to)) + 3
  }

  /** The days relied on, with room for those lunations and two months more. */
  predicate InDays(sky: Sky, day: int) { December(31, sky.from) - 200 <= day <= December(31, sky.to) + 200 }

  ghost predicate MoonStep(sky: Sky, k: int) {
    Known(sky, k) && Known(sky, k + 1) ==> 29 <= sky.newMoon(k + 1) - sky.newMoon(k) <= 30
  }

  ghost predicate MoonNearMean(sky: Sky, k: int) {
    Known(sky, k) ==> -2.0 < sky.newMoon(k) as real - MeanMoon(k) < 2.0
  }

  ghost predicate TermsGrow(sky: Sky, d: int, e: int) {
    InDays(sky, d) && InDays(sky, e) && d <= e ==> sky.terms(d) <= sky.terms(e)
  }

  ghost predicate TermLasts(sky: Sky, d: int) {
    InDays(sky, d) && InDays(sky, d + 29) ==> sky.terms(d + 29) <= sky.terms(d) + 1
  }

  ghost predicate SolsticeInDecember(sky: Sky, year: int) {
    sky.from <= year <= sky.to ==> sky.terms(December(20, year)) < 12 * year + 9 <= sky.terms(December(25, year))
  }

  /** Between the years relied on: months last 29 or 30 days and stay within two days of the mean moon;
      the sun never turns back, spends at least 29 days in a major term, and reaches the winter solstice
      (the ninth term of its year) late in December. */
  ghost predicate Regular(sky: Sky) {
    && 1583 <= sky.from < sky.to
    && (forall k :: MoonStep(sky, k))
    && (forall k :: MoonNearMean(sky, k))
    && (forall d, e :: TermsGrow(sky, d, e))
    && (forall d :: TermLasts(sky, d))
    && (forall year :: SolsticeInDecember(sky, year))
  }

  // ----- How months are named, without reference to the code -----

  ghost predicate Holds(sky: Sky, t: int, jd: int) { sky.newMoon(t) <= jd < sky.newMoon(t + 1) }

  /** The last day whose midnight comes before the winter solstice of the year. */
  ghost predicate IsSolstice(sky: Sky, year: int, day: int) {
    sky.terms(day) < 12 * year + 9 <= sky.terms(day + 1)
  }

  /** Sui s runs from the month of the solstice of s - 1 to the month before that of s. */
  ghost predicate InSui(sky: Sky, t: int, sui: int) {
    sky.from < sui <= sky.to && Month11Index(sky, sui - 1) <= t < Month11Index(sky, sui)
  }

  ghost predicate NoTermChange(sky: Sky, t: int) {
    sky.terms(sky.newMoon(t)) == sky.terms(sky.newMoon(t + 1))
  }

  ghost predicate Thirteen(sky: Sky, sui: int) {
    Month11Index(sky, sui) - Month11Index(sky, sui - 1) == 13
  }

  /** Whether the leap month of the sui is its n-th month or an earlier one. */
  ghost predicate LeapBy(sky: Sky, sui: int, n: int) {
    var k := Month11Index(sky, sui - 1);
    Thirteen(sky, sui) && exists t :: k < t <= k + n && NoTermChange(sky, t)
  }

  /** Months go 11, 12, 1, ..., 10; the leap month repeats the number before it, and 11 and 12
      still belong to the year before. */
  ghost function Name(sky: Sky, sui: int, t: int, jd: int): LunarDate {
    var n := t - Month11Index(sky, sui - 1);
    var m := if LeapBy(sky, sui, n) then n - 1 else n;
    LunarDate(jd - sky.newMoon(t) + 1, (m + 10) % 12 + 1, if m < 2 then sui - 1 else sui,
              LeapBy(sky, sui, n) && !LeapBy(sky, sui, n - 1))
  }

  ghost predicate Names(sky: Sky, jd: int, lunar: LunarDate) {
    exists t, sui :: Holds(sky, t, jd) && InSui(sky, t, sui) && lunar == Name(sky, sui, t, jd)
  }

  // ----- The source's functions -----

  function Month11Index(sky: Sky, year: int): int {
    var k := MeanIndex(December(31, year));
    if sky.SunIndex(sky.newMoon(k)) >= 9 then k - 1 else k
  }

  function LunarMonth11(sky: Sky, year: int): int { sky.newMoon(Month11Index(sky, year)) }

  function NearestMoon(day: int): int { ((day as real - EPOCH) / CYCLE + 0.5).Floor }

  function LeapScan(sky: Sky, k: int, i: int): (offset: int)
    requires 1 <= i <= 13
    ensures i <= offset <= 13
    decreases 13 - i
  {
    if i == 13 || sky.SunIndex(sky.newMoon(k + i + 1)) == sky.SunIndex(sky.newMoon(k + i)) then i
    else LeapScan(sky, k, i + 1)
  }

  function LeapMonthOffset(sky: Sky, a11: int): int { LeapScan(sky, NearestMoon(a11), 1) }

  method GetLeapMonthOffset(sky: Sky, a11: int) returns (offset: int)
    ensures offset == LeapMonthOffset(sky, a11)
  {
    hide NearestMoon;
    var k := NearestMoon(a11);
    var i := 1;
    var arc := sky.SunIndex(sky.newMoon(k + i));
    while true
      invariant 1 <= i <= 13
      invariant arc == sky.SunIndex(sky.newMoon(k + i))
      invariant LeapScan(sky, k, 1) == LeapScan(sky, k, i)
      decreases 14 - i
    {
      var last := arc;
      i := i + 1;
      arc := sky.SunIndex(sky.newMoon(k + i));
      if arc == last || i >= 14 {
        break;
      }
    }
    return i - 1;
  }

  /** solarToLunar: the step back to the month that holds the day, then the naming. */
  method SolarToLunar(sky: Sky, date: Date) returns (lunar: LunarDate)
    requires Regular(sky) && IsDate(date) && sky.from < date.year < sky.to
    ensures Names(sky, JdFromDate(date), lunar)
    ensures 1 <= lunar.day <= 30 && 1 <= lunar.month <= 12
  {
    hide JdFromDate, December, Month11Index, Regular, LeapMonthOffset, IsDate, Name, InSui, Thirteen;
    hide MoonNearMean, MeanMoon;
    hide Known, MeanIndex;
    var dayNumber := JdFromDate(date);
    var k := ((dayNumber as real - EPOCH) / CYCLE).Floor;
    var monthStart := sky.newMoon(k + 1);
    ghost var mean := k;
    DateKnown(sky, date, k);
    KnownBetween(sky, mean, k + 1);
    MeanMoonBefore(sky, dayNumber, k);
    while monthStart > dayNumber
      invariant mean - 2 <= k <= mean
      invariant monthStart == sky.newMoon(k + 1)
      invariant dayNumber < sky.newMoon(k + 2)
      decreases monthStart - dayNumber
    {
      KnownBetween(sky, mean, k);
      MoonSpan(sky, k, 1);
      k := k - 1;
      monthStart := sky.newMoon(k + 1);
    }
    ghost var t := k + 1;
    KnownBetween(sky, mean, k);
    KnownBetween(sky, mean, k + 1);
    var a11 := LunarMonth11(sky, date.year);
    var b11 := a11;
    var year;
    MoonSpan(sky, t, 1);
    Month11Known(sky, date.year);
    MoonOrder(sky, Month11Index(sky, date.year), t);
    if a11 >= monthStart {
      year := date.year;
      a11 := LunarMonth11(sky, date.year - 1);
    } else {
      year := date.year + 1;
      b11 := LunarMonth11(sky, date.year + 1);
    }
    ghost var sui := FindSui(sky, date, t);
    NameFrom(sky, year, sui, t, dayNumber);
    var day := dayNumber - monthStart + 1;
    var diff := Quo(monthStart - a11, 29);
    var month := diff + 11;
    var leap := false;
    if b11 - a11 > 365 {
      var leapMonthDiff := GetLeapMonthOffset(sky, a11);
      if diff >= leapMonthDiff {
        month := diff + 10;
        if diff == leapMonthDiff {
          leap := true;
        }
      }
    }
    if month > 12 {
      month := month - 12;
    }
    if month >= 11 && diff < 4 {
      year := year - 1;
    }
    return LunarDate(day, month, year, leap);
  }

  function LunarToSolar(sky: Sky, lunar: LunarDate): Conversion
  {
    var a11 := LunarMonth11(sky, if lunar.month < 11 then lunar.year - 1 else lunar.year);
    var b11 := LunarMonth11(sky, if lunar.month < 11 then lunar.year else lunar.year + 1);
    var k := NearestMoon(a11);
    var off := if lunar.month < 11 then lunar.month - 11 + 12 else lunar.month - 11;
    if b11 - a11 > 365 then
      var leapOff := LeapMonthOffset(sky, a11);
      var leapMonth := if leapOff < 2 then leapOff - 2 + 12 else leapOff - 2;
      if lunar.leap && lunar.month != leapMonth then NoSuchLeapMonth
      else DayOfMonth(sky, k + (if lunar.leap || off >= leapOff then off + 1 else off), lunar.day)
    else if lunar.leap then NoLeapMonth
    else DayOfMonth(sky, k + off, lunar.day)
  }

  function DayOfMonth(sky: Sky, t: int, day: int): Conversion {
    var monthStart := sky.newMoon(t);
    var monthDays := sky.newMoon(t + 1) - monthStart;
    if day > monthDays then ShortMonth(monthDays) else Solar(JdToDate(monthStart + day - 1))
  }

  // ----- Counting lunations -----

  lemma MeanMoonAround(jd: int, k: int)
    requires k == ((jd as real - EPOCH) / CYCLE).Floor
    ensures MeanMoon(k) <= jd as real < MeanMoon(k + 1)
  {
  }

  lemma MeanIndexAround(day: int)
    ensures day as real - 29.5 < MeanMoon(MeanIndex(day)) < day as real + 0.1
  {
  }

  lemma MeanMoonOrder(k: int, t: int)
    requires k <= t
    ensures MeanMoon(t) - MeanMoon(k) == CYCLE * (t - k) as real
  {
  }

  lemma MoonSpan(sky: Sky, k: int, n: nat)
    requires Regular(sky) && Known(sky, k) && Known(sky, k + n)
    ensures 29 * n <= sky.newMoon(k + n) - sky.newMoon(k) <= 30 * n
  {
    hide MeanIndex, December;
    if n > 0 {
      MoonSpan(sky, k, n - 1);
      assert MoonStep(sky, k + n - 1);
    }
  }

  lemma MoonOrder(sky: Sky, k: int, t: int)
    requires Regular(sky) && Known(sky, k) && Known(sky, t)
    ensures sky.newMoon(k) < sky.newMoon(t) <==> k < t
  {
    hide Regular, Known;
    if k < t {
      MoonSpan(sky, k, t - k);
    } else {
      MoonSpan(sky, t, k - t);
    }
  }

  lemma HoldsOnce(sky: Sky, t: int, u: int, jd: int)
    requires Regular(sky) && Holds(sky, t, jd) && Holds(sky, u, jd)
    requires Known(sky, t) && Known(sky, t + 1) && Known(sky, u) && Known(sky, u + 1)
    ensures t == u
  {
    hide Regular, Known;
    MoonOrder(sky, t, u + 1);
    MoonOrder(sky, u, t + 1);
  }

  lemma NearestMoonExact(sky: Sky, k: int)
    requires Regular(sky) && Known(sky, k)
    ensures NearestMoon(sky.newMoon(k)) == k
  {
    hide Known, MeanIndex, December;
    assert MoonNearMean(sky, k);
  }

  /** Dividing by 29 counts the months exactly, up to 28 of them. */
  lemma LunationCount(sky: Sky, k: int, t: int)
    requires Regular(sky) && 0 <= t - k <= 28 && Known(sky, k) && Known(sky, t)
    ensures Quo(sky.newMoon(t) - sky.newMoon(k), 29) == t - k
  {
    hide Regular, Known;
    MoonSpan(sky, k, t - k);
  }

  /** The months relied on begin well within the days relied on. */
  lemma MoonInDays(sky: Sky, k: int)
    requires Regular(sky) && Known(sky, k)
    ensures December(31, sky.from) - 130 <= sky.newMoon(k) <= December(31, sky.to) + 130
  {
    hide MeanMoon, MeanIndex, December;
    assert MoonNearMean(sky, k);
    var first, last := MeanIndex(December(31, sky.from)), MeanIndex(December(31, sky.to));
    MeanIndexAround(December(31, sky.from));
    MeanIndexAround(December(31, sky.to));
    MeanMoonOrder(first - 3, first);
    MeanMoonOrder(first - 3, k);
    MeanMoonOrder(last, last + 3);
    MeanMoonOrder(k, last + 3);
  }

  // ----- Years and solstices -----

  lemma Decembers(year: int)
    requires 1583 <= year
    ensures December(20, year) == December(31, year) - 11 && December(25, year) == December(31, year) - 6
    ensures 365 <= December(31, year) - December(31, year - 1) <= 366
  {
    var last := Date(31, 12, year);
    YearLength(ShiftedYear(last) - 1);
    FromDateByYear(last);
    FromDateByYear(Date(20, 12, year));
    FromDateByYear(Date(25, 12, year));
    FromDateByYear(Date(31, 12, year - 1));
    ReformCut(last);
    ReformCut(Date(20, 12, year));
    ReformCut(Date(25, 12, year));
    ReformCut(Date(31, 12, year - 1));
  }

  lemma YearSpan(date: Date)
    requires IsDate(date) && 1583 <= date.year
    ensures December(31, date.year - 1) < JdFromDate(date) <= December(31, date.year)
  {
    hide JdFromDate, GregorianDays, JulianDays;
    var last := Date(31, 12, date.year);
    var before := Date(31, 12, date.year - 1);
    YearLength(ShiftedYear(last) - 1);
    FromDateByYear(date);
    FromDateByYear(last);
    FromDateByYear(before);
    ReformCut(date);
    ReformCut(last);
    ReformCut(before);
    UnshiftShift(date);
  }

  lemma DecemberOrder(y: int, z: int)
    requires 1583 <= y <= z
    ensures December(31, y) + 365 * (z - y) <= December(31, z)
    decreases z - y
  {
    hide December;
    if y < z {
      DecemberOrder(y, z - 1);
      Decembers(z);
    }
  }

  lemma MeanIndexOrder(d: int, e: int)
    requires d <= e
    ensures MeanIndex(d) <= MeanIndex(e)
  {
  }

  /** The eleventh months of the years relied on are known, with their neighbours. */
  lemma Month11Known(sky: Sky, year: int)
    requires Regular(sky) && sky.from <= year <= sky.to
    ensures var k := MeanIndex(December(31, year)); Known(sky, k - 2) && Known(sky, k + 2)
    ensures var k := Month11Index(sky, year); Known(sky, k - 2) && Known(sky, k) && Known(sky, k + 3)
  {
    hide December, MeanIndex;
    DecemberOrder(sky.from, year);
    DecemberOrder(year, sky.to);
    MeanIndexOrder(December(31, sky.from), December(31, year));
    MeanIndexOrder(December(31, year), December(31, sky.to));
  }

  lemma SuiKnown(sky: Sky, t: int, sui: int)
    requires Regular(sky) && InSui(sky, t, sui)
    ensures Known(sky, t - 1) && Known(sky, t) && Known(sky, t + 1) && Known(sky, t + 2)
  {
    hide Regular, Month11Index, December, MeanIndex;
    Month11Known(sky, sui - 1);
    Month11Known(sky, sui);
  }

  lemma Solstice(sky: Sky, year: int) returns (w: int)
    requires Regular(sky) && sky.from <= year <= sky.to
    ensures IsSolstice(sky, year, w) && December(31, year) - 11 <= w <= December(31, year) - 7
  {
    hide JdFromDate;
    assert SolsticeInDecember(sky, year);
    Decembers(year);
    w := December(31, year) - 7;
    while sky.terms(w) >= 12 * year + 9
      invariant December(31, year) - 11 <= w <= December(31, year) - 7
      invariant sky.terms(w + 1) >= 12 * year + 9
      decreases w - December(31, year) + 11
    {
      w := w - 1;
    }
  }

  lemma SolsticeSplits(sky: Sky, year: int, w: int, day: int)
    requires Regular(sky) && IsSolstice(sky, year, w)
    requires InDays(sky, w) && InDays(sky, w + 1) && InDays(sky, day)
    ensures 12 * year + 9 <= sky.terms(day) <==> w < day
  {
    hide December;
    assert TermsGrow(sky, day, w);
    assert TermsGrow(sky, w + 1, day);
  }

  /** The search from 31 December finds the month of the winter solstice. */
  lemma Month11Exact(sky: Sky, year: int, w: int)
    requires Regular(sky) && sky.from <= year <= sky.to && IsSolstice(sky, year, w)
    requires December(31, year) - 11 <= w <= December(31, year) - 7
    ensures Holds(sky, Month11Index(sky, year), w)
  {
    hide December, MeanIndex, MeanMoon;
    var last := December(31, year);
    var k := MeanIndex(last);
    var nm := sky.newMoon(k);
    Month11Known(sky, year);
    MeanIndexAround(last);
    MeanMoonOrder(k, k + 1);
    DecemberOrder(sky.from, year);
    DecemberOrder(year, sky.to);
    MoonInDays(sky, k);
    assert MoonNearMean(sky, k) && MoonNearMean(sky, k + 1);
    assert MoonStep(sky, k - 1) && MoonStep(sky, k);
    assert last - 32 <= nm <= last + 2 && last - 2 < sky.newMoon(k + 1);
    assert TermLasts(sky, w) && TermLasts(sky, w - 28);
    assert TermsGrow(sky, w - 28, nm) && TermsGrow(sky, nm, w + 29);
    SolsticeSplits(sky, year, w, nm);
    assert 12 * year + 8 <= sky.terms(nm) <= 12 * year + 9;
    assert sky.SunIndex(nm) >= 9 <==> w < nm;
  }

  lemma Month11(sky: Sky, year: int) returns (w: int)
    requires Regular(sky) && sky.from <= year <= sky.to
    ensures Holds(sky, Month11Index(sky, year), w) && IsSolstice(sky, year, w)
    ensures December(31, year) - 11 <= w <= December(31, year) - 7
    ensures InDays(sky, w) && InDays(sky, w + 1)
  {
    hide December, Month11Index, IsSolstice;
    w := Solstice(sky, year);
    Month11Exact(sky, year, w);
    DecemberOrder(sky.from, year);
    DecemberOrder(year, sky.to);
  }

  /** A sui has 12 or 13 months, and the 365-day test tells which. */
  lemma SuiLength(sky: Sky, sui: int)
    requires Regular(sky) && sky.from < sui <= sky.to
    ensures 12 <= Month11Index(sky, sui) - Month11Index(sky, sui - 1) <= 13
    ensures LunarMonth11(sky, sui) - LunarMonth11(sky, sui - 1) > 365 <==> Thirteen(sky, sui)
  {
    hide December, Month11Index, MeanIndex;
    var w0 := Month11(sky, sui - 1);
    var w1 := Month11(sky, sui);
    Decembers(sui);
    var a := Month11Index(sky, sui - 1);
    var b := Month11Index(sky, sui);
    Month11Known(sky, sui - 1);
    Month11Known(sky, sui);
    assert MoonStep(sky, a) && MoonStep(sky, b);
    hide Regular, Known;
    MoonOrder(sky, a, b + 1);
    MoonSpan(sky, a, b - a);
  }

  lemma FromBefore(sky: Sky)
    requires Regular(sky)
    ensures 1583 <= sky.from
  {
  }

  lemma KnownNext(sky: Sky, k: int)
    requires Known(sky, k) && Known(sky, k + 3)
    ensures Known(sky, k + 1)
  {
  }

  /** The sui of a day of the solar year is that year's or the next. */
  lemma FindSui(sky: Sky, date: Date, t: int) returns (sui: int)
    requires Regular(sky) && IsDate(date) && sky.from < date.year < sky.to && Holds(sky, t, JdFromDate(date))
    requires Known(sky, t) && Known(sky, t + 1)
    ensures InSui(sky, t, sui)
    ensures sui == if t < Month11Index(sky, date.year) then date.year else date.year + 1
  {
    hide JdFromDate, December, Month11Index, Regular, IsSolstice, IsDate, MeanIndex, InDays, Known;
    var year := date.year;
    FromBefore(sky);
    YearSpan(date);
    Decembers(year);
    Decembers(year + 1);
    assert December(31, year - 1) + 365 <= December(31, year);
    sui := if t < Month11Index(sky, year) then year else year + 1;
    if sui == year {
      var w := Month11(sky, year - 1);
      Month11Known(sky, year - 1);
      MoonOrder(sky, Month11Index(sky, year - 1), t + 1);
    } else {
      var w := Month11(sky, year + 1);
      Month11Known(sky, year + 1);
      KnownNext(sky, Month11Index(sky, year + 1));
      MoonSpan(sky, Month11Index(sky, year + 1), 1);
      MoonOrder(sky, t, Month11Index(sky, year + 1));
    }
  }

  // ----- The leap month -----

  lemma TermIndex(sky: Sky, t: int)
    requires Regular(sky) && Known(sky, t) && Known(sky, t + 1)
    ensures sky.SunIndex(sky.newMoon(t)) == sky.SunIndex(sky.newMoon(t + 1)) <==> NoTermChange(sky, t)
    ensures sky.terms(sky.newMoon(t)) <= sky.terms(sky.newMoon(t + 1))
  {
    hide Known, December;
    MoonInDays(sky, t);
    MoonInDays(sky, t + 1);
    var d, e := sky.newMoon(t), sky.newMoon(t + 1);
    assert MoonStep(sky, t);
    assert TermsGrow(sky, d, e) && TermsGrow(sky, e, d + 58);
    assert TermLasts(sky, d) && TermLasts(sky, d + 29);
  }

  lemma LeapScanFirst(sky: Sky, k: int, i: int)
    requires Regular(sky) && 1 <= i <= 13 && Known(sky, k) && Known(sky, k + 14)
    ensures var offset := LeapScan(sky, k, i);
            && (offset < 13 ==> NoTermChange(sky, k + offset))
            && (forall t :: k + i <= t < k + offset ==> !NoTermChange(sky, t))
    decreases 13 - i
  {
    hide NoTermChange, Regular, LeapScan, MeanIndex, December;
    TermIndex(sky, k + i);
    LeapScanStep(sky, k, i);
    if i < 13 && !NoTermChange(sky, k + i) {
      LeapScanFirst(sky, k, i + 1);
    }
  }

  lemma LeapScanStep(sky: Sky, k: int, i: int)
    requires 1 <= i <= 13
    ensures LeapScan(sky, k, i) ==
              if i == 13 || sky.SunIndex(sky.newMoon(k + i + 1)) == sky.SunIndex(sky.newMoon(k + i)) then i
              else LeapScan(sky, k, i + 1)
  {
  }

  /** With a new term in each of n months, at least n terms pass. */
  lemma TermsPass(sky: Sky, k: int, n: nat)
    requires Regular(sky) && Known(sky, k) && Known(sky, k + n)
    requires forall t :: k <= t < k + n ==> !NoTermChange(sky, t)
    ensures sky.terms(sky.newMoon(k)) + n <= sky.terms(sky.newMoon(k + n))
  {
    hide Regular, MeanIndex, December;
    if n > 0 {
      TermsPass(sky, k, n - 1);
      TermIndex(sky, k + n - 1);
    }
  }

  /** In a sui of 13 months the scan finds the first month with no new term, at offset 1 to 12:
      twelve months after the solstice's cannot share eleven terms. */
  lemma {:induction false} LeapOffsetExact(sky: Sky, sui: int)
    requires Regular(sky) && sky.from < sui <= sky.to && Thirteen(sky, sui)
    ensures var k := Month11Index(sky, sui - 1);
            var offset := LeapMonthOffset(sky, LunarMonth11(sky, sui - 1));
            && 1 <= offset <= 12
            && NoTermChange(sky, k + offset)
            && (forall t :: k < t < k + offset ==> !NoTermChange(sky, t))
  {
    hide December, Month11Index, LeapScan, NearestMoon, NoTermChange, Regular, MeanIndex;
    var k := Month11Index(sky, sui - 1);
    Month11Known(sky, sui - 1);
    Month11Known(sky, sui);
    NearestMoonExact(sky, k);
    LeapScanFirst(sky, k, 1);
    if LeapScan(sky, k, 1) == 13 {
      TermsPass(sky, k + 1, 12);
      var w0 := Month11(sky, sui - 1);
      var w1 := Month11(sky, sui);
      MoonInDays(sky, k + 1);
      MoonInDays(sky, k + 13);
      SolsticeSplits(sky, sui - 1, w0, sky.newMoon(k + 1));
      SolsticeSplits(sky, sui, w1, sky.newMoon(k + 13));
    }
  }

  lemma LeapByOffset(sky: Sky, sui: int, n: int)
    requires Regular(sky) && sky.from < sui <= sky.to
    ensures LeapBy(sky, sui, n) <==> Thirteen(sky, sui) && LeapMonthOffset(sky, LunarMonth11(sky, sui - 1)) <= n
  {
    hide Month11Index, LeapMonthOffset, Regular, NoTermChange;
    if Thirteen(sky, sui) {
      LeapOffsetExact(sky, sui);
    }
  }

  // ----- solarToLunar names days correctly -----

  lemma KnownBetween(sky: Sky, mean: int, k: int)
    requires Known(sky, mean - 2) && Known(sky, mean + 2) && mean - 2 <= k <= mean + 1
    ensures Known(sky, k) && Known(sky, k + 1)
  {
  }

  lemma MeanIndexNear(jd: int, k: int)
    requires k == ((jd as real - EPOCH) / CYCLE).Floor
    ensures k <= MeanIndex(jd) <= k + 1
  {
  }

  /** The step back stays among the months relied on and ends after two months at most. */
  lemma DateKnown(sky: Sky, date: Date, k: int)
    requires Regular(sky) && IsDate(date) && sky.from < date.year < sky.to
    requires k == ((JdFromDate(date) as real - EPOCH) / CYCLE).Floor
    ensures Known(sky, k - 2) && Known(sky, k + 2) && sky.newMoon(k - 1) <= JdFromDate(date)
  {
    YearSpan(date);
    hide IsDate, JdFromDate, December, MeanIndex, MeanMoon;
    var jd := JdFromDate(date);
    DecemberOrder(sky.from, date.year - 1);
    DecemberOrder(date.year, sky.to);
    MeanIndexOrder(December(31, sky.from), jd);
    MeanIndexOrder(jd, December(31, sky.to));
    MeanIndexNear(jd, k);
    MeanMoonAround(jd, k);
    MeanMoonOrder(k - 1, k);
    assert MoonNearMean(sky, k - 1);
  }

  lemma MeanMoonBefore(sky: Sky, jd: int, k: int)
    requires Regular(sky) && k == ((jd as real - EPOCH) / CYCLE).Floor && Known(sky, k + 2)
    ensures jd < sky.newMoon(k + 2)
  {
    hide MeanMoon, Known;
    MeanMoonAround(jd, k);
    MeanMoonOrder(k + 1, k + 2);
    assert MoonNearMean(sky, k + 2);
  }

  /** The source's numbering from the count of months since month 11, whether it counts from the
      day's own sui or, for month 11 itself, from the sui that ends there. */
  lemma NameFrom(sky: Sky, year: int, sui: int, t: int, jd: int)
    requires Regular(sky) && InSui(sky, t, sui)
    requires sky.from < year && (year == sui || (year + 1 == sui && t == Month11Index(sky, year)))
    ensures var a11 := LunarMonth11(sky, year - 1);
            var diff := t - Month11Index(sky, year - 1);
            var shifted := Thirteen(sky, year) && diff >= LeapMonthOffset(sky, a11);
            var number := if shifted then diff + 10 else diff + 11;
            var month := if number > 12 then number - 12 else number;
            && diff == Quo(sky.newMoon(t) - a11, 29)
            && (LunarMonth11(sky, year) - a11 > 365 <==> Thirteen(sky, year))
            && 1 <= month <= 12
            && Name(sky, sui, t, jd) == LunarDate(
                 jd - sky.newMoon(t) + 1, month, if month >= 11 && diff < 4 then year - 1 else year,
                 shifted && diff == LeapMonthOffset(sky, a11))
  {
    hide December, Month11Index, LeapMonthOffset, Regular, LeapBy, Known, MeanIndex;
    SuiLength(sky, year);
    SuiKnown(sky, t, sui);
    Month11Known(sky, year - 1);
    LunationCount(sky, Month11Index(sky, year - 1), t);
    var n := t - Month11Index(sky, sui - 1);
    LeapByOffset(sky, sui, n);
    LeapByOffset(sky, sui, n - 1);
    if Thirteen(sky, year) {
      LeapOffsetExact(sky, year);
    }
    if Thirteen(sky, sui) {
      LeapOffsetExact(sky, sui);
    }
  }

  // ----- lunarToSolar inverts the naming -----

  /** A request the command lets through, for a year relied on. */
  ghost predicate Askable(sky: Sky, lunar: LunarDate) {
    1 <= lunar.day && 1 <= lunar.month <= 12 && sky.from < SuiOf(lunar) <= sky.to
  }

  function SuiOf(lunar: LunarDate): int { if lunar.month < 11 then lunar.year else lunar.year + 1 }

  function MonthsAfter11(lunar: LunarDate): int { if lunar.month < 11 then lunar.month + 1 else lunar.month - 11 }

  function LeapOffset(sky: Sky, sui: int): int { LeapMonthOffset(sky, LunarMonth11(sky, sui - 1)) }

  /** Whether the sui repeats the month asked for. */
  ghost predicate HasLeap(sky: Sky, lunar: LunarDate) {
    Thirteen(sky, SuiOf(lunar)) && MonthsAfter11(lunar) + 1 == LeapOffset(sky, SuiOf(lunar))
  }

  /** The lunation asked for. */
  ghost function MonthAsked(sky: Sky, lunar: LunarDate): int {
    var sui := SuiOf(lunar);
    var off := MonthsAfter11(lunar);
    var later := lunar.leap || (Thirteen(sky, sui) && off >= LeapOffset(sky, sui));
    Month11Index(sky, sui - 1) + (if later then off + 1 else off)
  }

  lemma SuiUnique(sky: Sky, t: int, s: int, u: int)
    requires Regular(sky) && InSui(sky, t, s) && InSui(sky, t, u)
    ensures s == u
  {
    hide Month11Index, Regular;
    if s < u {
      SuiOrder(sky, s, u - 1);
    } else if u < s {
      SuiOrder(sky, u, s - 1);
    }
  }

  lemma SuiOrder(sky: Sky, s: int, u: int)
    requires Regular(sky) && sky.from <= s <= u <= sky.to
    ensures Month11Index(sky, s) <= Month11Index(sky, u)
    decreases u - s
  {
    hide Month11Index, Regular, Thirteen;
    if s < u {
      SuiLength(sky, s + 1);
      SuiOrder(sky, s + 1, u);
    }
  }

  /** A day has one name. */
  lemma NamesOnce(sky: Sky, jd: int, a: LunarDate, b: LunarDate)
    requires Regular(sky) && Names(sky, jd, a) && Names(sky, jd, b)
    ensures a == b
  {
    hide Regular, Name, InSui, Holds, Known;
    var t, s :| Holds(sky, t, jd) && InSui(sky, t, s) && a == Name(sky, s, t, jd);
    var u, v :| Holds(sky, u, jd) && InSui(sky, u, v) && b == Name(sky, v, u, jd);
    SuiKnown(sky, t, s);
    SuiKnown(sky, u, v);
    HoldsOnce(sky, t, u, jd);
    SuiUnique(sky, t, s, v);
  }

  lemma JdPositive(sky: Sky, sui: int, t: int)
    requires Regular(sky) && InSui(sky, t, sui)
    ensures 0 <= sky.newMoon(t)
  {
    hide InSui, December, Known;
    SuiKnown(sky, t, sui);
    MoonInDays(sky, t);
    DecemberOrder(1583, sky.from);
    EpochIsEarly();
  }

  lemma EpochIsEarly()
    ensures 200 <= December(31, 1583)
  {
  }

  /** In terms of the sui: which month is asked for, and which answers come back. */
  lemma LunarToSolarMonth(sky: Sky, lunar: LunarDate)
    requires Regular(sky) && Askable(sky, lunar)
    ensures LunarToSolar(sky, lunar) ==
              if lunar.leap && !Thirteen(sky, SuiOf(lunar)) then NoLeapMonth
              else if lunar.leap && (!HasLeap(sky, lunar) || lunar.month == 12) then NoSuchLeapMonth
              else DayOfMonth(sky, MonthAsked(sky, lunar), lunar.day)
  {
    hide December, Month11Index, LeapMonthOffset, Regular, DayOfMonth, NearestMoon, Known;
    var sui := SuiOf(lunar);
    SuiLength(sky, sui);
    Month11Known(sky, sui - 1);
    NearestMoonExact(sky, Month11Index(sky, sui - 1));
    if Thirteen(sky, sui) {
      LeapOffsetExact(sky, sui);
    }
  }

  lemma MonthAskedInSui(sky: Sky, lunar: LunarDate)
    requires Regular(sky) && Askable(sky, lunar) && (lunar.leap ==> HasLeap(sky, lunar))
    ensures InSui(sky, MonthAsked(sky, lunar), SuiOf(lunar))
  {
    hide JdFromDate, Month11Index, LeapMonthOffset, Regular;
    SuiLength(sky, SuiOf(lunar));
    if Thirteen(sky, SuiOf(lunar)) {
      LeapOffsetExact(sky, SuiOf(lunar));
    }
  }

  /** A name determines the month of its sui, and the other way round. */
  lemma NameMonth(sky: Sky, lunar: LunarDate, sui: int, t: int, jd: int)
    requires Regular(sky) && Askable(sky, lunar) && InSui(sky, t, sui)
    ensures lunar == Name(sky, sui, t, jd) <==>
              && sui == SuiOf(lunar)
              && (lunar.leap ==> HasLeap(sky, lunar))
              && t == MonthAsked(sky, lunar)
              && jd == sky.newMoon(t) + lunar.day - 1
  {
    hide JdFromDate, Month11Index, LeapMonthOffset, Regular, LeapBy, LunarMonth11;
    var n := t - Month11Index(sky, sui - 1);
    SuiLength(sky, sui);
    LeapByOffset(sky, sui, n);
    LeapByOffset(sky, sui, n - 1);
    if Thirteen(sky, sui) {
      LeapOffsetExact(sky, sui);
    }
  }

  // ----- Main results -----

  /** lunarToSolar answers with a date exactly when that day bears the lunar date asked for,
      except that it never admits a leap month 12. */
  lemma {:induction false} LunarToSolarExact(sky: Sky, lunar: LunarDate, date: Date)
    requires Regular(sky) && Askable(sky, lunar)
    ensures LunarToSolar(sky, lunar) == Solar(date) <==>
              && IsDate(date) && Names(sky, JdFromDate(date), lunar)
              && !(lunar.leap && lunar.month == 12)
  {
    hide JdFromDate, JdToDate, IsDate, IsGregorian, Regular, Name, LunarToSolar, InSui, MonthAsked, HasLeap;
    hide Thirteen, SuiOf, Askable;
    LunarToSolarMonth(sky, lunar);
    if LunarToSolar(sky, lunar) == Solar(date) {
      AcceptedIsNamed(sky, lunar, date);
    }
    if IsDate(date) && Names(sky, JdFromDate(date), lunar) && !(lunar.leap && lunar.month == 12) {
      var jd := JdFromDate(date);
      var t, sui :| Holds(sky, t, jd) && InSui(sky, t, sui) && lunar == Name(sky, sui, t, jd);
      NameMonth(sky, lunar, sui, t, jd);
      LeapIsInThirteen(sky, lunar);
      DateRoundTrip(date);
    }
  }

  lemma LeapIsInThirteen(sky: Sky, lunar: LunarDate)
    ensures HasLeap(sky, lunar) ==> Thirteen(sky, SuiOf(lunar))
  {
  }

  lemma AcceptedIsNamed(sky: Sky, lunar: LunarDate, date: Date)
    requires Regular(sky) && Askable(sky, lunar) && LunarToSolar(sky, lunar) == Solar(date)
    ensures IsDate(date) && Names(sky, JdFromDate(date), lunar) && !(lunar.leap && lunar.month == 12)
  {
    hide JdFromDate, JdToDate, IsDate, IsGregorian, Regular, Name, LunarToSolar, InSui, MonthAsked, HasLeap;
    hide Thirteen, SuiOf, Askable;
    hide Names, Holds, Quo, MonthsAfter11, LeapOffset, Month11Index, LunarMonth11;
    LunarToSolarMonth(sky, lunar);
    var t := MonthAsked(sky, lunar);
    var jd := sky.newMoon(t) + lunar.day - 1;
    MonthAskedInSui(sky, lunar);
    JdPositive(sky, SuiOf(lunar), t);
    DayAccepted(sky, lunar);
    JdRoundTrip(jd);
    NameMonth(sky, lunar, SuiOf(lunar), t, jd);
    MakeNames(sky, lunar, SuiOf(lunar), t, jd);
  }

  lemma DayAccepted(sky: Sky, lunar: LunarDate)
    ensures Askable(sky, lunar) ==> 1 <= lunar.day
  {
  }

  lemma MakeNames(sky: Sky, lunar: LunarDate, sui: int, t: int, jd: int)
    requires InSui(sky, t, sui) && lunar == Name(sky, sui, t, jd)
    requires 1 <= lunar.day <= sky.newMoon(t + 1) - sky.newMoon(t)
    ensures Names(sky, jd, lunar)
  {
    assert Holds(sky, t, jd);
  }

  /** Solar to lunar and back: every date returns, but for the days of a leap month 12. */
  lemma {:induction false} SolarRoundTrip(sky: Sky, date: Date, lunar: LunarDate)
    requires Regular(sky) && IsDate(date) && Names(sky, JdFromDate(date), lunar)
    ensures LunarToSolar(sky, lunar) == Solar(date) <==> !(lunar.leap && lunar.month == 12)
    ensures lunar.leap && lunar.month == 12 ==> LunarToSolar(sky, lunar) == NoSuchLeapMonth
  {
    hide JdFromDate, IsDate, Regular, Name, LunarToSolar, InSui, MonthAsked, HasLeap, Thirteen;
    var jd := JdFromDate(date);
    var t, sui :| Holds(sky, t, jd) && InSui(sky, t, sui) && lunar == Name(sky, sui, t, jd);
    NameShape(sky, sui, t, jd);
    LunarToSolarExact(sky, lunar, date);
    LunarToSolarMonth(sky, lunar);
    NameMonth(sky, lunar, sui, t, jd);
    LeapIsInThirteen(sky, lunar);
  }

  lemma NameShape(sky: Sky, sui: int, t: int, jd: int)
    requires Regular(sky) && InSui(sky, t, sui) && Holds(sky, t, jd)
    ensures Askable(sky, Name(sky, sui, t, jd)) && Name(sky, sui, t, jd).day <= 30
  {
    hide JdFromDate, Month11Index, LeapMonthOffset, Regular, LeapBy;
    SuiLength(sky, sui);
    SuiKnown(sky, t, sui);
    MoonSpan(sky, t, 1);
    LeapByOffset(sky, sui, t - Month11Index(sky, sui - 1));
    if Thirteen(sky, sui) {
      LeapOffsetExact(sky, sui);
    }
  }

  /** Lunar to solar and back: every accepted lunar date is the name of the date it gives. */
  lemma {:induction false} LunarRoundTrip(sky: Sky, lunar: LunarDate, date: Date, back: LunarDate)
    requires Regular(sky) && Askable(sky, lunar) && LunarToSolar(sky, lunar) == Solar(date)
    requires Names(sky, JdFromDate(date), back)
    ensures IsDate(date) && back == lunar
  {
    LunarToSolarExact(sky, lunar, date);
    NamesOnce(sky, JdFromDate(date), lunar, back);
  }
}
