/** A sky that moves at mean speed: the hypotheses on the sky can be met, and under them the
    leap month 12 that lunarToSolar refuses does occur. */
module MeanSkyExample {
  import opened JulianDay
  import opened LunarCalendar

  function Moon(k: int): int { MeanMoon(k).Floor }
  function Term(day: int): int { 120000 * (day - 1721142) / 3652425 }

  /** Relied on for the years the commands take, 1800 to 2199, and their neighbours. */
  const MEAN_SKY: Sky := Sky(k => Moon(k), d => Term(d), 1799, 2200)

  lemma MeanSolstice(year: int)
    ensures SolsticeInDecember(MEAN_SKY, year)
  {
    hide JdFromDate, GregorianDays, JulianDays;
    if MEAN_SKY.from <= year <= MEAN_SKY.to {
      MeanDecember(year);
    }
  }

  lemma MeanDecember(year: int)
    requires 1583 <= year
    ensures Term(December(20, year)) < 12 * year + 9 <= Term(December(25, year))
  {
    var y := year + 4800;
    hide JdFromDate, GregorianDays, JulianDays;
    FromDateByYear(Date(20, 12, year));
    FromDateByYear(Date(25, 12, year));
    ReformCut(Date(20, 12, year));
    ReformCut(Date(25, 12, year));
    assert December(20, year) == 295 + GregorianDays(y) - 32045;
    assert December(25, year) == 300 + GregorianDays(y) - 32045;
    MeanYears(y);
  }

  lemma MeanYears(y: int)
    requires 0 <= y
    ensures 3652425 * y - 17475 <= 10000 * GregorianDays(y) <= 3652425 * y + 9900
  {
  }

  lemma {:induction false} MeanSkyIsRegular()
    ensures Regular(MEAN_SKY)
  {
    forall year ensures SolsticeInDecember(MEAN_SKY, year) {
      MeanSolstice(year);
    }
  }

  lemma MeanMonths()
    ensures Moon(914) == 2442012 && Moon(915) == 2442041 && Moon(916) == 2442071 && Moon(917) == 2442100
    ensures Term(2442012) == 23684 && Term(2442041) == 23685 && Term(2442071) == 23686 && Term(2442100) == 23686
    ensures Month11Index(MEAN_SKY, 1973) == 914 && Month11Index(MEAN_SKY, 1974) == 927
  {
    assert December(31, 1973) == 2442048 && December(31, 1974) == 2442413;
  }

  /** The first day of the leap month 12 of 1973 under the mean sky, which is refused. */
  lemma {:induction false} LeapTwelveRefused()
    ensures var jd := 2442071;
            var lunar := LunarDate(1, 12, 1973, true);
            && Regular(MEAN_SKY) && Names(MEAN_SKY, jd, lunar)
            && LunarToSolar(MEAN_SKY, lunar) == NoSuchLeapMonth
  {
    MeanSkyIsRegular();
    MeanMonths();
    hide JdFromDate, Month11Index, Regular, LunarToSolar, Moon, Term;
    assert NoTermChange(MEAN_SKY, 916) && !NoTermChange(MEAN_SKY, 915);
    assert Holds(MEAN_SKY, 916, 2442071) && InSui(MEAN_SKY, 916, 1974);
    assert LeapBy(MEAN_SKY, 1974, 2) && !LeapBy(MEAN_SKY, 1974, 1);
    assert Name(MEAN_SKY, 1974, 916, 2442071) == LunarDate(1, 12, 1973, true);
    JdRoundTrip(2442071);
    LunarToSolarMonth(MEAN_SKY, LunarDate(1, 12, 1973, true));
    LeapOffsetExact(MEAN_SKY, 1974);
  }

  lemma MonthTwelveNamed()
    ensures Regular(MEAN_SKY) && Thirteen(MEAN_SKY, 1974) && Names(MEAN_SKY, 2442041, LunarDate(1, 12, 1973, false))
  {
    MeanSkyIsRegular();
    MeanMonths();
    hide JdFromDate, Month11Index, Regular, LunarToSolar, Moon, Term;
    assert !NoTermChange(MEAN_SKY, 915);
    assert Holds(MEAN_SKY, 915, 2442041) && InSui(MEAN_SKY, 915, 1974);
    assert !LeapBy(MEAN_SKY, 1974, 1) && !LeapBy(MEAN_SKY, 1974, 0);
    assert Name(MEAN_SKY, 1974, 915, 2442041) == LunarDate(1, 12, 1973, false);
  }

  lemma ChristmasEve()
    ensures IsDate(Date(24, 12, 1973)) && JdFromDate(Date(24, 12, 1973)) == 2442041
  {
  }

  /** The ordinary month 12 before it, in a year of thirteen months, goes both ways. */
  lemma {:induction false} MonthTwelveAccepted()
    ensures var date := Date(24, 12, 1973);
            var lunar := LunarDate(1, 12, 1973, false);
            && Regular(MEAN_SKY) && Thirteen(MEAN_SKY, 1974) && IsDate(date) && Names(MEAN_SKY, JdFromDate(date), lunar)
            && LunarToSolar(MEAN_SKY, lunar) == Solar(date)
  {
    hide JdFromDate, IsDate, Names, Thirteen, Month11Index, Regular, LunarToSolar, Moon, Term;
    MonthTwelveNamed();
    ChristmasEve();
    SolarRoundTrip(MEAN_SKY, Date(24, 12, 1973), LunarDate(1, 12, 1973, false));
  }
}
