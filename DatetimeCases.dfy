/**
 * The expected values of the `dt` namespace tests, derived from the calendar model.
 */
module DatetimeCases {
  import opened Wrappers
  import opened DataTypes
  import opened Calendar
  import opened CalendarFields
  import opened Offsets
  import opened Units

  /** Day count z is the date c, and its field extractions were read off it. */
  lemma DateOf(z: int, c: CivilDate)
    requires Valid(c) && DaysFromCivil(c) == z
    ensures CivilFromDays(z) == c
    ensures OrdinalDay(z) == DaysBeforeMonth(c.year, c.month) + c.day
  {
    DaysFromCivilRoundTrip(c);
  }

  /** Day count 10000 is 1997-05-19, ordinal day 139, in ISO week 21 (its Thursday is 1997-05-22). */
  lemma FixtureDay10000()
    ensures CivilFromDays(10000) == CivilDate(1997, 5, 19) && OrdinalDay(10000) == 139
    ensures IsoWeek(10000) == 21
  {
    DateOf(10000, CivilDate(1997, 5, 19));
    assert WeekThursday(10000) == 10003;
    DateOf(10003, CivilDate(1997, 5, 22));
  }

  /** Day count 20000 is 2024-10-04, ordinal day 278, in ISO week 40 (its Thursday is 2024-10-03). */
  lemma FixtureDay20000()
    ensures CivilFromDays(20000) == CivilDate(2024, 10, 4) && OrdinalDay(20000) == 278
    ensures IsoWeek(20000) == 40
  {
    DateOf(20000, CivilDate(2024, 10, 4));
    assert WeekThursday(20000) == 19999;
    DateOf(19999, CivilDate(2024, 10, 3));
  }

  /** Day count 30000 is 2052-02-20, ordinal day 51, in ISO week 8 (its Thursday is 2052-02-22). */
  lemma FixtureDay30000()
    ensures CivilFromDays(30000) == CivilDate(2052, 2, 20) && OrdinalDay(30000) == 51
    ensures IsoWeek(30000) == 8
  {
    DateOf(30000, CivilDate(2052, 2, 20));
    assert WeekThursday(30000) == 30002;
    DateOf(30002, CivilDate(2052, 2, 22));
  }

  /** 2023-02-17 is a Friday. */
  lemma FridayWeekday()
    ensures Weekday(DaysFromCivil(CivilDate(2023, 2, 17))) == 5
  {
  }

  /** Yearly dates 1990 ... 2004: leap years are 1992, 1996, 2000 and 2004. */
  lemma LeapYears1990To2004()
    ensures seq(15, i => IsLeapYear(1990 + i)) ==
      [false, false, true, false, false, false, true, false, false, false, true, false, false, false, true]
  {
  }

  /** Monthly dates of a year fall in quarters 1,1,1,2,2,2,3,3,3,4,4,4. */
  lemma QuartersOfYear()
    ensures seq(12, i requires 0 <= i < 12 => Quarter(i + 1)) == [1, 1, 1, 2, 2, 2, 3, 3, 3, 4, 4, 4]
  {
  }

  /** 2022-03-15 and 2022-03-31 start on 2022-03-01 and end on 2022-03-31. */
  lemma MarchBoundaries()
    ensures CivilFromDays(MonthStart(DaysFromCivil(CivilDate(2022, 3, 15)))) == CivilDate(2022, 3, 1)
    ensures CivilFromDays(MonthStart(DaysFromCivil(CivilDate(2022, 3, 31)))) == CivilDate(2022, 3, 1)
    ensures CivilFromDays(MonthEnd(DaysFromCivil(CivilDate(2022, 3, 15)))) == CivilDate(2022, 3, 31)
    ensures CivilFromDays(MonthEnd(DaysFromCivil(CivilDate(2022, 3, 31)))) == CivilDate(2022, 3, 31)
  {
    DaysFromCivilRoundTrip(CivilDate(2022, 3, 15));
    DaysFromCivilRoundTrip(CivilDate(2022, 3, 31));
  }

  /** `_saturating` offsets clamp to the month's last day. */
  lemma SaturatingOffsets()
    ensures AddMonths(CivilDate(2018, 1, 31), 1, true) == Ok(CivilDate(2018, 2, 28))
    ensures AddMonths(CivilDate(2024, 2, 29), 12, true) == Ok(CivilDate(2025, 2, 28))
    ensures AddMonths(CivilDate(2024, 1, 30), 13, true) == Ok(CivilDate(2025, 2, 28))
  {
  }

  /** Offsetting 2022-03-30 by -1 month without saturation fails: 30 February does not exist. */
  lemma CannotAdvanceMarch30()
    ensures AddMonths(CivilDate(2022, 3, 30), -1, false) == Err(CannotAdvance(CivilDate(2022, 3, 30), -1))
  {
  }

  /** From 1 January, "1y" gives 1 January of the next year and "-1y2mo" 1 November two years before. */
  lemma YearlyOffsets(y: int)
    ensures AddMonths(CivilDate(y, 1, 1), 12, false) == Ok(CivilDate(y + 1, 1, 1))
    ensures AddMonths(CivilDate(y, 1, 1), -14, false) == Ok(CivilDate(y - 2, 11, 1))
  {
    var c := CivilDate(y, 1, 1);
    assert ShiftMonth(y, 1, 12) == (y + 1, 1) by {
      DivMod(MonthIndex(y, 1) + 12, 12, y + 1, 0);
    }
    assert ShiftMonth(y, 1, -14) == (y - 2, 11) by {
      DivMod(MonthIndex(y, 1) - 14, 12, y - 2, 10);
    }
  }

  /** The yearly dates 2000 ... 2020 offset by "-1y2mo" are 1 November 1998 ... 2018. */
  lemma YearlyMinusOneYearTwoMonths()
    ensures forall y :: 2000 <= y <= 2020 ==>
      AddMonths(CivilDate(y, 1, 1), -14, false) == Ok(CivilDate(y - 2, 11, 1))
  {
    forall y | 2000 <= y <= 2020
      ensures AddMonths(CivilDate(y, 1, 1), -14, false) == Ok(CivilDate(y - 2, 11, 1))
    {
      YearlyOffsets(y);
    }
  }

  /** 2020-01-01 and 2020-02-02 03:20:10 are epoch days 18262 and 18294; 2020-01-01 is epoch second 1577836800. */
  lemma EpochOf2020()
    ensures DaysFromCivil(CivilDate(2020, 1, 1)) == 18262
    ensures EpochDays(18294 * 86_400_000 + (3 * 3600 + 20 * 60 + 10) * 1000) == 18294
    ensures EpochSeconds(18262 * 86_400_000) == 1_577_836_800
    ensures EpochSeconds(18294 * 86_400_000 + (3 * 3600 + 20 * 60 + 10) * 1000) == 1_580_613_610
  {
    EpochDaysOfDate(18294, (3 * 3600 + 20 * 60 + 10) * 1000);
    DivMod(18262 * 86_400_000, 1000, 1_577_836_800, 0);
    DivMod(18294 * 86_400_000 + (3 * 3600 + 20 * 60 + 10) * 1000, 1000, 1_580_613_610, 0);
  }

  /** 2001-01-01 and 2001-02-01 10:08:09 in each unit, and their epoch seconds and days. */
  lemma CastTimeUnits2001()
    ensures DaysFromCivil(CivilDate(2001, 1, 1)) * 86_400_000 == 978307200000
    ensures DaysFromCivil(CivilDate(2001, 2, 1)) * 86_400_000 + (10 * 3600 + 8 * 60 + 9) * 1000 == 981022089000
    ensures CastTimeUnit(978307200000, Milliseconds, Microseconds) == 978307200000000
    ensures CastTimeUnit(978307200000, Milliseconds, Nanoseconds) == 978307200000000000
    ensures CastTimeUnit(981022089000, Milliseconds, Microseconds) == 981022089000000
    ensures CastTimeUnit(981022089000, Milliseconds, Nanoseconds) == 981022089000000000
    ensures EpochSeconds(978307200000) == 978307200 && EpochDays(978307200000) == 11323
    ensures EpochSeconds(981022089000) == 981022089 && EpochDays(981022089000) == 11354
  {
    DivMod(978307200000, 1000, 978307200, 0);
    DivMod(981022089000, 1000, 981022089, 0);
    EpochDaysOfDate(11323, 0);
    EpochDaysOfDate(11354, (10 * 3600 + 8 * 60 + 9) * 1000);
  }

  /** datetime(2022, 1, 2) - datetime(2022, 1, 1), a one-day Duration in microseconds. */
  lemma OneDayDuration()
    ensures var t := (DaysFromCivil(CivilDate(2022, 1, 2)) - DaysFromCivil(CivilDate(2022, 1, 1))) * TicksPerDay(Microseconds);
      && Extract(t, Microseconds, Days) == 1
      && Extract(t, Microseconds, Hours) == 24
      && Extract(t, Microseconds, Minutes) == 24 * 60
      && Extract(t, Microseconds, Seconds) == 3600 * 24
      && Extract(t, Microseconds, Millis) == 3600 * 24 * 1000
      && Extract(t, Microseconds, Micros) == 3600 * 24 * 1_000_000
      && Extract(t, Microseconds, Nanos) == 3600 * 24 * 1_000_000_000
  {
    var t := (DaysFromCivil(CivilDate(2022, 1, 2)) - DaysFromCivil(CivilDate(2022, 1, 1))) * TicksPerDay(Microseconds);
    assert t == 1 * TicksPerDay(Microseconds);
    WholeDays(1, Microseconds, Days);
    WholeDays(1, Microseconds, Hours);
    WholeDays(1, Microseconds, Minutes);
    WholeDays(1, Microseconds, Seconds);
    WholeDays(1, Microseconds, Millis);
    WholeDays(1, Microseconds, Micros);
    WholeDays(1, Microseconds, Nanos);
  }

  /** A half-hourly range over 2022-01-01, truncated and rounded to the hour, in any unit:
      the k-th point truncates to start + (k / 2) h and rounds to start + ((k + 1) / 2) h, so
      the last point (k = 48) stays at 2022-01-02 and the one before it rounds up to it. */
  lemma HourlyGrid(tu: TimeUnit, k: nat)
    requires k <= 48
    ensures var hour := 3600 * TicksPerSecond(tu);
      var start := DaysFromCivil(CivilDate(2022, 1, 1)) * TicksPerDay(tu);
      var stop := DaysFromCivil(CivilDate(2022, 1, 2)) * TicksPerDay(tu);
      && Truncate(start + k * (hour / 2), hour) == start + (k / 2) * hour
      && Round(start + k * (hour / 2), hour) == start + ((k + 1) / 2) * hour
      && start + 48 * (hour / 2) == stop
  {
    var d := DaysFromCivil(CivilDate(2022, 1, 1));
    assert DaysFromCivil(CivilDate(2022, 1, 2)) == d + 1;
    HalfHoursOfDay(tu, k, d);
  }

  /** The same grid over any day d, given by its day count. */
  lemma HalfHoursOfDay(tu: TimeUnit, k: nat, d: int)
    requires k <= 48
    ensures var hour := 3600 * TicksPerSecond(tu);
      var start := d * TicksPerDay(tu);
      && Truncate(start + k * (hour / 2), hour) == start + (k / 2) * hour
      && Round(start + k * (hour / 2), hour) == start + ((k + 1) / 2) * hour
      && start + 48 * (hour / 2) == (d + 1) * TicksPerDay(tu)
  {
    var half := 1800 * TicksPerSecond(tu);
    var q := d * 24;
    assert 3600 * TicksPerSecond(tu) == 2 * half;
    assert d * TicksPerDay(tu) == q * (2 * half) by {
      match tu
      case Nanoseconds =>
      case Microseconds =>
      case Milliseconds =>
    }
    HalfStepGrid(q, half, k);
  }
}
