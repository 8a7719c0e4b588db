/**
 * Fields of a Date (a day count since 1970-01-01) as the `dt` namespace extracts
 * them: year, month, day, ordinal day, ISO 8601 weekday and week, quarter, and
 * the first and last day of the month.
 */
module CalendarFields {
  import opened Calendar

  /** Day count of 1 January of year y. */
  function YearStart(y: int): int {
    DaysFromCivil(CivilDate(y, 1, 1))
  }

  /** `dt.ordinal_day()`: the day's position in its year, 1 for 1 January. */
  function OrdinalDay(z: int): (r: int)
    ensures var c := CivilFromDays(z);
      r == DaysBeforeMonth(c.year, c.month) + c.day && 1 <= r <= YearLength(c.year)
  {
    var c := CivilFromDays(z);
    OrdinalOf(c);
    z - YearStart(c.year) + 1
  }

  /** Day z at ordinal position k of year y, for a day of January, is y-01-k. */
  lemma DayOfJanuary(y: int, k: int, z: int)
    requires 1 <= k <= 31 && z == YearStart(y) + k - 1
    ensures CivilFromDays(z) == CivilDate(y, 1, k)
    ensures OrdinalDay(z) == k
  {
    DayOffset(CivilDate(y, 1, k));
    CivilAt(z, CivilDate(y, 1, k));
  }

  /** `dt.weekday()`: ISO 8601 numbering, Monday = 1 ... Sunday = 7; 1970-01-01 was a Thursday. */
  function Weekday(z: int): (r: int)
    ensures 1 <= r <= 7
    ensures (r - 1 - z) % 7 == 3
  {
    (z + 3) % 7 + 1
  }

  /** Weekdays follow each other: Monday after Sunday. */
  lemma WeekdayNext(z: int)
    ensures Weekday(z + 1) == Weekday(z) % 7 + 1
  {
  }

  /** The Thursday of the Monday-to-Sunday week that holds day z. */
  function WeekThursday(z: int): (t: int)
    ensures Weekday(t) == 4
    ensures z - 3 <= t <= z + 3
    ensures t - z == 4 - Weekday(z)
  {
    z - Weekday(z) + 4
  }

  /** `dt.week()`: the ISO 8601 week number. A week belongs to the year holding its Thursday,
      and is numbered from the week that holds that year's first Thursday. */
  function IsoWeek(z: int): (r: int)
    ensures 1 <= r <= 53
  {
    (OrdinalDay(WeekThursday(z)) - 1) / 7 + 1
  }

  /** The ISO 8601 week-numbering year of day z: the year of its week's Thursday. */
  function IsoYear(z: int): int {
    CivilFromDays(WeekThursday(z)).year
  }

  /** The week number only changes on Mondays. */
  lemma IsoWeekChangesOnMonday(z: int)
    requires Weekday(z) != 1
    ensures IsoWeek(z) == IsoWeek(z - 1) && IsoYear(z) == IsoYear(z - 1)
  {
    assert WeekThursday(z) == WeekThursday(z - 1);
  }

  /** Week 1 of an ISO year is the week holding 4 January. */
  lemma FourthJanuaryInWeekOne(y: int)
    ensures IsoWeek(YearStart(y) + 3) == 1 && IsoYear(YearStart(y) + 3) == y
  {
    var t := WeekThursday(YearStart(y) + 3);
    DayOfJanuary(y, t - YearStart(y) + 1, t);
  }

  /** `dt.quarter()`: months 1-3 are quarter 1, ..., 10-12 quarter 4. */
  function Quarter(m: int): (q: int)
    requires 1 <= m <= 12
    ensures 1 <= q <= 4
    ensures 3 * (q - 1) < m <= 3 * q
  {
    (m - 1) / 3 + 1
  }

  /** `dt.month_start()` on a Date: the first day of its month. */
  function MonthStart(z: int): (r: int)
    ensures CivilFromDays(r) == CivilDate(CivilFromDays(z).year, CivilFromDays(z).month, 1)
    ensures r == z - CivilFromDays(z).day + 1
  {
    var c := CivilFromDays(z);
    FirstOfMonth(c);
    DaysFromCivil(CivilDate(c.year, c.month, 1))
  }

  /** The first day of a valid date's month, counted back from the date. */
  lemma FirstOfMonth(c: CivilDate)
    requires Valid(c)
    ensures var r := DaysFromCivil(CivilDate(c.year, c.month, 1));
      CivilFromDays(r) == CivilDate(c.year, c.month, 1) && r == DaysFromCivil(c) - c.day + 1
  {
    DayOffset(c);
    DaysFromCivilRoundTrip(CivilDate(c.year, c.month, 1));
  }

  /** `dt.month_end()` on a Date: the last day of its month. */
  function MonthEnd(z: int): (r: int)
    ensures var c := CivilFromDays(z);
      CivilFromDays(r) == CivilDate(c.year, c.month, DaysInMonth(c.year, c.month))
    ensures r == z + DaysInMonth(CivilFromDays(z).year, CivilFromDays(z).month) - CivilFromDays(z).day
  {
    var c := CivilFromDays(z);
    LastOfMonth(c);
    DaysFromCivil(CivilDate(c.year, c.month, DaysInMonth(c.year, c.month)))
  }

  /** The last day of a valid date's month, counted on from the date. */
  lemma LastOfMonth(c: CivilDate)
    requires Valid(c)
    ensures var last := CivilDate(c.year, c.month, DaysInMonth(c.year, c.month));
      var r := DaysFromCivil(last);
      CivilFromDays(r) == last && r == DaysFromCivil(c) + DaysInMonth(c.year, c.month) - c.day
  {
    var last := CivilDate(c.year, c.month, DaysInMonth(c.year, c.month));
    DayOffset(c);
    DayOffset(last);
    DaysFromCivilRoundTrip(last);
  }

  /** The day after the last day of a month is the first of the next month. */
  lemma AfterLastDay(y: int, m: int, last: int)
    requires 1 <= m <= 12 && last == DaysFromCivil(CivilDate(y, m, DaysInMonth(y, m)))
    ensures CivilFromDays(last + 1) == FirstOfNextMonth(y, m)
  {
    LastThenNext(y, m);
    CivilAt(last + 1, FirstOfNextMonth(y, m));
  }

  lemma LastThenNext(y: int, m: int)
    requires 1 <= m <= 12
    ensures DaysFromCivil(CivilDate(y, m, DaysInMonth(y, m))) + 1 == DaysFromCivil(FirstOfNextMonth(y, m))
  {
    DayOffset(CivilDate(y, m, DaysInMonth(y, m)));
    FollowingMonth(y, m);
  }

  /** The day after a month's end starts a month. */
  lemma MonthEndThenFirst(z: int)
    ensures CivilFromDays(MonthEnd(z) + 1).day == 1
  {
    var c := CivilFromDays(z);
    AfterLastDay(c.year, c.month, MonthEnd(z));
  }

  /** Both operations are idempotent, and they bracket every day of the month. */
  lemma MonthBoundsIdempotent(z: int)
    ensures MonthStart(MonthStart(z)) == MonthStart(z)
    ensures MonthEnd(MonthEnd(z)) == MonthEnd(z)
    ensures MonthStart(z) <= z <= MonthEnd(z)
    ensures MonthStart(MonthEnd(z)) == MonthStart(z) && MonthEnd(MonthStart(z)) == MonthEnd(z)
  {
  }
}
