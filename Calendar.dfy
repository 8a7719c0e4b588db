/**
 * The proleptic Gregorian calendar over day counts, as the Date dtype stores it:
 * a date is a number of days since 1970-01-01 (negative before it). Day counts and
 * civil dates (year, month, day) convert into each other exactly. The conversion
 * works in 400-year eras of 146097 days whose years start on 1 March, so that the
 * leap day is the last day of a year and month lengths follow a linear table.
 */
module Calendar {

  datatype CivilDate = CivilDate(year: int, month: int, day: int)

  /** Gregorian rule: every fourth year, except centuries not divisible by 400. */
  predicate IsLeapYear(y: int) {
    y % 4 == 0 && (y % 100 != 0 || y % 400 == 0)
  }

  function DaysInMonth(y: int, m: int): (r: int)
    requires 1 <= m <= 12
    ensures 28 <= r <= 31
  {
    if m == 2 then (if IsLeapYear(y) then 29 else 28)
    else if m == 4 || m == 6 || m == 9 || m == 11 then 30
    else 31
  }

  /** A date that exists in the calendar. */
  predicate Valid(c: CivilDate) {
    1 <= c.month <= 12 && 1 <= c.day <= DaysInMonth(c.year, c.month)
  }

  // ---------------------------------------------------------------------------
  // Eras of 400 March-based years
  // ---------------------------------------------------------------------------

  /** Days in 400 Gregorian years. */
  const DaysPerEra := 146097
  /** Days from 0000-03-01, the start of an era, to 1970-01-01. */
  const EpochOffset := 719468

  /** Month index counted from March: March = 0, ..., February = 11. */
  function MarchMonth(m: int): int { if m > 2 then m - 3 else m + 9 }

  /** Days of a March-based year before its month mp (0, 31, 61, 92, ...). */
  function DaysBeforeMarchMonth(mp: int): int { (153 * mp + 2) / 5 }

  /** Days of an era before its year yoe. */
  function DaysBeforeYoe(yoe: int): int { 365 * yoe + yoe / 4 - yoe / 100 }

  /** Length of year yoe of an era; the last one ends on the 400-year leap day. */
  function MarchYearLength(yoe: int): int {
    if yoe == 399 then 366 else DaysBeforeYoe(yoe + 1) - DaysBeforeYoe(yoe)
  }

  /** The day count of a date: days since 1970-01-01. */
  function DaysFromCivil(c: CivilDate): int
    requires 1 <= c.month <= 12
  {
    var y := if c.month <= 2 then c.year - 1 else c.year;
    var era := y / 400;
    var yoe := y % 400;
    var doy := DaysBeforeMarchMonth(MarchMonth(c.month)) + c.day - 1;
    era * DaysPerEra + DaysBeforeYoe(yoe) + doy - EpochOffset
  }

  lemma YoeSplit(a: int, b: int, c: int)
    requires 0 <= a <= 3 && 0 <= b <= 24 && 0 <= c <= 3
    ensures DaysBeforeYoe(100 * a + 4 * b + c) == 36524 * a + 1461 * b + 365 * c
  {
    var yoe := 100 * a + 4 * b + c;
    assert yoe / 4 == 25 * a + b;
    assert yoe / 100 == a;
  }

  lemma YearLengthRule(yoe: int)
    requires 0 <= yoe <= 399
    ensures MarchYearLength(yoe) == (if (yoe + 1) % 4 == 0 && ((yoe + 1) % 100 != 0 || yoe == 399) then 366 else 365)
  {
  }

  /** The year of era that day doe of an era falls in, found by 100-, 4- and 1-year cycles. */
  function YearOfEra(doe: int): (yoe: int)
    requires 0 <= doe < DaysPerEra
    ensures 0 <= yoe <= 399
    ensures DaysBeforeYoe(yoe) <= doe < DaysBeforeYoe(yoe) + MarchYearLength(yoe)
  {
    var a := if doe / 36524 < 3 then doe / 36524 else 3;
    var r1 := doe - 36524 * a;
    var b := r1 / 1461;
    var r2 := r1 % 1461;
    var c := if r2 / 365 < 3 then r2 / 365 else 3;
    CyclesLocate(doe, a, r1, b, r2, c);
    100 * a + 4 * b + c
  }

  /** The cycle counts a (100 years), b (4 years) and c (years) locate day doe in year
      100 a + 4 b + c of the era; the last year of a 4-year or 100-year cycle absorbs the
      day the quotient would push into the next one. */
  lemma CyclesLocate(doe: int, a: int, r1: int, b: int, r2: int, c: int)
    requires 0 <= doe < DaysPerEra
    requires 0 <= a <= 3 && r1 == doe - 36524 * a && 0 <= r1 && (a < 3 ==> r1 < 36524)
    requires r1 == 1461 * b + r2 && 0 <= r2 < 1461
    requires 0 <= c <= 3 && 365 * c <= r2 && (c < 3 ==> r2 < 365 * c + 365)
    ensures 0 <= 100 * a + 4 * b + c <= 399
    ensures DaysBeforeYoe(100 * a + 4 * b + c) <= doe < DaysBeforeYoe(100 * a + 4 * b + c) + MarchYearLength(100 * a + 4 * b + c)
  {
    assert 0 <= b <= 24;
    YoeSplit(a, b, c);
    YearLengthRule(100 * a + 4 * b + c);
    if c == 3 && b == 24 && a < 3 {
      assert r2 < 1460;
    }
  }

  lemma YearsInOrder(a: int, b: int)
    requires 0 <= a < b <= 399
    ensures DaysBeforeYoe(a) + MarchYearLength(a) <= DaysBeforeYoe(b)
  {
  }

  lemma YearOfEraUnique(doe: int, yoe: int)
    requires 0 <= yoe <= 399 && DaysBeforeYoe(yoe) <= doe < DaysBeforeYoe(yoe) + MarchYearLength(yoe)
    ensures doe < DaysPerEra && YearOfEra(doe) == yoe
  {
    if yoe < 399 { YearsInOrder(yoe, 399); }
    var other := YearOfEra(doe);
    if other < yoe { YearsInOrder(other, yoe); }
    if yoe < other { YearsInOrder(yoe, other); }
  }

  /** The March-based month that day doy of a March-based year falls in. */
  function MarchMonthOf(doy: int): (mp: int)
    requires 0 <= doy < 366
    ensures 0 <= mp <= 11
    ensures DaysBeforeMarchMonth(mp) <= doy < DaysBeforeMarchMonth(mp + 1)
  {
    (5 * doy + 2) / 153
  }

  lemma MarchMonthUnique(doy: int, mp: int)
    requires 0 <= mp <= 11 && DaysBeforeMarchMonth(mp) <= doy < DaysBeforeMarchMonth(mp + 1)
    ensures doy < 367 && (doy < 366 ==> MarchMonthOf(doy) == mp)
  {
  }

  /** The date of day doe of an era. */
  function FromEraDay(era: int, doe: int): (c: CivilDate)
    requires 0 <= doe < DaysPerEra
  {
    var yoe := YearOfEra(doe);
    var doy := doe - DaysBeforeYoe(yoe);
    var mp := MarchMonthOf(doy);
    var d := doy - DaysBeforeMarchMonth(mp) + 1;
    var m := if mp < 10 then mp + 3 else mp - 9;
    CivilDate(era * 400 + yoe + (if m <= 2 then 1 else 0), m, d)
  }

  /** A March-based year of era is long exactly when the civil year holding its February is a leap year. */
  lemma LeapRule(era: int, yoe: int)
    requires 0 <= yoe <= 399
    ensures MarchYearLength(yoe) == (if IsLeapYear(era * 400 + yoe + 1) then 366 else 365)
  {
    YearLengthRule(yoe);
    var y := era * 400 + yoe + 1;
    DivMod(y, 4, era * 100 + (yoe + 1) / 4, (yoe + 1) % 4);
    DivMod(y, 100, era * 4 + (yoe + 1) / 100, (yoe + 1) % 100);
    DivMod(y, 400, era + (yoe + 1) / 400, (yoe + 1) % 400);
  }

  /** Quotient and remainder are determined by the division they satisfy. */
  lemma DivMod(y: int, d: int, q: int, r: int)
    requires d > 0 && y == d * q + r && 0 <= r < d
    ensures y / d == q && y % d == r
  {
    var q0, r0 := y / d, y % d;
    assert d * (q - q0) == r0 - r;
    if q > q0 {
      MulAtLeast(d, q - q0);
    } else if q < q0 {
      MulAtLeast(d, q0 - q);
    }
  }

  lemma MulAtLeast(d: int, k: int)
    requires d > 0 && k >= 1
    ensures d * k >= d
  {
  }

  /** Each March-based month's span agrees with the civil month lengths; February is cut by the year length. */
  lemma MonthSpan(y: int, mp: int)
    requires 0 <= mp <= 10
    ensures DaysBeforeMarchMonth(mp + 1) - DaysBeforeMarchMonth(mp) == DaysInMonth(y, if mp < 10 then mp + 3 else mp - 9)
  {
  }

  lemma FromEraDayValid(era: int, doe: int)
    requires 0 <= doe < DaysPerEra
    ensures Valid(FromEraDay(era, doe))
  {
    var yoe := YearOfEra(doe);
    var doy := doe - DaysBeforeYoe(yoe);
    var mp := MarchMonthOf(doy);
    var c := FromEraDay(era, doe);
    if mp < 11 {
      MonthSpan(c.year, mp);
    } else {
      LeapRule(era, yoe);
      assert c.year == era * 400 + yoe + 1;
    }
  }

  lemma FromEraDayInverse(era: int, doe: int)
    requires 0 <= doe < DaysPerEra
    ensures 1 <= FromEraDay(era, doe).month <= 12
    ensures DaysFromCivil(FromEraDay(era, doe)) == era * DaysPerEra + doe - EpochOffset
  {
    var yoe := YearOfEra(doe);
    var doy := doe - DaysBeforeYoe(yoe);
    var mp := MarchMonthOf(doy);
    var c := FromEraDay(era, doe);
    var y := if c.month <= 2 then c.year - 1 else c.year;
    assert y == era * 400 + yoe;
    DivMod(y, 400, era, yoe);
    assert MarchMonth(c.month) == mp;
  }

  /** The civil date of day z (days since 1970-01-01): a valid date that counts back to z. */
  function CivilFromDays(z: int): (c: CivilDate)
    ensures Valid(c)
    ensures DaysFromCivil(c) == z
  {
    var zz := z + EpochOffset;
    var era, doe := zz / DaysPerEra, zz % DaysPerEra;
    FromEraDayValid(era, doe);
    FromEraDayInverse(era, doe);
    FromEraDay(era, doe)
  }

  /** The day of a valid date falls inside its March-based year. */
  lemma DayInMarchYear(c: CivilDate)
    requires Valid(c)
    ensures var y := if c.month <= 2 then c.year - 1 else c.year;
      0 <= DaysBeforeMarchMonth(MarchMonth(c.month)) + c.day - 1 < MarchYearLength(y % 400)
  {
    var y := if c.month <= 2 then c.year - 1 else c.year;
    var era := y / 400;
    var yoe := y % 400;
    var mp := MarchMonth(c.month);
    if mp < 11 {
      MonthSpan(c.year, mp);
      assert DaysBeforeMarchMonth(mp + 1) <= 337;
    } else {
      LeapRule(era, yoe);
      assert era * 400 + yoe + 1 == c.year;
    }
  }

  /** A valid date is the date of its day of era, in its era. */
  lemma FromEraDayOf(c: CivilDate, y: int, era: int, yoe: int, mp: int, doy: int, doe: int)
    requires Valid(c) && y == (if c.month <= 2 then c.year - 1 else c.year)
    requires era == y / 400 && yoe == y % 400 && mp == MarchMonth(c.month)
    requires doy == DaysBeforeMarchMonth(mp) + c.day - 1 && doe == DaysBeforeYoe(yoe) + doy
    ensures 0 <= doe < DaysPerEra && FromEraDay(era, doe) == c
  {
    DayInMarchYear(c);
    FromEraDayAt(era, yoe, doy, mp, doe);
    MarchPartsOf(c, y, era, yoe, mp, doy);
  }

  /** The date of a day of an era, given the year of era, the March month and the day of the year it falls in. */
  lemma FromEraDayAt(era: int, yoe: int, doy: int, mp: int, doe: int)
    requires 0 <= yoe <= 399 && 0 <= mp <= 11
    requires DaysBeforeMarchMonth(mp) <= doy < DaysBeforeMarchMonth(mp + 1) && 0 <= doy < MarchYearLength(yoe)
    requires doe == DaysBeforeYoe(yoe) + doy
    ensures 0 <= doe < DaysPerEra
    ensures FromEraDay(era, doe) ==
      CivilDate(era * 400 + yoe + (if mp >= 10 then 1 else 0), if mp < 10 then mp + 3 else mp - 9, doy - DaysBeforeMarchMonth(mp) + 1)
  {
    YearOfEraUnique(doe, yoe);
    MarchMonthUnique(doy, mp);
  }

  /** A valid date is rebuilt from its March-based year, split into era and year of era, its March month and day of year. */
  lemma MarchPartsOf(c: CivilDate, y: int, era: int, yoe: int, mp: int, doy: int)
    requires Valid(c) && y == (if c.month <= 2 then c.year - 1 else c.year)
    requires era == y / 400 && yoe == y % 400 && mp == MarchMonth(c.month)
    requires doy == DaysBeforeMarchMonth(mp) + c.day - 1
    ensures CivilDate(era * 400 + yoe + (if mp >= 10 then 1 else 0), if mp < 10 then mp + 3 else mp - 9, doy - DaysBeforeMarchMonth(mp) + 1) == c
  {
  }

  /** Every valid date is the date of its own day count. */
  lemma DaysFromCivilRoundTrip(c: CivilDate)
    requires Valid(c)
    ensures CivilFromDays(DaysFromCivil(c)) == c
  {
    var y := if c.month <= 2 then c.year - 1 else c.year;
    var era, yoe := y / 400, y % 400;
    var mp := MarchMonth(c.month);
    var doy := DaysBeforeMarchMonth(mp) + c.day - 1;
    var doe := DaysBeforeYoe(yoe) + doy;
    FromEraDayOf(c, y, era, yoe, mp, doy, doe);
    CivilFromEraDay(DaysFromCivil(c), era, doe);
  }

  /** Day z is day doe of era era exactly when its shifted count splits that way. */
  lemma CivilFromEraDay(z: int, era: int, doe: int)
    requires 0 <= doe < DaysPerEra && z + EpochOffset == era * DaysPerEra + doe
    ensures CivilFromDays(z) == FromEraDay(era, doe)
  {
    DivMod(z + EpochOffset, DaysPerEra, era, doe);
  }

  // ---------------------------------------------------------------------------
  // Months and years as runs of consecutive days
  // ---------------------------------------------------------------------------

  function YearLength(y: int): (r: int)
    ensures r == 365 || r == 366
    ensures r == 366 <==> IsLeapYear(y)
  {
    if IsLeapYear(y) then 366 else 365
  }

  /** Days of a common year before each month, January first. */
  const CommonDaysBefore: seq<int> := [0, 31, 59, 90, 120, 151, 181, 212, 243, 273, 304, 334]

  /** Days of civil year y before its month m: the lengths of the months before m added up,
      which is the common-year table plus the leap day after February. */
  function DaysBeforeMonth(y: int, m: int): (r: int)
    requires 1 <= m <= 12
    ensures r == CommonDaysBefore[m - 1] + (if m > 2 && IsLeapYear(y) then 1 else 0)
  {
    if m == 1 then 0 else DaysBeforeMonth(y, m - 1) + DaysInMonth(y, m - 1)
  }

  /** Taking the year one back, with the 400-year era boundary. */
  lemma PreviousYear(y: int)
    ensures (y - 1) % 400 < 399 ==> y / 400 == (y - 1) / 400 && y % 400 == (y - 1) % 400 + 1
    ensures (y - 1) % 400 == 399 ==> y / 400 == (y - 1) / 400 + 1 && y % 400 == 0
  {
    var q, r := (y - 1) / 400, (y - 1) % 400;
    if r < 399 {
      DivMod(y, 400, q, r + 1);
    } else {
      DivMod(y, 400, q + 1, 0);
    }
  }

  /** The first of a month is as many days after the first of the previous month as that month has. */
  lemma NextMonthStart(y: int, m: int)
    requires 1 <= m <= 11
    ensures DaysFromCivil(CivilDate(y, m + 1, 1)) == DaysFromCivil(CivilDate(y, m, 1)) + DaysInMonth(y, m)
  {
    if m == 2 {
      var yoe := (y - 1) % 400;
      PreviousYear(y);
      LeapRule((y - 1) / 400, yoe);
      assert (y - 1) / 400 * 400 + yoe + 1 == y;
    } else if m > 2 {
      MonthSpan(y, m - 3);
    }
  }

  /** 1 January follows 1 December by 31 days. */
  lemma NextYearStart(y: int)
    ensures DaysFromCivil(CivilDate(y + 1, 1, 1)) == DaysFromCivil(CivilDate(y, 12, 1)) + 31
  {
  }

  /** The first of the month after month m of year y, in the next year after December. */
  function FirstOfNextMonth(y: int, m: int): (c: CivilDate)
    requires 1 <= m <= 12
    ensures Valid(c) && c.day == 1
  {
    if m < 12 then CivilDate(y, m + 1, 1) else CivilDate(y + 1, 1, 1)
  }

  /** The next month starts right after the last day of month m. */
  lemma FollowingMonth(y: int, m: int)
    requires 1 <= m <= 12
    ensures DaysFromCivil(FirstOfNextMonth(y, m)) == DaysFromCivil(CivilDate(y, m, 1)) + DaysInMonth(y, m)
  {
    if m < 12 {
      NextMonthStart(y, m);
    } else {
      NextYearStart(y);
    }
  }

  /** Day z is the valid date c exactly when c counts to z. */
  lemma CivilAt(z: int, c: CivilDate)
    requires Valid(c) && DaysFromCivil(c) == z
    ensures CivilFromDays(z) == c
  {
    DaysFromCivilRoundTrip(c);
  }

  /** The first of month m lies DaysBeforeMonth(y, m) days after 1 January. */
  lemma {:induction false} MonthStartInYear(y: int, m: int)
    requires 1 <= m <= 12
    ensures DaysFromCivil(CivilDate(y, m, 1)) == DaysFromCivil(CivilDate(y, 1, 1)) + DaysBeforeMonth(y, m)
    decreases m
  {
    if m > 1 {
      MonthStartInYear(y, m - 1);
      NextMonthStart(y, m - 1);
    }
  }

  /** Days of one month are consecutive day counts. */
  lemma DayOffset(c: CivilDate)
    requires 1 <= c.month <= 12
    ensures DaysFromCivil(c) == DaysFromCivil(CivilDate(c.year, c.month, 1)) + c.day - 1
  {
  }

  /** A month ends within its year. */
  lemma MonthFitsYear(y: int, m: int)
    requires 1 <= m <= 12
    ensures DaysBeforeMonth(y, m) + DaysInMonth(y, m) <= YearLength(y)
  {
  }

  /** The position of a valid date in its year, counted from 1 for 1 January. */
  lemma OrdinalOf(c: CivilDate)
    requires Valid(c)
    ensures DaysFromCivil(c) - DaysFromCivil(CivilDate(c.year, 1, 1)) + 1 == DaysBeforeMonth(c.year, c.month) + c.day
    ensures 1 <= DaysBeforeMonth(c.year, c.month) + c.day <= YearLength(c.year)
  {
    DayOffset(c);
    MonthStartInYear(c.year, c.month);
    MonthFitsYear(c.year, c.month);
  }

  /** A civil year has YearLength(y) days between its 1 January and the next. */
  lemma YearSpan(y: int)
    ensures DaysFromCivil(CivilDate(y + 1, 1, 1)) == DaysFromCivil(CivilDate(y, 1, 1)) + YearLength(y)
  {
    MonthStartInYear(y, 12);
    NextYearStart(y);
  }
}
