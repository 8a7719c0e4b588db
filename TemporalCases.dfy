/**
 * The temporal dispatch instantiated with the calendar: `offset_by` with a month/day
 * offset, and `combine` on the test frame's columns.
 */
module TemporalCases {
  import opened Wrappers
  import opened DataTypes
  import opened Calendar
  import opened Offsets
  import opened DatetimeCases
  import opened Temporal

  /** A day offset in every unit: the day of the value moved by `off`, at the same time of day. */
  function DayAdd(off: int -> Result<int, OffsetError>): DurationAdd {
    (f: AddFn, t: int, tz: Option<string>) =>
      var d := TicksPerDay(AddUnit(f));
      match off(t / d)
      case Ok(z) => Ok(z * d + t % d)
      case Err(_) => Err("cannot advance")
  }

  /** The calendar offset of a day count by months and days. */
  function CalendarOffset(months: int, days: int, saturating: bool): int -> Result<int, OffsetError> {
    z => OffsetDate(z, months, days, saturating)
  }

  /** The calendar offset in every unit. */
  function CalendarAdd(months: int, days: int, saturating: bool): DurationAdd {
    DayAdd(CalendarOffset(months, days, saturating))
  }

  /** On a Date column, `offset_by` with the calendar offset is the calendar offset of each day. */
  lemma OffsetByOnDates(s: Series, months: int, days: int, saturating: bool)
    requires s.dtype.Date?
    ensures var r := DateOffset(s, CalendarAdd(months, days, saturating));
      && (r.Ok? <==> forall i :: 0 <= i < |s.values| && s.values[i].Some? ==> OffsetDate(s.values[i].value, months, days, saturating).Ok?)
      && (r.Ok? ==> (r.value.dtype == Date && |r.value.values| == |s.values|
           && forall i :: 0 <= i < |s.values| ==> (r.value.values[i] ==
                if s.values[i].Some? then Some(OffsetDate(s.values[i].value, months, days, saturating).value) else None)))
  {
    var add := CalendarAdd(months, days, saturating);
    DateOffsetOfDate(s, add);
    forall i | 0 <= i < |s.values| && s.values[i].Some?
      ensures add(AddMs, s.values[i].value * ToMs, None).Ok? <==> OffsetDate(s.values[i].value, months, days, saturating).Ok?
      ensures add(AddMs, s.values[i].value * ToMs, None).Ok? ==>
        add(AddMs, s.values[i].value * ToMs, None).value / ToMs == OffsetDate(s.values[i].value, months, days, saturating).value
    {
      DayAddOnDay(CalendarOffset(months, days, saturating), s.values[i].value);
    }
  }

  /** Day v in milliseconds, moved by a day offset and divided back into days, is the offset of
      v, and fails exactly when that does. */
  lemma DayAddOnDay(off: int -> Result<int, OffsetError>, v: int)
    ensures var add := DayAdd(off)(AddMs, v * ToMs, None);
      && (add.Ok? <==> off(v).Ok?)
      && (add.Ok? ==> add.value / ToMs == off(v).value)
  {
    assert TicksPerDay(AddUnit(AddMs)) == ToMs;
    DivMod(v * ToMs, ToMs, v, 0);
    var o := off(v);
    if o.Ok? {
      assert DayAdd(off)(AddMs, v * ToMs, None) == Ok(o.value * ToMs);
      DivMod(o.value * ToMs, ToMs, o.value, 0);
    }
  }

  /** 1 January of year y, day z, offset by "-1y2mo" is 1 November of year y - 2, day w. */
  lemma OffsetNewYearByMinus14(y: int, z: int, w: int)
    requires z == DaysFromCivil(CivilDate(y, 1, 1)) && w == DaysFromCivil(CivilDate(y - 2, 11, 1))
    ensures OffsetDate(z, -14, 0, false) == Ok(w)
  {
    DaysFromCivilRoundTrip(CivilDate(y, 1, 1));
    YearlyOffsets(y);
  }

  /** The first of a month in each of n consecutive years from y0, as a Date column's values. */
  function FirstsOf(y0: int, n: nat, month: int): (r: seq<Option<int>>)
    requires 1 <= month <= 12
    ensures |r| == n
  {
    seq(n, i => Some(DaysFromCivil(CivilDate(y0 + i, month, 1))))
  }

  /** On a Date column without nulls whose every day offsets successfully, the result holds the
      offset days. */
  lemma OffsetByAllDefined(days: seq<Option<int>>, months: int, saturating: bool, expected: seq<Option<int>>)
    requires |expected| == |days|
    requires forall i :: 0 <= i < |days| ==>
      days[i].Some? && expected[i].Some? && OffsetDate(days[i].value, months, 0, saturating) == Ok(expected[i].value)
    ensures DateOffset(Series(Date, days), CalendarAdd(months, 0, saturating)) == Ok(Series(Date, expected))
  {
    var s := Series(Date, days);
    OffsetByOnDates(s, months, 0, saturating);
    var r := DateOffset(s, CalendarAdd(months, 0, saturating)).value;
    assert r.values == expected;
  }

  /** A column of 1 January of consecutive years offset by "-1y2mo" is 1 November of the years two
      earlier; for 2000 ... 2020 that is 1998 ... 2018. */
  lemma OffsetYearlyDates(y0: int, n: nat)
    ensures DateOffset(Series(Date, FirstsOf(y0, n, 1)), CalendarAdd(-14, 0, false)) == Ok(Series(Date, FirstsOf(y0 - 2, n, 11)))
  {
    YearlyFirstsOffset(y0, n);
    OffsetByAllDefined(FirstsOf(y0, n, 1), -14, false, FirstsOf(y0 - 2, n, 11));
  }

  lemma YearlyFirstsOffset(y0: int, n: nat)
    ensures var jan, nov := FirstsOf(y0, n, 1), FirstsOf(y0 - 2, n, 11);
      forall i :: 0 <= i < n ==> jan[i].Some? && nov[i].Some? && OffsetDate(jan[i].value, -14, 0, false) == Ok(nov[i].value)
  {
    var jan, nov := FirstsOf(y0, n, 1), FirstsOf(y0 - 2, n, 11);
    forall i | 0 <= i < n
      ensures jan[i].Some? && nov[i].Some? && OffsetDate(jan[i].value, -14, 0, false) == Ok(nov[i].value)
    {
      NewYearInFirsts(y0, n, i, jan[i], nov[i]);
    }
  }

  /** Row i of the two columns: the first of January of year y0 + i, and the first of November
      two years earlier, which is where the former lands fourteen months back. */
  lemma NewYearInFirsts(y0: int, n: nat, i: int, a: Option<int>, b: Option<int>)
    requires 0 <= i < n && a == FirstsOf(y0, n, 1)[i] && b == FirstsOf(y0 - 2, n, 11)[i]
    ensures a.Some? && b.Some? && OffsetDate(a.value, -14, 0, false) == Ok(b.value)
  {
    OffsetNewYearByMinus14(y0 + i, a.value, b.value);
  }

  /** A value at day v and time of day t, moved by a day offset: the offset day at the same time
      of day, failing exactly when the offset of the day does. */
  lemma DayAddAt(off: int -> Result<int, OffsetError>, f: AddFn, v: int, t: int, tz: Option<string>)
    requires 0 <= t < TicksPerDay(AddUnit(f))
    ensures var add := DayAdd(off)(f, v * TicksPerDay(AddUnit(f)) + t, tz);
      && (add.Ok? <==> off(v).Ok?)
      && (add.Ok? ==> add.value == off(v).value * TicksPerDay(AddUnit(f)) + t)
  {
    var d := TicksPerDay(AddUnit(f));
    DivMod(v * d + t, d, v, t);
  }

  /** Midnight of the first of a month in each of n consecutive years from y0, as the values of a
      Datetime column in microseconds. */
  function MidnightsOf(y0: int, n: nat, month: int): (r: seq<Option<int>>)
    requires 1 <= month <= 12
    ensures |r| == n
  {
    seq(n, i => Some(DaysFromCivil(CivilDate(y0 + i, month, 1)) * TicksPerDay(Microseconds)))
  }

  /** The yearly datetimes 1 January y0 ... y0 + n - 1 at midnight, in microseconds, offset by
      "-1y2mo": midnight of 1 November two years earlier, the dtype kept. */
  lemma OffsetYearlyDatetimes(y0: int, n: nat)
    ensures DateOffset(Series(Datetime(Microseconds, None), MidnightsOf(y0, n, 1)), CalendarAdd(-14, 0, false))
      == Ok(Series(Datetime(Microseconds, None), MidnightsOf(y0 - 2, n, 11)))
  {
    var s := Series(Datetime(Microseconds, None), MidnightsOf(y0, n, 1));
    var expected := MidnightsOf(y0 - 2, n, 11);
    var add := CalendarAdd(-14, 0, false);
    assert OffsetFn(Microseconds) == AddUs && AddUnit(AddUs) == Microseconds;
    forall i | 0 <= i < n
      ensures add(AddUs, s.values[i].value, None) == Ok(expected[i].value)
    {
      var jan, nov := FirstsOf(y0, n, 1)[i], FirstsOf(y0 - 2, n, 11)[i];
      NewYearInFirsts(y0, n, i, jan, nov);
      DayAddAt(CalendarOffset(-14, 0, false), AddUs, jan.value, 0, None);
    }
    DateOffsetOfDatetime(s, add);
    var r := DateOffset(s, add).value;
    assert r.values == expected;
  }

  /** 2022-03-30 in microseconds offset by "-1mo" fails. */
  lemma OffsetMarch30Fails()
    ensures DateOffset(Series(Datetime(Microseconds, None), [Some(DaysFromCivil(CivilDate(2022, 3, 30)) * TicksPerDay(Microseconds))]),
                       CalendarAdd(-1, 0, false)).Err?
  {
    var s := Series(Datetime(Microseconds, None), [Some(DaysFromCivil(CivilDate(2022, 3, 30)) * TicksPerDay(Microseconds))]);
    var z := DaysFromCivil(CivilDate(2022, 3, 30));
    DivMod(z * TicksPerDay(Microseconds), TicksPerDay(Microseconds), z, 0);
    DaysFromCivilRoundTrip(CivilDate(2022, 3, 30));
    CannotAdvanceMarch30();
    DateOffsetOfDatetime(s, CalendarAdd(-1, 0, false));
  }

  /** Date column 2022-10-10, 2022-07-05 combined with times 01:02:03.456 and 07:08:09.101 in
      microseconds: each day at that time, without a zone. */
  lemma CombineDatesWithTimes(replaceTz: ReplaceTimeZone)
    ensures var date := Series(Date, [Some(DaysFromCivil(CivilDate(2022, 10, 10))), Some(DaysFromCivil(CivilDate(2022, 7, 5)))]);
      var time := Series(Time, [Some(3723_456_000_000), Some(25689_101_000_000)]);
      Combine(date, time, Microseconds, replaceTz) == Ok(Series(Datetime(Microseconds, None),
        [Some(DaysFromCivil(CivilDate(2022, 10, 10)) * 86_400_000_000 + 3723_456_000),
         Some(DaysFromCivil(CivilDate(2022, 7, 5)) * 86_400_000_000 + 25689_101_000)]))
  {
    var date := Series(Date, [Some(DaysFromCivil(CivilDate(2022, 10, 10))), Some(DaysFromCivil(CivilDate(2022, 7, 5)))]);
    var time := Series(Time, [Some(3723_456_000_000), Some(25689_101_000_000)]);
    CombineKeepsDay(date, time, Microseconds, replaceTz, 0);
    CombineKeepsDay(date, time, Microseconds, replaceTz, 1);
    CombineDtype(date, time, Microseconds, replaceTz);
    var out := Combine(date, time, Microseconds, replaceTz).value;
    assert out.values == [out.values[0], out.values[1]];
  }
}
