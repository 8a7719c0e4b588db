/**
 * The temporal expression functions of the lazy planner: the range dispatch behind
 * `date_range`/`time_range` on expression bounds, `dt.combine` and `dt.offset_by`.
 *
 * A Series is its dtype and its physical values: days since 1970-01-01 for Date,
 * ticks of the time unit since the epoch for Datetime, ticks for Duration and
 * nanoseconds since midnight for Time. The range generators `date_range_impl` and
 * `time_range_impl`, the `Duration::add_*` functions and `replace_time_zone` are
 * parameters of the model.
 */
module Temporal {
  import opened Wrappers
  import opened DataTypes
  import opened Calendar

  datatype Series = Series(dtype: DataType, values: seq<Option<int>>)

  datatype TemporalError =
    | LengthMismatch                      // 'start' and 'stop' should have the same length
    | NullBound                           // a length-1 bound that is null: the unwrap panics
    | UnsupportedRange(dtype: DataType)   // the unimplemented!() arms of the range dispatch
    | ExpectedDateOrDatetime(got: DataType)
    | CannotUseDateOffset(got: DataType)
    | CannotCastToDuration(got: DataType)
    | ShapeMismatch                       // arithmetic on columns of different lengths
    | Failed(msg: string)                 // an error raised by one of the parameters

  /** `date_range_impl(name, start, stop, every, closed, tu, tz)` with name, every and closed fixed. */
  type DateRangeImpl = (int, int, TimeUnit, Option<string>) -> Result<seq<int>, string>
  /** `time_range_impl(name, start, stop, every, closed)` with name, every and closed fixed. */
  type TimeRangeImpl = (int, int) -> Result<seq<int>, string>

  /** SECONDS_IN_DAY * 1000: milliseconds per day. */
  const ToMs: int := SecondsInDay * 1000

  /** Casting a Datetime in milliseconds to Date: whole days, rounded down. */
  function MsToDays(v: seq<int>): (r: seq<int>)
    ensures |r| == |v|
    ensures forall i :: 0 <= i < |v| ==> r[i] * ToMs <= v[i] < r[i] * ToMs + ToMs
  {
    seq(|v|, i requires 0 <= i < |v| => v[i] / ToMs)
  }

  // ---------------------------------------------------------------------------
  // temporal_range_dispatch
  // ---------------------------------------------------------------------------

  /** The result: one flat range, or a list column with one entry per row. */
  datatype RangeOutput =
    | Flat(dtype: DataType, values: seq<int>)
    | Lists(dtype: DataType, rows: seq<Option<seq<int>>>)

  /** How list mode calls the generator for a dtype: the factor on the bounds, the unit,
      the time zone, and whether the result is cast back to Date. */
  datatype ListMode = ListMode(scale: int, unit: TimeUnit, tz: Option<string>, toDate: bool)

  function ListModeOf(dtype: DataType): (m: Option<ListMode>)
    ensures m.Some? <==> dtype.Date? || dtype.Datetime? || dtype.Time?
    ensures dtype.Date? ==> m == Some(ListMode(ToMs, Milliseconds, None, true))
  {
    match dtype
    case Date => Some(ListMode(ToMs, Milliseconds, None, true))
    case Datetime(tu, tz) => Some(ListMode(1, tu, tz, false))
    case Time => Some(ListMode(1, Nanoseconds, None, false))
    case _ => None
  }

  /** The list entry of one row: null when either bound is null, the generated range otherwise. */
  function RangeRow(a: Option<int>, b: Option<int>, mode: ListMode, dateRange: DateRangeImpl): Result<Option<seq<int>>, TemporalError> {
    if a.Some? && b.Some? then
      match dateRange(a.value * mode.scale, b.value * mode.scale, mode.unit, mode.tz)
      case Ok(v) => Ok(Some(if mode.toDate then MsToDays(v) else v))
      case Err(e) => Err(Failed(e))
    else Ok(None)
  }

  /** The rows of list mode, in order; the first failing row fails the whole call. */
  function RangeRows(starts: seq<Option<int>>, stops: seq<Option<int>>, mode: ListMode, dateRange: DateRangeImpl): Result<seq<Option<seq<int>>>, TemporalError>
    requires |starts| == |stops|
    decreases |starts|
  {
    if |starts| == 0 then Ok([])
    else
      var n := |starts| - 1;
      var init :- RangeRows(starts[..n], stops[..n], mode, dateRange);
      var last :- RangeRow(starts[n], stops[n], mode, dateRange);
      Ok(init + [last])
  }

  /** Flat mode, for bounds of length 1: a null bound panics, Date bounds become milliseconds
      and the range is cast back to Date, Time bounds go to the time range generator. */
  function FlatRange(a: Option<int>, b: Option<int>, dtype: DataType, tz: Option<string>, dateRange: DateRangeImpl, timeRange: TimeRangeImpl): Result<RangeOutput, TemporalError> {
    if a.None? || b.None? then Err(NullBound)
    else
      match dtype
      case Datetime(tu, _) =>
        (match dateRange(a.value, b.value, tu, tz)
         case Ok(v) => Ok(Flat(Datetime(tu, tz), v))
         case Err(e) => Err(Failed(e)))
      case Date =>
        (match dateRange(a.value * ToMs, b.value * ToMs, Milliseconds, tz)
         case Ok(v) => Ok(Flat(Date, MsToDays(v)))
         case Err(e) => Err(Failed(e)))
      case Time =>
        (match timeRange(a.value, b.value)
         case Ok(v) => Ok(Flat(Time, v))
         case Err(e) => Err(Failed(e)))
      case _ => Err(UnsupportedRange(dtype))
  }

  /** List mode: one entry per row, the column typed as a list of the input dtype. */
  function ListRange(start: Series, stop: Series, dateRange: DateRangeImpl): Result<RangeOutput, TemporalError>
    requires |start.values| == |stop.values|
  {
    match ListModeOf(start.dtype)
    case None => Err(UnsupportedRange(start.dtype))
    case Some(mode) =>
      var rows :- RangeRows(start.values, stop.values, mode, dateRange);
      Ok(Lists(List(start.dtype), rows))
  }

  /** What the dispatch computes. */
  function RangeSpec(start: Series, stop: Series, tz: Option<string>, dateRange: DateRangeImpl, timeRange: TimeRangeImpl): Result<RangeOutput, TemporalError> {
    if |start.values| != |stop.values| then Err(LengthMismatch)
    else if |start.values| == 1 then FlatRange(start.values[0], stop.values[0], start.dtype, tz, dateRange, timeRange)
    else ListRange(start, stop, dateRange)
  }

  /** `ListPrimitiveChunkedBuilder`: the list entries appended so far. */
  class ListBuilder {
    var rows: seq<Option<seq<int>>>

    constructor ()
      ensures rows == []
    {
      rows := [];
    }

    method AppendSlice(s: seq<int>)
      modifies this
      ensures rows == old(rows) + [Some(s)]
    {
      rows := rows + [Some(s)];
    }

    method AppendNull()
      modifies this
      ensures rows == old(rows) + [None]
    {
      rows := rows + [None];
    }
  }

  /** Once a prefix of the rows fails, every longer prefix fails with the same error. */
  lemma {:induction false} RangeRowsFailureSticks(starts: seq<Option<int>>, stops: seq<Option<int>>, k: nat, mode: ListMode, dateRange: DateRangeImpl)
    requires |starts| == |stops| && k <= |starts|
    requires RangeRows(starts[..k], stops[..k], mode, dateRange).Err?
    ensures RangeRows(starts, stops, mode, dateRange) == RangeRows(starts[..k], stops[..k], mode, dateRange)
    decreases |starts| - k
  {
    if k < |starts| {
      var n := |starts| - 1;
      if k < n {
        assert starts[..n][..k] == starts[..k] && stops[..n][..k] == stops[..k];
        RangeRowsFailureSticks(starts[..n], stops[..n], k, mode, dateRange);
      }
      assert starts[..n] == starts[..k] || k < n;
    } else {
      assert starts[..k] == starts && stops[..k] == stops;
    }
  }

  /** One more row: the longer prefix extends the shorter one's rows by that row's entry, or fails with its error. */
  lemma RangeRowsStep(starts: seq<Option<int>>, stops: seq<Option<int>>, i: nat, mode: ListMode, dateRange: DateRangeImpl, rows: seq<Option<seq<int>>>)
    requires |starts| == |stops| && i < |starts|
    requires RangeRows(starts[..i], stops[..i], mode, dateRange) == Ok(rows)
    ensures RangeRows(starts[..i + 1], stops[..i + 1], mode, dateRange)
      == match RangeRow(starts[i], stops[i], mode, dateRange)
         case Ok(x) => Ok(rows + [x])
         case Err(e) => Err(e)
  {
    assert starts[..i + 1][..i] == starts[..i] && stops[..i + 1][..i] == stops[..i];
  }

  /** The list-mode loop: each row appends its range, or a null when a bound is null. */
  method BuildRangeList(start: Series, stop: Series, dateRange: DateRangeImpl) returns (r: Result<RangeOutput, TemporalError>)
    requires |start.values| == |stop.values|
    ensures r == ListRange(start, stop, dateRange)
  {
    var modeOf := ListModeOf(start.dtype);
    if modeOf.None? {
      return Err(UnsupportedRange(start.dtype));
    }
    var mode := modeOf.value;
    var starts, stops := start.values, stop.values;
    var builder := new ListBuilder();
    var i := 0;
    while i < |starts|
      invariant 0 <= i <= |starts|
      invariant RangeRows(starts[..i], stops[..i], mode, dateRange) == Ok(builder.rows)
    {
      RangeRowsStep(starts, stops, i, mode, dateRange, builder.rows);
      match (starts[i], stops[i]) {
        case (Some(lo), Some(hi)) =>
          var rng := dateRange(lo * mode.scale, hi * mode.scale, mode.unit, mode.tz);
          if rng.Err? {
            RangeRowsFailureSticks(starts, stops, i + 1, mode, dateRange);
            return Err(Failed(rng.error));
          }
          builder.AppendSlice(if mode.toDate then MsToDays(rng.value) else rng.value);
        case _ =>
          builder.AppendNull();
      }
      i := i + 1;
    }
    assert starts[..i] == starts && stops[..i] == stops;
    return Ok(Lists(List(start.dtype), builder.rows));
  }

  /** `temporal_range_dispatch`: the length check, then a flat range when both bounds have
      length 1, else the list-mode loop. */
  method TemporalRangeDispatch(start: Series, stop: Series, tz: Option<string>, dateRange: DateRangeImpl, timeRange: TimeRangeImpl)
    returns (r: Result<RangeOutput, TemporalError>)
    ensures r == RangeSpec(start, stop, tz, dateRange, timeRange)
  {
    if |start.values| != |stop.values| {
      return Err(LengthMismatch);
    }
    if |start.values| == 1 {
      return FlatRange(start.values[0], stop.values[0], start.dtype, tz, dateRange, timeRange);
    }
    r := BuildRangeList(start, stop, dateRange);
  }

  // ---------------------------------------------------------------------------
  // What the dispatch promises
  // ---------------------------------------------------------------------------

  /** The ranges of list mode, row by row: every row's own entry, in order. */
  lemma {:induction false} RangeRowsAt(starts: seq<Option<int>>, stops: seq<Option<int>>, mode: ListMode, dateRange: DateRangeImpl)
    requires |starts| == |stops|
    ensures RangeRows(starts, stops, mode, dateRange).Ok? <==>
      forall i :: 0 <= i < |starts| ==> RangeRow(starts[i], stops[i], mode, dateRange).Ok?
    ensures RangeRows(starts, stops, mode, dateRange).Ok? ==>
      var rows := RangeRows(starts, stops, mode, dateRange).value;
      |rows| == |starts| && forall i :: 0 <= i < |starts| ==> RangeRow(starts[i], stops[i], mode, dateRange) == Ok(rows[i])
    decreases |starts|
  {
    if |starts| > 0 {
      var n := |starts| - 1;
      RangeRowsAt(starts[..n], stops[..n], mode, dateRange);
      assert forall i :: 0 <= i < n ==> starts[..n][i] == starts[i] && stops[..n][i] == stops[i];
    }
  }

  /** A failing list call fails with the error of its first failing row. */
  lemma {:induction false} RangeRowsFirstFailure(starts: seq<Option<int>>, stops: seq<Option<int>>, mode: ListMode, dateRange: DateRangeImpl)
    requires |starts| == |stops|
    requires RangeRows(starts, stops, mode, dateRange).Err?
    ensures exists k :: (0 <= k < |starts| && RangeRow(starts[k], stops[k], mode, dateRange).Err?
      && RangeRow(starts[k], stops[k], mode, dateRange).error == RangeRows(starts, stops, mode, dateRange).error
      && forall j :: 0 <= j < k ==> RangeRow(starts[j], stops[j], mode, dateRange).Ok?)
    decreases |starts|
  {
    var n := |starts| - 1;
    assert forall i :: 0 <= i < n ==> starts[..n][i] == starts[i] && stops[..n][i] == stops[i];
    if RangeRows(starts[..n], stops[..n], mode, dateRange).Err? {
      RangeRowsFirstFailure(starts[..n], stops[..n], mode, dateRange);
    } else {
      RangeRowsAt(starts[..n], stops[..n], mode, dateRange);
      assert RangeRow(starts[n], stops[n], mode, dateRange).Err?;
    }
  }

  /** Bounds of different lengths, and only they, fail the length check. */
  lemma RangeLengthCheck(start: Series, stop: Series, tz: Option<string>, dateRange: DateRangeImpl, timeRange: TimeRangeImpl)
    ensures RangeSpec(start, stop, tz, dateRange, timeRange) == Err(LengthMismatch) <==> |start.values| != |stop.values|
  {
    if |start.values| == |stop.values| && |start.values| != 1 {
      if ListModeOf(start.dtype).Some? && RangeRows(start.values, stop.values, ListModeOf(start.dtype).value, dateRange).Err? {
        RangeRowsFirstFailure(start.values, stop.values, ListModeOf(start.dtype).value, dateRange);
      }
    }
  }

  /** The result is flat exactly when both bounds have length 1; otherwise it is a list
      column typed List(dtype) with one entry per row, null exactly where a bound is null. */
  lemma RangeShape(start: Series, stop: Series, tz: Option<string>, dateRange: DateRangeImpl, timeRange: TimeRangeImpl)
    requires RangeSpec(start, stop, tz, dateRange, timeRange).Ok?
    ensures var out := RangeSpec(start, stop, tz, dateRange, timeRange).value;
      && |start.values| == |stop.values|
      && (out.Flat? <==> |start.values| == 1)
      && (out.Lists? ==> (out.dtype == List(start.dtype) && |out.rows| == |start.values|
           && forall i :: 0 <= i < |out.rows| ==> (out.rows[i].None? <==> start.values[i].None? || stop.values[i].None?)))
  {
    if |start.values| != 1 {
      RangeRowsAt(start.values, stop.values, ListModeOf(start.dtype).value, dateRange);
    }
  }

  /** Date bounds are scaled to milliseconds, generated in milliseconds without a zone in list
      mode, and cast back to days. */
  lemma DateRangeInMilliseconds(start: Series, stop: Series, tz: Option<string>, dateRange: DateRangeImpl, timeRange: TimeRangeImpl, i: int)
    requires start.dtype == Date && |start.values| == |stop.values| && 0 <= i < |start.values|
    requires start.values[i].Some? && stop.values[i].Some?
    requires RangeSpec(start, stop, tz, dateRange, timeRange).Ok?
    ensures var out := RangeSpec(start, stop, tz, dateRange, timeRange).value;
      var a, b := start.values[i].value * ToMs, stop.values[i].value * ToMs;
      if |start.values| == 1 then
        dateRange(a, b, Milliseconds, tz).Ok? && out == Flat(Date, MsToDays(dateRange(a, b, Milliseconds, tz).value))
      else
        out.Lists? && |out.rows| == |start.values| && dateRange(a, b, Milliseconds, None).Ok?
        && out.rows[i] == Some(MsToDays(dateRange(a, b, Milliseconds, None).value))
  {
    if |start.values| != 1 {
      RangeRowsAt(start.values, stop.values, ListModeOf(Date).value, dateRange);
    }
  }

  // ---------------------------------------------------------------------------
  // combine
  // ---------------------------------------------------------------------------

  /** The same function applied to every non-null value. */
  function MapValues(v: seq<Option<int>>, f: int -> int): (r: seq<Option<int>>)
    ensures |r| == |v|
    ensures forall i :: 0 <= i < |v| ==> r[i] == (if v[i].Some? then Some(f(v[i].value)) else None)
  {
    seq(|v|, i requires 0 <= i < |v| => if v[i].Some? then Some(f(v[i].value)) else None)
  }

  /** `replace_time_zone` on Datetime values in a unit, to a named zone. */
  type ReplaceTimeZone = (seq<Option<int>>, TimeUnit, string) -> Result<seq<Option<int>>, string>

  /** The zone of combine's result: none for a Date, the input's own for a Datetime,
      and any other first input is refused. */
  function CombineZone(dtype: DataType): (r: Result<Option<string>, TemporalError>)
    ensures r.Err? <==> !(dtype.Date? || dtype.Datetime?)
    ensures r.Err? ==> r.error == ExpectedDateOrDatetime(dtype)
    ensures dtype.Date? ==> r == Ok(None)
    ensures dtype.Datetime? ==> r == Ok(dtype.timeZone)
  {
    match dtype
    case Date => Ok(None)
    case Datetime(_, tz) => Ok(tz)
    case _ => Err(ExpectedDateOrDatetime(dtype))
  }

  /** The day counts of a Date or Datetime column: a Datetime's day is its ticks divided by
      a day's ticks, rounded down. */
  function DaysOf(s: Series): seq<Option<int>>
    requires s.dtype.Date? || s.dtype.Datetime?
  {
    if s.dtype.Date? then s.values
    else MapValues(s.values, v => v / TicksPerDay(s.dtype.unit))
  }

  /** Nanoseconds since midnight in unit tu. */
  function NanosIn(tu: TimeUnit): (r: int)
    ensures r >= 1 && r * TicksPerSecond(tu) == 1_000_000_000
  {
    1_000_000_000 / TicksPerSecond(tu)
  }

  /** Casting the time column to Duration(tu); a Time is nanoseconds since midnight. */
  function TimeAsDuration(time: Series, tu: TimeUnit): (r: Result<seq<Option<int>>, TemporalError>)
    ensures r.Err? <==> !time.dtype.Time?
  {
    if time.dtype.Time? then Ok(MapValues(time.values, ns => ns / NanosIn(tu)))
    else Err(CannotCastToDuration(time.dtype))
  }

  /** Adding two columns row by row, a length-1 column broadcast to the other's length;
      a null on either side gives a null. */
  function AddColumns(a: seq<Option<int>>, b: seq<Option<int>>): (r: Result<seq<Option<int>>, TemporalError>)
    ensures r.Err? <==> |a| != |b| && |a| != 1 && |b| != 1
    ensures r.Ok? ==> |r.value| == (if |a| == 1 then |b| else |a|)
    ensures r.Ok? && |a| == |b| ==> forall i :: 0 <= i < |a| ==>
      r.value[i] == (if a[i].Some? && b[i].Some? then Some(a[i].value + b[i].value) else None)
  {
    if |a| == |b| then Ok(seq(|a|, i requires 0 <= i < |a| => if a[i].Some? && b[i].Some? then Some(a[i].value + b[i].value) else None))
    else if |b| == 1 then Ok(seq(|a|, i requires 0 <= i < |a| => if a[i].Some? && b[0].Some? then Some(a[i].value + b[0].value) else None))
    else if |a| == 1 then Ok(seq(|b|, i requires 0 <= i < |b| => if a[0].Some? && b[i].Some? then Some(a[0].value + b[i].value) else None))
    else Err(ShapeMismatch)
  }

  /** `dt.combine(time, tu)`: the date part of the first column at midnight in unit tu, plus
      the time column as a duration; a zoned input has its zone put back. */
  function Combine(date: Series, time: Series, tu: TimeUnit, replaceTz: ReplaceTimeZone): Result<Series, TemporalError> {
    var tz :- CombineZone(date.dtype);
    var midnight := MapValues(DaysOf(date), d => d * TicksPerDay(tu));
    var duration :- TimeAsDuration(time, tu);
    var naive :- AddColumns(midnight, duration);
    match tz
    case Some(zone) =>
      (match replaceTz(naive, tu, zone)
       case Ok(v) => Ok(Series(Datetime(tu, Some(zone)), v))
       case Err(e) => Err(Failed(e)))
    case None => Ok(Series(Datetime(tu, None), naive))
  }

  /** A first column that is neither Date nor Datetime, and only such a column, is refused
      with "expected Date or Datetime, got ..." */
  lemma CombineRefuses(date: Series, time: Series, tu: TimeUnit, replaceTz: ReplaceTimeZone)
    ensures Combine(date, time, tu, replaceTz) == Err(ExpectedDateOrDatetime(date.dtype)) <==> !(date.dtype.Date? || date.dtype.Datetime?)
  {
  }

  /** The result is a Datetime in unit tu, without a zone for a Date input and with the input's
      zone for a Datetime input. */
  lemma CombineDtype(date: Series, time: Series, tu: TimeUnit, replaceTz: ReplaceTimeZone)
    requires Combine(date, time, tu, replaceTz).Ok?
    ensures Combine(date, time, tu, replaceTz).value.dtype == Datetime(tu, CombineZone(date.dtype).value)
  {
  }

  /** Without a zone, combine keeps each row's day and replaces its time of day: the result
      divided by a day's ticks is the input's day, and the remainder is the time in unit tu. */
  lemma CombineKeepsDay(date: Series, time: Series, tu: TimeUnit, replaceTz: ReplaceTimeZone, i: int)
    requires date.dtype.Date? || (date.dtype.Datetime? && date.dtype.timeZone.None?)
    requires time.dtype == Time && |date.values| == |time.values| && 0 <= i < |date.values|
    requires date.values[i].Some? && time.values[i].Some?
    requires 0 <= time.values[i].value < SecondsInDay * 1_000_000_000
    ensures Combine(date, time, tu, replaceTz).Ok?
    ensures var out := Combine(date, time, tu, replaceTz).value.values;
      |out| == |date.values| && out[i].Some?
      && out[i].value / TicksPerDay(tu) == DaysOf(date)[i].value
      && out[i].value % TicksPerDay(tu) == time.values[i].value / NanosIn(tu)
  {
    var d := TicksPerDay(tu);
    var t := time.values[i].value / NanosIn(tu);
    assert 0 <= t < d by {
      match tu
      case Nanoseconds =>
      case Microseconds =>
      case Milliseconds =>
    }
    var day := DaysOf(date)[i].value;
    DivMod(day * d + t, d, day, t);
  }

  // ---------------------------------------------------------------------------
  // date_offset
  // ---------------------------------------------------------------------------

  /** The three `Duration::add_*` functions, one per time unit. */
  datatype AddFn = AddNs | AddUs | AddMs

  /** The unit an add function works in. */
  function AddUnit(f: AddFn): TimeUnit {
    match f
    case AddNs => Nanoseconds
    case AddUs => Microseconds
    case AddMs => Milliseconds
  }

  /** `offset_fn`: the add function for a time unit. */
  function OffsetFn(tu: TimeUnit): (f: AddFn)
    ensures AddUnit(f) == tu
  {
    match tu
    case Nanoseconds => AddNs
    case Microseconds => AddUs
    case Milliseconds => AddMs
  }

  /** Each add function is the one of its own unit. */
  lemma OffsetFnOfUnit(f: AddFn)
    ensures OffsetFn(AddUnit(f)) == f
  {
  }

  /** `offset.add_*(t, tz)`: the offset fixed, applied to a value in the add function's unit. */
  type DurationAdd = (AddFn, int, Option<string>) -> Result<int, string>

  /** `try_apply` on non-null values: the first failure fails the whole column. */
  function TryApply(v: seq<Option<int>>, f: int -> Result<int, string>): (r: Result<seq<Option<int>>, string>)
    ensures r.Ok? <==> forall i :: 0 <= i < |v| && v[i].Some? ==> f(v[i].value).Ok?
    ensures r.Ok? ==> |r.value| == |v| && forall i :: 0 <= i < |v| ==>
      r.value[i] == (if v[i].Some? then Some(f(v[i].value).value) else None)
    decreases |v|
  {
    if |v| == 0 then Ok([])
    else
      var head :- if v[0].Some? then (match f(v[0].value) case Ok(x) => Ok(Some(x)) case Err(e) => Err(e)) else Ok(None);
      var tail :- TryApply(v[1..], f);
      assert forall i :: 1 <= i < |v| ==> v[1..][i - 1] == v[i];
      Ok([head] + tail)
  }

  /** `date_offset`: a Date goes through Datetime in milliseconds and back; a Datetime is offset
      with the add function of its unit and keeps its dtype; anything else is refused. */
  function DateOffset(s: Series, add: DurationAdd): Result<Series, TemporalError>
    decreases if s.dtype.Date? then 1 else 0
  {
    match s.dtype
    case Date =>
      var out :- DateOffset(Series(Datetime(Milliseconds, None), MapValues(s.values, d => d * ToMs)), add);
      Ok(Series(Date, MapValues(out.values, ms => ms / ToMs)))
    case Datetime(tu, tz) =>
      (match TryApply(s.values, t => add(OffsetFn(tu), t, tz))
       case Ok(v) => Ok(Series(Datetime(tu, tz), v))
       case Err(e) => Err(Failed(e)))
    case _ => Err(CannotUseDateOffset(s.dtype))
  }

  /** Only columns that are neither Date nor Datetime are refused, with
      "cannot use 'date_offset' on Series of datatype ..." */
  lemma DateOffsetRefuses(s: Series, add: DurationAdd)
    ensures DateOffset(s, add) == Err(CannotUseDateOffset(s.dtype)) <==> !(s.dtype.Date? || s.dtype.Datetime?)
  {
  }

  /** A Datetime(tu, tz) column keeps its dtype; each non-null value goes through the add function
      of unit tu with the column's zone, and nulls stay null. */
  lemma DateOffsetOfDatetime(s: Series, add: DurationAdd)
    requires s.dtype.Datetime?
    ensures var r := DateOffset(s, add);
      && (r.Ok? <==> forall i :: 0 <= i < |s.values| && s.values[i].Some? ==> add(OffsetFn(s.dtype.unit), s.values[i].value, s.dtype.timeZone).Ok?)
      && (r.Ok? ==> (r.value.dtype == s.dtype && |r.value.values| == |s.values|
           && forall i :: 0 <= i < |s.values| ==> (r.value.values[i] ==
                if s.values[i].Some? then Some(add(OffsetFn(s.dtype.unit), s.values[i].value, s.dtype.timeZone).value) else None)))
  {
  }

  /** A Date column stays a Date column: each day is offset as its midnight in milliseconds with
      add_ms and no zone, and the result is brought back to whole days. */
  lemma DateOffsetOfDate(s: Series, add: DurationAdd)
    requires s.dtype.Date?
    ensures var r := DateOffset(s, add);
      && (r.Ok? <==> forall i :: 0 <= i < |s.values| && s.values[i].Some? ==> add(AddMs, s.values[i].value * ToMs, None).Ok?)
      && (r.Ok? ==> (r.value.dtype == Date && |r.value.values| == |s.values|
           && forall i :: 0 <= i < |s.values| ==> (r.value.values[i] ==
                if s.values[i].Some? then Some(add(AddMs, s.values[i].value * ToMs, None).value / ToMs) else None)))
  {
    var inner := Series(Datetime(Milliseconds, None), MapValues(s.values, d => d * ToMs));
    DateOffsetOfDatetime(inner, add);
  }
}
