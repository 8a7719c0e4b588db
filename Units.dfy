/**
 * Integer unit arithmetic on Datetime and Duration values: epoch conversions,
 * changing the time unit, extracting whole units from a Duration, and the
 * fixed-size truncate and round of `dt.truncate` / `dt.round`.
 */
module Units {
  import opened DataTypes
  import opened Calendar
  import opened CalendarFields

  /** Rust's `/` on signed integers: the quotient truncated toward zero. */
  function TruncDiv(a: int, d: int): (q: int)
    requires d > 0
    ensures a >= 0 ==> 0 <= a - q * d < d
    ensures a < 0 ==> -d < a - q * d <= 0
  {
    if a >= 0 then a / d else -((-a) / d)
  }

  /** An exact multiple divides back to its factor, whatever its sign. */
  lemma TruncDivExact(k: int, d: int)
    requires d > 0
    ensures TruncDiv(k * d, d) == k
  {
    if k >= 0 {
      DivMod(k * d, d, k, 0);
    } else {
      assert -(k * d) == (-k) * d;
      DivMod(-(k * d), d, -k, 0);
    }
  }

  /** Floor division of the Python tests (`//`): Dafny's `/` for a positive divisor. */
  function FloorDiv(a: int, d: int): (q: int)
    requires d > 0
    ensures q * d <= a < q * d + d
  {
    a / d
  }

  /** Ticks of one unit in another, coarser, unit. */
  function TicksPerTick(coarse: TimeUnit, fine: TimeUnit): int {
    if TicksPerSecond(fine) >= TicksPerSecond(coarse) then TicksPerSecond(fine) / TicksPerSecond(coarse) else 1
  }

  /** `dt.cast_time_unit`: a finer unit multiplies, a coarser one divides (truncating, as Rust does). */
  function CastTimeUnit(t: int, from: TimeUnit, to: TimeUnit): (r: int)
    ensures TicksPerSecond(to) >= TicksPerSecond(from) ==> r * TicksPerSecond(from) == t * TicksPerSecond(to)
    ensures TicksPerSecond(to) < TicksPerSecond(from) && t % (TicksPerSecond(from) / TicksPerSecond(to)) == 0 ==>
              r * TicksPerSecond(from) == t * TicksPerSecond(to)
  {
    if TicksPerSecond(to) >= TicksPerSecond(from) then t * TicksPerTick(from, to)
    else TruncDiv(t, TicksPerTick(to, from))
  }

  /** A value cast to a finer unit and back is unchanged. */
  lemma CastRoundTrip(t: int, from: TimeUnit, to: TimeUnit)
    requires TicksPerSecond(to) >= TicksPerSecond(from)
    ensures CastTimeUnit(CastTimeUnit(t, from, to), to, from) == t
  {
    if TicksPerSecond(to) > TicksPerSecond(from) {
      TruncDivExact(t, TicksPerTick(from, to));
    }
  }

  /** `dt.epoch("s")` of a Datetime: milliseconds floor-divided by 1000. */
  function EpochSeconds(ms: int): (r: int)
    ensures r * 1000 <= ms < r * 1000 + 1000
  {
    FloorDiv(ms, 1000)
  }

  /** `dt.epoch("d")` of a Datetime: milliseconds floor-divided by a day's milliseconds. */
  function EpochDays(ms: int): (r: int)
    ensures r * 86_400_000 <= ms < r * 86_400_000 + 86_400_000
  {
    FloorDiv(ms, SecondsInDay * 1000)
  }

  /** The day count of a Datetime is its date: a datetime on day z at any time of day has epoch day z. */
  lemma EpochDaysOfDate(z: int, ms: int)
    requires 0 <= ms < 86_400_000
    ensures EpochDays(z * 86_400_000 + ms) == z
  {
    DivMod(z * 86_400_000 + ms, 86_400_000, z, ms);
  }

  // ---------------------------------------------------------------------------
  // Duration components
  // ---------------------------------------------------------------------------

  /** The component extractors of `dt.days()` ... `dt.nanoseconds()`, coarsest first. */
  datatype Component = Days | Hours | Minutes | Seconds | Millis | Micros | Nanos

  /** Ticks of unit tu in one of component c, for the components tu can express. */
  function TicksPer(c: Component, tu: TimeUnit): (r: int)
    ensures r >= 1
  {
    match c
    case Days => TicksPerDay(tu)
    case Hours => 3600 * TicksPerSecond(tu)
    case Minutes => 60 * TicksPerSecond(tu)
    case Seconds => TicksPerSecond(tu)
    case Millis => TicksPerSecond(tu) / 1000
    case Micros => if tu == Milliseconds then 1 else TicksPerSecond(tu) / 1_000_000
    case Nanos => 1
  }

  /** How many of component c make one day. */
  function PerDay(c: Component): int {
    match c
    case Days => 1
    case Hours => 24
    case Minutes => 1440
    case Seconds => 86_400
    case Millis => 86_400_000
    case Micros => 86_400_000_000
    case Nanos => 86_400_000_000_000
  }

  /** Extracting a component from a Duration of `t` ticks: whole ones, truncated toward zero,
      and for components finer than the unit, the tick count scaled up. */
  function Extract(t: int, tu: TimeUnit, c: Component): int {
    if c == Nanos then t * (1_000_000_000 / TicksPerSecond(tu))
    else if c == Micros && tu == Milliseconds then t * 1000
    else TruncDiv(t, TicksPer(c, tu))
  }

  /** A duration of k whole days reads as k days, 24k hours, 1440k minutes, ..., 86400·10^9·k nanoseconds,
      in every time unit. */
  lemma WholeDays(k: int, tu: TimeUnit, c: Component)
    ensures Extract(k * TicksPerDay(tu), tu, c) == PerDay(c) * k
  {
    var d := TicksPerDay(tu);
    if c == Nanos || (c == Micros && tu == Milliseconds) {
    } else {
      var n := TicksPer(c, tu);
      assert k * d == (PerDay(c) * k) * n by {
        match tu
        case Nanoseconds =>
        case Microseconds =>
        case Milliseconds =>
      }
      TruncDivExact(PerDay(c) * k, n);
    }
  }

  // ---------------------------------------------------------------------------
  // Fixed-size truncate and round
  // ---------------------------------------------------------------------------

  /** `dt.truncate(every)` for a fixed `every` in ticks: the grid point at or before t. */
  function Truncate(t: int, every: int): (r: int)
    requires every > 0
    ensures r % every == 0 && r <= t < r + every
  {
    DivMod(t - t % every, every, t / every, 0);
    t - t % every
  }

  /** The grid point is the unique multiple of `every` in (t - every, t]. */
  lemma TruncateUnique(t: int, every: int, k: int)
    requires every > 0 && k * every <= t < k * every + every
    ensures Truncate(t, every) == k * every
  {
    DivMod(t, every, k, t - k * every);
  }

  /** `dt.round(every)`: the nearest grid point, halves going up. */
  function Round(t: int, every: int): (r: int)
    requires every > 0
    ensures r % every == 0
    ensures r - every / 2 <= t < r + every - every / 2
  {
    Truncate(t + every / 2, every)
  }

  /** Truncate and round on a half-step grid from a grid point: the k-th point truncates to
      start + (k / 2)·every and rounds to start + ((k + 1) / 2)·every. */
  lemma HalfStepGrid(q: int, half: int, k: nat)
    requires half > 0
    ensures Truncate(q * (2 * half) + k * half, 2 * half) == q * (2 * half) + (k / 2) * (2 * half)
    ensures Round(q * (2 * half) + k * half, 2 * half) == q * (2 * half) + ((k + 1) / 2) * (2 * half)
  {
    HalfStepTruncate(q, half, k);
    HalfStepTruncate(q, half, k + 1);
    Distribute(k, 1, half);
  }

  lemma HalfStepTruncate(q: int, half: int, k: nat)
    requires half > 0
    ensures Truncate(q * (2 * half) + k * half, 2 * half) == q * (2 * half) + (k / 2) * (2 * half)
  {
    var every, a, b := 2 * half, k / 2, k % 2;
    HalfSteps(k, half);
    Distribute(q, a, every);
    assert b * half == (if b == 0 then 0 else half);
    TruncateUnique(q * every + k * half, every, q + a);
  }

  /** k half steps are k / 2 whole steps and k % 2 half steps. */
  lemma HalfSteps(k: nat, half: int)
    ensures k * half == (k / 2) * (2 * half) + (k % 2) * half
  {
    var a, b := k / 2, k % 2;
    assert k == 2 * a + b;
    calc {
      k * half;
      (2 * a + b) * half;
      { Distribute(2 * a, b, half); }
      (2 * a) * half + b * half;
      { assert (2 * a) * half == a * (2 * half); }
      a * (2 * half) + b * half;
    }
  }

  lemma Distribute(a: int, b: int, c: int)
    ensures (a + b) * c == a * c + b * c
  {
  }

  // ---------------------------------------------------------------------------
  // Datetime month boundaries
  // ---------------------------------------------------------------------------

  /** `dt.month_start()` on a Datetime: the first of its month at the same time of day. */
  function MonthStartAt(t: int, tu: TimeUnit): (r: int)
    ensures r / TicksPerDay(tu) == MonthStart(t / TicksPerDay(tu))
    ensures r % TicksPerDay(tu) == t % TicksPerDay(tu)
  {
    var d := TicksPerDay(tu);
    var r := MonthStart(t / d) * d + t % d;
    DivMod(r, d, MonthStart(t / d), t % d);
    r
  }

  /** `dt.month_end()` on a Datetime: the last day of its month at the same time of day. */
  function MonthEndAt(t: int, tu: TimeUnit): (r: int)
    ensures r / TicksPerDay(tu) == MonthEnd(t / TicksPerDay(tu))
    ensures r % TicksPerDay(tu) == t % TicksPerDay(tu)
  {
    var d := TicksPerDay(tu);
    var r := MonthEnd(t / d) * d + t % d;
    DivMod(r, d, MonthEnd(t / d), t % d);
    r
  }
}
