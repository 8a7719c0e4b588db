/**
 * Calendar offsets of `dt.offset_by`: a number of months (years count as twelve)
 * moves the month and keeps the day of month; a day that does not exist in the
 * target month is an error, or is clamped to the month's last day when the
 * offset string carries the `_saturating` suffix. Day offsets are then plain
 * day-count arithmetic.
 */
module Offsets {
  import opened Wrappers
  import opened Calendar

  datatype OffsetError = CannotAdvance(from: CivilDate, months: int)

  /** Months since January of year 0. */
  function MonthIndex(y: int, m: int): int { y * 12 + (m - 1) }

  /** The year and month n months after year y, month m. */
  function ShiftMonth(y: int, m: int, n: int): (r: (int, int))
    requires 1 <= m <= 12
    ensures 1 <= r.1 <= 12
    ensures MonthIndex(r.0, r.1) == MonthIndex(y, m) + n
  {
    var k := MonthIndex(y, m) + n;
    (k / 12, k % 12 + 1)
  }

  /** A year and month are determined by their month index. */
  lemma MonthIndexInjective(y1: int, m1: int, y2: int, m2: int)
    requires 1 <= m1 <= 12 && 1 <= m2 <= 12 && MonthIndex(y1, m1) == MonthIndex(y2, m2)
    ensures y1 == y2 && m1 == m2
  {
    DivMod(MonthIndex(y1, m1), 12, y1, m1 - 1);
    DivMod(MonthIndex(y2, m2), 12, y2, m2 - 1);
  }

  /** Adding n months to a valid date. */
  function AddMonths(c: CivilDate, n: int, saturating: bool): (r: Result<CivilDate, OffsetError>)
    requires Valid(c)
    ensures var (y, m) := ShiftMonth(c.year, c.month, n);
      && (r.Err? <==> !saturating && c.day > DaysInMonth(y, m))
      && (r.Err? ==> r.error == CannotAdvance(c, n))
      && (r.Ok? ==> Valid(r.value) && MonthIndex(r.value.year, r.value.month) == MonthIndex(c.year, c.month) + n
                    && r.value.day == (if c.day <= DaysInMonth(y, m) then c.day else DaysInMonth(y, m)))
  {
    var (y, m) := ShiftMonth(c.year, c.month, n);
    if c.day <= DaysInMonth(y, m) then Ok(CivilDate(y, m, c.day))
    else if saturating then Ok(CivilDate(y, m, DaysInMonth(y, m)))
    else Err(CannotAdvance(c, n))
  }

  /** A saturating offset never fails, and one from a day that every month has never fails either. */
  lemma AddMonthsDefined(c: CivilDate, n: int, saturating: bool)
    requires Valid(c) && (saturating || c.day <= 28)
    ensures AddMonths(c, n, saturating).Ok?
  {
  }

  /** Offsets from a day every month has compose, and an offset is undone by its negation. */
  lemma AddMonthsCompose(c: CivilDate, a: int, b: int, saturating: bool)
    requires Valid(c) && c.day <= 28
    ensures AddMonths(c, a, saturating).Ok?
    ensures AddMonths(AddMonths(c, a, saturating).value, b, saturating) == AddMonths(c, a + b, saturating)
    ensures AddMonths(AddMonths(c, a, saturating).value, -a, saturating) == Ok(c)
  {
    var d := AddMonths(c, a, saturating).value;
    var (y1, m1) := ShiftMonth(d.year, d.month, b);
    var (y2, m2) := ShiftMonth(c.year, c.month, a + b);
    MonthIndexInjective(y1, m1, y2, m2);
    var (y3, m3) := ShiftMonth(d.year, d.month, -a);
    MonthIndexInjective(y3, m3, c.year, c.month);
  }

  /** `offset_by` on a Date column, a day count since 1970-01-01: the month offset of its date,
      then `days` more days. */
  function OffsetDate(z: int, months: int, days: int, saturating: bool): Result<int, OffsetError>
  {
    var moved := AddMonths(CivilFromDays(z), months, saturating);
    if moved.Err? then Err(moved.error) else Ok(DaysFromCivil(moved.value) + days)
  }

  /** The offset fails exactly when the month offset of the day's date does, with its error. */
  lemma OffsetDateFails(z: int, months: int, days: int, saturating: bool)
    ensures var moved := AddMonths(CivilFromDays(z), months, saturating);
      (OffsetDate(z, months, days, saturating).Err? <==> moved.Err?) &&
      (moved.Err? ==> OffsetDate(z, months, days, saturating).error == CannotAdvance(CivilFromDays(z), months))
  {
  }

  /** The offset day is `days` days after the day whose date is the month offset's result. */
  lemma OffsetDateLands(z: int, months: int, days: int, saturating: bool)
    ensures var moved := AddMonths(CivilFromDays(z), months, saturating);
      moved.Ok? ==> CivilFromDays(OffsetDate(z, months, days, saturating).value - days) == moved.value
  {
    var moved := AddMonths(CivilFromDays(z), months, saturating);
    if moved.Ok? {
      var w := DaysFromCivil(moved.value);
      assert OffsetDate(z, months, days, saturating).value - days == w;
      CivilAt(w, moved.value);
    }
  }
}
