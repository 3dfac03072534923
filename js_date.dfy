/**
 * The parts of ECMAScript's Date the worker uses, on time values in integer
 * milliseconds since 1970-01-01T00:00:00Z.
 */
module JsDate {
  import opened Calendar

  const MS_PER_MINUTE: int := 60000
  const MS_PER_DAY: int := 86400000

  /** ECMAScript Day(t): the day number a time value falls in, rounding down. */
  function Day(t: int): int {
    t / MS_PER_DAY
  }

  /** The civil date in UTC that getUTCFullYear, getUTCMonth and getUTCDate read off. */
  function UtcDate(t: int): Date {
    CivilFromDays(Day(t))
  }

  function GetUtcFullYear(t: int): int {
    UtcDate(t).year
  }

  /** getUTCMonth counts months from 0. */
  function GetUtcMonth(t: int): int {
    UtcDate(t).month - 1
  }

  function GetUtcDate(t: int): int {
    UtcDate(t).day
  }

  /**
   * ECMAScript MakeDay(year, month, date): `month` counts from 0 and may lie outside 0..11,
   * carrying whole years; `date` may lie outside the month and counts on from its first day.
   */
  function MakeDay(year: int, month: int, date: int): int {
    DaysFromCivil(year + month / 12, month % 12 + 1, 1) + date - 1
  }

  /**
   * `Date.UTC(year, month, date)` as ECMAScript defines it. A year from 0 to 99 is read as
   * 1900 + year.
   */
  function DateUtcAsWritten(year: int, month: int, date: int): int {
    var y := if 0 <= year <= 99 then 1900 + year else year;
    MakeDay(y, month, date) * MS_PER_DAY
  }

  /** Midnight UTC of MakeDay(year, month, date), taking every year as written. */
  function DateUtc(year: int, month: int, date: int): int {
    MakeDay(year, month, date) * MS_PER_DAY
  }

  /** MakeDay of a valid civil date, with its month counted from 0, is that date's day number. */
  lemma MakeDayOfDate(d: Date)
    requires ValidDate(d)
    ensures MakeDay(d.year, d.month - 1, d.day) == DayNumber(d)
    ensures MakeDay(d.year, d.month - 1, d.day + 1) == DayNumber(d) + 1
  {
    assert (d.month - 1) / 12 == 0 && (d.month - 1) % 12 == d.month - 1;
  }

  /** MakeDay carries a month index of 12 into January of the following year. */
  lemma MakeDayRollsOverDecember(year: int, date: int)
    ensures MakeDay(year, 12, date) == DaysFromCivil(year + 1, 1, date)
  {
  }

  /** The day before the first of the following month is the last day of month `m` (counted from 1). */
  lemma MakeDayZeroOfNextMonth(year: int, m: int)
    requires 1 <= m <= 12
    ensures MakeDay(year, m, 0) == DaysFromCivil(year, m, DaysInMonth(year, m))
    ensures MakeDay(year, m, 1) == DaysFromCivil(year, m, DaysInMonth(year, m)) + 1
  {
    LastDayOfMonthStep(year, m);
    if m < 12 {
      assert m / 12 == 0 && m % 12 == m;
    } else {
      assert m / 12 == 1 && m % 12 == 0;
    }
  }
}
