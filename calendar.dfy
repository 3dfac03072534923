/**
 * The proleptic Gregorian calendar that ECMAScript dates use, as day numbers:
 * day 0 is 1970-01-01 and every integer is a day, before or after it.
 */
module Calendar {

  /** A civil date; `month` runs 1..12 and `day` 1..31. */
  datatype Date = Date(year: int, month: int, day: int)

  /** Days in one 400-year cycle of the Gregorian calendar. */
  const DAYS_PER_ERA: int := 146097

  /** Days from 0000-01-01 to 1970-01-01. */
  const EPOCH_DAYS: int := 719528

  predicate IsLeapYear(y: int) {
    y % 4 == 0 && (y % 100 != 0 || y % 400 == 0)
  }

  function DaysInYear(y: int): int {
    if IsLeapYear(y) then 366 else 365
  }

  function DaysInMonth(y: int, m: int): int
    requires 1 <= m <= 12
  {
    if m == 2 then (if IsLeapYear(y) then 29 else 28)
    else if m == 4 || m == 6 || m == 9 || m == 11 then 30
    else 31
  }

  predicate ValidDate(d: Date) {
    1 <= d.month <= 12 && 1 <= d.day <= DaysInMonth(d.year, d.month)
  }

  /** Days from January 1 of year `y` to the first of month `m`. */
  function DaysBeforeMonth(y: int, m: int): int
    requires 1 <= m <= 12
  {
    [0, 31, 59, 90, 120, 151, 181, 212, 243, 273, 304, 334][m - 1]
      + (if m > 2 && IsLeapYear(y) then 1 else 0)
  }

  /** Days from the start of a 400-year cycle to January 1 of its `k`-th year. */
  function DaysBeforeYearOfEra(k: int): int
    requires 0 <= k <= 400
  {
    365 * k + (k + 3) / 4 - (k + 99) / 100 + (k + 399) / 400
  }

  /** Days from 0000-01-01 to January 1 of year `y`. */
  function DaysBeforeYear(y: int): int {
    (y / 400) * DAYS_PER_ERA + DaysBeforeYearOfEra(y % 400)
  }

  /**
   * The day number of year `y`, month `m`, day `d`. `d` may lie outside the month:
   * the result then counts on from the first of the month, as ECMAScript's MakeDay does.
   */
  function DaysFromCivil(y: int, m: int, d: int): int
    requires 1 <= m <= 12
  {
    DaysBeforeYear(y) + DaysBeforeMonth(y, m) + d - 1 - EPOCH_DAYS
  }

  function DayNumber(d: Date): int
    requires 1 <= d.month <= 12
  {
    DaysFromCivil(d.year, d.month, d.day)
  }

  lemma LeapYearPeriodic(y: int)
    ensures IsLeapYear(y) == IsLeapYear(y % 400)
  {
    var q, r := y / 400, y % 400;
    assert y == r + 4 * (100 * q);
    assert y % 4 == r % 4;
    assert y == r + 100 * (4 * q);
    assert y % 100 == r % 100;
  }

  lemma DaysBeforeYearOfEraStep(k: int)
    requires 0 <= k < 400
    ensures DaysBeforeYearOfEra(k + 1) == DaysBeforeYearOfEra(k) + DaysInYear(k)
  {
    assert (k + 4) / 4 - (k + 3) / 4 == if k % 4 == 0 then 1 else 0;
    assert (k + 100) / 100 - (k + 99) / 100 == if k % 100 == 0 then 1 else 0;
    assert (k + 400) / 400 - (k + 399) / 400 == if k % 400 == 0 then 1 else 0;
  }

  /** Consecutive years are DaysInYear apart. */
  lemma DaysBeforeYearStep(y: int)
    ensures DaysBeforeYear(y + 1) == DaysBeforeYear(y) + DaysInYear(y)
  {
    var q, r := y / 400, y % 400;
    LeapYearPeriodic(y);
    DaysBeforeYearOfEraStep(r);
    if r == 399 {
      assert (y + 1) / 400 == q + 1 && (y + 1) % 400 == 0;
    } else {
      assert (y + 1) / 400 == q && (y + 1) % 400 == r + 1;
    }
  }

  lemma {:induction false} DaysBeforeYearMonotone(a: int, b: int)
    requires a <= b
    ensures DaysBeforeYear(a) + 365 * (b - a) <= DaysBeforeYear(b)
    decreases b - a
  {
    if a < b {
      DaysBeforeYearStep(b - 1);
      DaysBeforeYearMonotone(a, b - 1);
    }
  }

  lemma DaysBeforeMonthStep(y: int, m: int)
    requires 1 <= m < 12
    ensures DaysBeforeMonth(y, m + 1) == DaysBeforeMonth(y, m) + DaysInMonth(y, m)
  {
  }

  lemma DaysBeforeMonthLast(y: int)
    ensures DaysBeforeMonth(y, 12) + DaysInMonth(y, 12) == DaysInYear(y)
  {
  }

  lemma {:induction false} DaysBeforeMonthMonotone(y: int, a: int, b: int)
    requires 1 <= a <= b <= 12
    ensures DaysBeforeMonth(y, a) + 28 * (b - a) <= DaysBeforeMonth(y, b)
    decreases b - a
  {
    if a < b {
      DaysBeforeMonthStep(y, b - 1);
      DaysBeforeMonthMonotone(y, a, b - 1);
    }
  }

  /** The day after the last day of a month is the first of the next month (December rolls into January). */
  lemma LastDayOfMonthStep(y: int, m: int)
    requires 1 <= m <= 12
    ensures m < 12 ==> DaysFromCivil(y, m, DaysInMonth(y, m)) + 1 == DaysFromCivil(y, m + 1, 1)
    ensures m == 12 ==> DaysFromCivil(y, 12, 31) + 1 == DaysFromCivil(y + 1, 1, 1)
  {
    if m < 12 {
      DaysBeforeMonthStep(y, m);
    } else {
      DaysBeforeMonthLast(y);
      DaysBeforeYearStep(y);
    }
  }

  /** The year of a 400-year cycle that day `doe` of the cycle falls in, searched from year `k` on. */
  function YearOfEra(doe: int, k: int): (r: int)
    requires 0 <= k < 400 && DaysBeforeYearOfEra(k) <= doe < DAYS_PER_ERA
    ensures k <= r < 400
    ensures DaysBeforeYearOfEra(r) <= doe < DaysBeforeYearOfEra(r + 1)
    decreases 400 - k
  {
    if doe < DaysBeforeYearOfEra(k + 1) then k else YearOfEra(doe, k + 1)
  }

  /** The month of year `y` that day `doy` (counted from 0) of that year falls in, searched from month `m` on. */
  function MonthOfYear(y: int, doy: int, m: int): (r: int)
    requires 1 <= m <= 12 && DaysBeforeMonth(y, m) <= doy < DaysInYear(y)
    ensures m <= r <= 12
    ensures DaysBeforeMonth(y, r) <= doy < DaysBeforeMonth(y, r) + DaysInMonth(y, r)
    decreases 12 - m
  {
    if m == 12 then
      DaysBeforeMonthLast(y);
      12
    else
      DaysBeforeMonthStep(y, m);
      if doy < DaysBeforeMonth(y, m + 1) then m else MonthOfYear(y, doy, m + 1)
  }

  /** The civil date of day number `z` (what getUTCFullYear, getUTCMonth and getUTCDate read off). */
  function CivilFromDays(z: int): (r: Date)
    ensures ValidDate(r)
    ensures DayNumber(r) == z
  {
    var n := z + EPOCH_DAYS;
    var era, doe := n / DAYS_PER_ERA, n % DAYS_PER_ERA;
    var yoe := YearOfEra(doe, 0);
    var y := era * 400 + yoe;
    assert y / 400 == era && y % 400 == yoe;
    LeapYearPeriodic(y);
    DaysBeforeYearOfEraStep(yoe);
    var doy := doe - DaysBeforeYearOfEra(yoe);
    var m := MonthOfYear(y, doy, 1);
    Date(y, m, doy - DaysBeforeMonth(y, m) + 1)
  }

  /** Day numbers follow the order of valid dates. */
  lemma DayNumberOrder(a: Date, b: Date)
    requires ValidDate(a) && ValidDate(b)
    requires a.year < b.year || (a.year == b.year && a.month < b.month)
             || (a.year == b.year && a.month == b.month && a.day < b.day)
    ensures DayNumber(a) < DayNumber(b)
  {
    if a.year < b.year {
      DaysBeforeMonthMonotone(a.year, a.month, 12);
      DaysBeforeMonthLast(a.year);
      DaysBeforeYearStep(a.year);
      DaysBeforeYearMonotone(a.year + 1, b.year);
    } else if a.month < b.month {
      DaysBeforeMonthStep(a.year, a.month);
      DaysBeforeMonthMonotone(a.year, a.month + 1, b.month);
    }
  }

  /** Two valid dates with the same day number are the same date. */
  lemma DayNumberInjective(a: Date, b: Date)
    requires ValidDate(a) && ValidDate(b) && DayNumber(a) == DayNumber(b)
    ensures a == b
  {
    if a.year < b.year || (a.year == b.year && a.month < b.month)
       || (a.year == b.year && a.month == b.month && a.day < b.day) {
      DayNumberOrder(a, b);
    } else if b.year < a.year || (a.year == b.year && b.month < a.month)
              || (a.year == b.year && a.month == b.month && b.day < a.day) {
      DayNumberOrder(b, a);
    }
  }

  /** Reading the civil date back off the day number of a valid date gives that date. */
  lemma CivilFromDayNumber(d: Date)
    requires ValidDate(d)
    ensures CivilFromDays(DayNumber(d)) == d
  {
    DayNumberInjective(CivilFromDays(DayNumber(d)), d);
  }

  /** A day number equal to that of a valid date reads back as that date. */
  lemma CivilFromDaysOf(n: int, d: Date)
    requires ValidDate(d) && n == DayNumber(d)
    ensures CivilFromDays(n) == d
  {
    CivilFromDayNumber(d);
  }

  /** Day 0 is 1970-01-01, the ECMAScript epoch. */
  lemma EpochIsJanuaryFirst1970()
    ensures DaysFromCivil(1970, 1, 1) == 0
  {
  }
}
