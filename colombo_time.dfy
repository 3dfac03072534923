/**
 * Time bucketing in Asia/Colombo as the worker does it: a fixed offset of UTC+05:30,
 * applied by shifting an instant, reading the civil date off in UTC and shifting back.
 * Instants are ECMAScript time values (integer milliseconds).
 */
module ColomboTime {
  import opened Wrappers
  import opened Calendar
  import opened Text
  import opened JsDate

  const COLOMBO_OFFSET_MINUTES: int := 330
  const OFFSET_MS: int := COLOMBO_OFFSET_MINUTES * 60 * 1000

  /** The Colombo day number that instant `t` falls in. */
  function LocalDay(t: int): int {
    (t + OFFSET_MS) / MS_PER_DAY
  }

  /** The instant at which Colombo day `n` begins. */
  function LocalMidnight(n: int): int {
    n * MS_PER_DAY - OFFSET_MS
  }

  /** The instants of Colombo day `n` are the day from its local midnight up to the next one. */
  lemma LocalDayRange(t: int, n: int)
    ensures LocalDay(t) == n <==> LocalMidnight(n) <= t < LocalMidnight(n) + MS_PER_DAY
  {
  }

  /** Going back `k` whole days from `t` goes back `k` Colombo days. */
  lemma LocalDayShift(t: int, k: int)
    ensures LocalDay(t - k * MS_PER_DAY) == LocalDay(t) - k
  {
    LocalDayRange(t, LocalDay(t));
    LocalDayRange(t - k * MS_PER_DAY, LocalDay(t) - k);
  }

  /** `k` whole days after local midnight of day `n` is local midnight of day `n + k`. */
  lemma LocalMidnightShift(n: int, k: int)
    ensures LocalMidnight(n) + k * MS_PER_DAY == LocalMidnight(n + k)
  {
    assert (n + k) * MS_PER_DAY == n * MS_PER_DAY + k * MS_PER_DAY;
  }

  /** Local midnight of day `n` lies on Colombo day `n`, and shifted by the offset it is UTC midnight of day `n`. */
  lemma LocalMidnightDate(n: int)
    ensures LocalDay(LocalMidnight(n)) == n
    ensures (LocalMidnight(n) + OFFSET_MS) % MS_PER_DAY == 0
    ensures UtcDate(LocalMidnight(n) + OFFSET_MS) == CivilFromDays(n)
  {
  }

  /** `YYYY-MM-DD`: the year as `String(year)` writes it, month and day padded to two digits. */
  function DayKey(d: Date): string
    requires ValidDate(d)
  {
    IntToString(d.year) + "-" + TwoDigits(d.month) + "-" + TwoDigits(d.day)
  }

  /** formatColomboDayKey: the key of the Colombo civil date of instant `t`. */
  function FormatColomboDayKey(t: int): string {
    DayKey(CivilFromDays(LocalDay(t)))
  }

  datatype DayBounds = DayBounds(startUtc: int, endUtc: int)

  /**
   * getColomboDayBounds: the Colombo day that `reference` falls in, from its local
   * midnight up to (not including) the next one.
   */
  function ColomboDayBounds(reference: int): (b: DayBounds)
    ensures b == DayBounds(LocalMidnight(LocalDay(reference)), LocalMidnight(LocalDay(reference) + 1))
  {
    var offsetMs := COLOMBO_OFFSET_MINUTES * 60 * 1000;
    var shifted := reference + offsetMs;
    var year, month, day := GetUtcFullYear(shifted), GetUtcMonth(shifted), GetUtcDate(shifted);
    var startColomboUtc := DateUtc(year, month, day);
    var endColomboUtc := DateUtc(year, month, day + 1);
    DayBoundsCalls(reference);
    DayBounds(startColomboUtc - offsetMs, endColomboUtc - offsetMs)
  }

  /** Date.UTC of the shifted reference's UTC date, and of the day after, shifted back, are local midnights. */
  lemma DayBoundsCalls(reference: int)
    ensures var s := reference + OFFSET_MS;
      var year, month, day := GetUtcFullYear(s), GetUtcMonth(s), GetUtcDate(s);
      && DateUtc(year, month, day) - OFFSET_MS == LocalMidnight(LocalDay(reference))
      && DateUtc(year, month, day + 1) - OFFSET_MS == LocalMidnight(LocalDay(reference) + 1)
  {
    MakeDayOfDate(UtcDate(reference + OFFSET_MS));
  }

  /** The day of `reference` is one whole day long, starts at a local midnight and contains `reference`. */
  lemma ColomboDayBoundsShape(reference: int)
    ensures var b := ColomboDayBounds(reference);
      && b.startUtc <= reference < b.endUtc
      && b.endUtc - b.startUtc == MS_PER_DAY
      && (b.startUtc + OFFSET_MS) % MS_PER_DAY == 0
  {
    LocalDayRange(reference, LocalDay(reference));
    LocalMidnightShift(LocalDay(reference), 1);
    LocalMidnightDate(LocalDay(reference));
  }

  /** An instant lies in the bounds of `reference`'s day exactly when it is on the same Colombo day. */
  lemma InColomboDayBounds(reference: int, t: int)
    ensures var b := ColomboDayBounds(reference);
      b.startUtc <= t < b.endUtc <==> LocalDay(t) == LocalDay(reference)
  {
    LocalDayRange(t, LocalDay(reference));
  }

  /** Every instant of one Colombo day has the same day key as the day's first instant. */
  lemma DayKeyConstantOnDay(reference: int, t: int)
    requires ColomboDayBounds(reference).startUtc <= t < ColomboDayBounds(reference).endUtc
    ensures FormatColomboDayKey(t) == FormatColomboDayKey(reference)
  {
    InColomboDayBounds(reference, t);
  }

  /** getColomboDayBounds with the year passed to Date.UTC as ECMAScript reads it (0..99 as 19xx). */
  function ColomboDayBoundsAsWritten(reference: int): DayBounds {
    var offsetMs := COLOMBO_OFFSET_MINUTES * 60 * 1000;
    var shifted := reference + offsetMs;
    var year, month, day := GetUtcFullYear(shifted), GetUtcMonth(shifted), GetUtcDate(shifted);
    DayBounds(DateUtcAsWritten(year, month, day) - offsetMs, DateUtcAsWritten(year, month, day + 1) - offsetMs)
  }

  /**
   * For an instant on a date in the years 0..99, Date.UTC reads the year as 19xx, so the
   * bounds as written begin at least 1900 years after the reference instant.
   */
  lemma DayBoundsAsWrittenMissTwoDigitYears(d: Date)
    requires ValidDate(d) && 0 <= d.year <= 99 && ValidDate(Date(1900 + d.year, d.month, d.day))
    ensures var t := LocalMidnight(DayNumber(d));
      var b := ColomboDayBoundsAsWritten(t);
      b.startUtc == LocalMidnight(DayNumber(Date(1900 + d.year, d.month, d.day))) && t < b.startUtc
  {
    var t := LocalMidnight(DayNumber(d));
    var later := Date(1900 + d.year, d.month, d.day);
    MakeDayOfDate(later);
    AsWrittenStartOfTwoDigitYear(d, t, DayNumber(later));
    DayNumberOrder(d, later);
    LocalMidnightMonotoneStrict(DayNumber(d), DayNumber(later));
  }

  lemma AsWrittenStartOfTwoDigitYear(d: Date, t: int, n: int)
    requires ValidDate(d) && 0 <= d.year <= 99 && t == LocalMidnight(DayNumber(d))
    requires n == MakeDay(1900 + d.year, d.month - 1, d.day)
    ensures ColomboDayBoundsAsWritten(t).startUtc == LocalMidnight(n)
  {
    var s := DateUtcAsWritten(d.year, d.month - 1, d.day) - OFFSET_MS;
    DateUtcAsWrittenOfTwoDigitYear(d.year, d.month, d.day, n);
    assert s == LocalMidnight(n);
    AsWrittenStart(d, t);
  }

  lemma DateUtcAsWrittenOfTwoDigitYear(y: int, m: int, day: int, n: int)
    requires 0 <= y <= 99 && 1 <= m <= 12 && n == MakeDay(1900 + y, m - 1, day)
    ensures DateUtcAsWritten(y, m - 1, day) - OFFSET_MS == LocalMidnight(n)
  {
  }

  /** At local midnight of a valid date, the bounds as written begin at Date.UTC of that date, shifted back. */
  lemma AsWrittenStart(d: Date, t: int)
    requires ValidDate(d) && t == LocalMidnight(DayNumber(d))
    ensures ColomboDayBoundsAsWritten(t).startUtc == DateUtcAsWritten(d.year, d.month - 1, d.day) - OFFSET_MS
  {
    LocalMidnightDate(DayNumber(d));
    CivilFromDaysOf(Day(t + OFFSET_MS), d);
  }

  /** The bounds of an instant in the year 50 as written do not contain it. */
  lemma DayBoundsAsWrittenMissYear50()
    ensures var t := LocalMidnight(DaysFromCivil(50, 6, 15));
      var b := ColomboDayBoundsAsWritten(t);
      !(b.startUtc <= t < b.endUtc)
  {
    DayBoundsAsWrittenMissTwoDigitYears(Date(50, 6, 15));
  }

  /** Outside the years 0..99 the bounds as written agree with ColomboDayBounds. */
  lemma DayBoundsAsWrittenAgreeOutsideTwoDigitYears(reference: int)
    requires !(0 <= CivilFromDays(LocalDay(reference)).year <= 99)
    ensures ColomboDayBoundsAsWritten(reference) == ColomboDayBounds(reference)
  {
  }


  /** The pattern `^\d{4}-\d{2}-\d{2}$`. */
  predicate MatchesDayPattern(v: string) {
    |v| == 10 && AllDigits(v[0..4]) && v[4] == '-' && AllDigits(v[5..7]) && v[7] == '-'
    && AllDigits(v[8..10])
  }

  /**
   * parseColomboDayParam: a string of the form `DDDD-DD-DD` is read as local midnight of
   * that date, as `Date.parse` reads `<value>T00:00:00+05:30`; it gives no date when the
   * month is not 01..12 or the day not 01..31. A day past the end of its month, such as
   * February 30, carries into the next month as MakeDay does.
   */
  function ParseColomboDayParam(value: string): (r: Option<int>)
    ensures r.Some? ==> MatchesDayPattern(value)
    ensures r.Some? ==> (r.value + OFFSET_MS) % MS_PER_DAY == 0
    ensures MatchesDayPattern(value) ==>
      (r.Some? <==> 1 <= DigitsValue(value[5..7]) <= 12 && 1 <= DigitsValue(value[8..10]) <= 31)
  {
    if !MatchesDayPattern(value) then None
    else
      var year, month, day := DigitsValue(value[0..4]), DigitsValue(value[5..7]), DigitsValue(value[8..10]);
      if 1 <= month <= 12 && 1 <= day <= 31 then
        LocalMidnightDate(MakeDay(year, month - 1, day));
        Some(LocalMidnight(MakeDay(year, month - 1, day)))
      else None
  }

  /** The day key of a date with a four-digit year has the pattern and reads back as its fields. */
  lemma DayKeyFields(d: Date)
    requires ValidDate(d) && 1000 <= d.year <= 9999
    ensures var s := DayKey(d);
      MatchesDayPattern(s) && DigitsValue(s[0..4]) == d.year
      && DigitsValue(s[5..7]) == d.month && DigitsValue(s[8..10]) == d.day
  {
    var s := DayKey(d);
    FourDigitNumber(d.year);
    DigitsValueOfNatToString(d.year);
    TwoDigitsRoundTrip(d.month);
    TwoDigitsRoundTrip(d.day);
    assert s[0..4] == NatToString(d.year);
    assert s[5..7] == TwoDigits(d.month);
    assert s[8..10] == TwoDigits(d.day);
  }

  /**
   * Parsing the day key of a date with a four-digit year gives that date's local midnight,
   * whose day key is the key again.
   */
  lemma ParseDayKeyRoundTrip(d: Date)
    requires ValidDate(d) && 1000 <= d.year <= 9999
    ensures ParseColomboDayParam(DayKey(d)) == Some(LocalMidnight(DayNumber(d)))
    ensures FormatColomboDayKey(LocalMidnight(DayNumber(d))) == DayKey(d)
  {
    DayKeyFields(d);
    MakeDayOfDate(d);
    LocalMidnightDate(DayNumber(d));
    CivilFromDayNumber(d);
  }

  /**
   * For an instant whose Colombo year has four digits, parsing its day key gives the start
   * of its Colombo day.
   */
  lemma ParseFormatRoundTrip(t: int)
    requires 1000 <= CivilFromDays(LocalDay(t)).year <= 9999
    ensures ParseColomboDayParam(FormatColomboDayKey(t)) == Some(ColomboDayBounds(t).startUtc)
  {
    var d := CivilFromDays(LocalDay(t));
    ParseDayKeyRoundTrip(d);
  }

  /**
   * A string of the pattern whose fields form a valid date, of any year 0 to 9999, is read
   * as that date's local midnight.
   */
  lemma ParseValidDate(value: string, d: Date)
    requires MatchesDayPattern(value) && ValidDate(d)
    requires d == Date(DigitsValue(value[0..4]), DigitsValue(value[5..7]), DigitsValue(value[8..10]))
    ensures ParseColomboDayParam(value) == Some(LocalMidnight(DayNumber(d)))
  {
    MakeDayOfDate(d);
  }

  /**
   * A day after the end of its month, up to 31, is read as a day of the following month:
   * the excess over the month's length, in the next month, December carrying into January.
   */
  lemma ParseDayPastMonthEnd(value: string)
    requires MatchesDayPattern(value)
    requires 1 <= DigitsValue(value[5..7]) <= 12
    requires DaysInMonth(DigitsValue(value[0..4]), DigitsValue(value[5..7])) < DigitsValue(value[8..10]) <= 31
    ensures var y, m, day := DigitsValue(value[0..4]), DigitsValue(value[5..7]), DigitsValue(value[8..10]);
      var r := ParseColomboDayParam(value);
      var next := FirstOfNextMonth(y, m);
      r.Some? && CivilFromDays(LocalDay(r.value)) == Date(next.year, next.month, day - DaysInMonth(y, m))
  {
    var y, m, day := DigitsValue(value[0..4]), DigitsValue(value[5..7]), DigitsValue(value[8..10]);
    var n := MakeDay(y, m - 1, day);
    MakeDayPastMonthEnd(y, m, day);
    LocalMidnightDate(n);
  }

  /** The day number MakeDay gives a day past the end of month `m`, as a date of the next month. */
  lemma MakeDayPastMonthEnd(y: int, m: int, day: int)
    requires 1 <= m <= 12 && DaysInMonth(y, m) < day <= 31
    ensures var next := FirstOfNextMonth(y, m);
      CivilFromDays(MakeDay(y, m - 1, day)) == Date(next.year, next.month, day - DaysInMonth(y, m))
  {
    var next := FirstOfNextMonth(y, m);
    var target := Date(next.year, next.month, day - DaysInMonth(y, m));
    assert (m - 1) / 12 == 0 && (m - 1) % 12 == m - 1;
    LastDayOfMonthStep(y, m);
    assert MakeDay(y, m - 1, day) == DayNumber(target);
    CivilFromDaysOf(MakeDay(y, m - 1, day), target);
  }

  /** "0050-06-15" is read as June 15 of the year 50, not of 1950. */
  lemma ParseYearFifty()
    ensures ParseColomboDayParam("0050-06-15") == Some(LocalMidnight(DaysFromCivil(50, 6, 15)))
  {
    var v := "0050-06-15";
    assert v[0..4] == "0050" && v[5..7] == "06" && v[8..10] == "15";
    DigitsValueBySteps(v[0..4]);
    DigitsValueBySteps(v[5..7]);
    DigitsValueBySteps(v[8..10]);
    assert DigitsValue(v[0..4]) == 50;
    assert DigitsValue(v[5..7]) == 6;
    assert DigitsValue(v[8..10]) == 15;
    ParseValidDate(v, Date(50, 6, 15));
  }

  /** "2024-02-30" is read as March 1, 2024, 2024 being a leap year. */
  lemma ParseFebruaryThirtieth()
    ensures var r := ParseColomboDayParam("2024-02-30");
      r.Some? && CivilFromDays(LocalDay(r.value)) == Date(2024, 3, 1)
  {
    var v := "2024-02-30";
    assert v[0..4] == "2024" && v[5..7] == "02" && v[8..10] == "30";
    DigitsValueBySteps(v[0..4]);
    DigitsValueBySteps(v[5..7]);
    DigitsValueBySteps(v[8..10]);
    assert DigitsValue(v[0..4]) == 2024;
    assert DigitsValue(v[5..7]) == 2;
    assert DigitsValue(v[8..10]) == 30;
    assert DaysInMonth(2024, 2) == 29;
    ParseDayPastMonthEnd(v);
  }

  datatype MonthBounds = MonthBounds(startUtc: int, endUtc: int, dayKeys: seq<string>)

  /** The civil date that follows the last day of month `m` of year `y`. */
  function FirstOfNextMonth(y: int, m: int): Date {
    if m == 12 then Date(y + 1, 1, 1) else Date(y, m + 1, 1)
  }

  /** The keys of days 1..`n` of month `m` of year `y`, in order. */
  function MonthKeys(y: int, m: int, n: nat): seq<string>
    requires 1 <= m <= 12 && n <= DaysInMonth(y, m)
  {
    if n == 0 then [] else MonthKeys(y, m, n - 1) + [DayKey(Date(y, m, n))]
  }

  /** There is one key per day. */
  lemma {:induction false} MonthKeysLength(y: int, m: int, n: nat)
    requires 1 <= m <= 12 && n <= DaysInMonth(y, m)
    ensures |MonthKeys(y, m, n)| == n
  {
    if n > 0 {
      MonthKeysLength(y, m, n - 1);
    }
  }

  /** There is one key per day, and key `j` is that of day `j + 1`. */
  lemma {:induction false} MonthKeysAt(y: int, m: int, n: nat)
    requires 1 <= m <= 12 && n <= DaysInMonth(y, m)
    ensures |MonthKeys(y, m, n)| == n
    ensures forall j :: 0 <= j < n ==> MonthKeys(y, m, n)[j] == DayKey(Date(y, m, j + 1))
  {
    if n > 0 {
      MonthKeysAt(y, m, n - 1);
    }
  }

  /**
   * Colombo month `m` of year `y`: from local midnight of its first day up to local
   * midnight of the first day of the following month, with the key of each day.
   */
  function MonthOf(y: int, m: int): MonthBounds
    requires 1 <= m <= 12
  {
    var first := DaysFromCivil(y, m, 1);
    var dim := DaysInMonth(y, m);
    MonthBounds(LocalMidnight(first), LocalMidnight(first + dim), MonthKeys(y, m, dim))
  }

  /** The Colombo calendar month that `reference` falls in. */
  function ColomboMonth(reference: int): MonthBounds {
    var d := CivilFromDays(LocalDay(reference));
    MonthOf(d.year, d.month)
  }

  /**
   * getColomboMonthBounds: shift by the offset, read the year and month in UTC, take
   * Date.UTC of the first of this month and of the next, and list the days of the month.
   */
  method ColomboMonthBounds(reference: int) returns (b: MonthBounds)
    ensures b == ColomboMonth(reference)
  {
    var offsetMs := COLOMBO_OFFSET_MINUTES * 60 * 1000;
    assert offsetMs == OFFSET_MS;
    var shifted := reference + offsetMs;
    var year := GetUtcFullYear(shifted);
    var month := GetUtcMonth(shifted);
    ColomboMonthOfShifted(reference);
    MonthCalls(year, month);
    DaysInMonthCall(year, month + 1);
    var startColomboUtc := DateUtc(year, month, 1);
    var endColomboUtc := DateUtc(year, month + 1, 1);
    var startUtc := startColomboUtc - offsetMs;
    var endUtc := endColomboUtc - offsetMs;
    var daysInMonth := GetUtcDate(DateUtc(year, month + 1, 0));
    var dayKeys := MonthDayKeys(year, month, daysInMonth);
    b := MonthBounds(startUtc, endUtc, dayKeys);
  }

  /**
   * The loop of getColomboMonthBounds that lists the keys `YYYY-MM-DD` of days 1 to
   * `daysInMonth` of month `month` (from 0) of `year`.
   */
  method MonthDayKeys(year: int, month: int, daysInMonth: int) returns (dayKeys: seq<string>)
    requires 0 <= month < 12 && daysInMonth == DaysInMonth(year, month + 1)
    ensures dayKeys == MonthKeys(year, month + 1, daysInMonth)
  {
    dayKeys := [];
    var day := 1;
    while day <= daysInMonth
      invariant 1 <= day <= daysInMonth + 1
      invariant dayKeys == MonthKeys(year, month + 1, day - 1)
    {
      dayKeys := dayKeys + [IntToString(year) + "-" + TwoDigits(month + 1) + "-" + TwoDigits(day)];
      day := day + 1;
    }
  }

  /** The month of `reference` is the one whose year and month getUTCFullYear and getUTCMonth read off the shifted instant. */
  lemma ColomboMonthOfShifted(reference: int)
    ensures 0 <= GetUtcMonth(reference + OFFSET_MS) < 12
    ensures ColomboMonth(reference) == MonthOf(GetUtcFullYear(reference + OFFSET_MS), GetUtcMonth(reference + OFFSET_MS) + 1)
  {
  }

  /** What the Date.UTC calls of getColomboMonthBounds give for month `month` (from 0) of year `y`. */
  lemma MonthCalls(y: int, month: int)
    requires 0 <= month < 12
    ensures MonthOf(y, month + 1)
      == MonthBounds(DateUtc(y, month, 1) - OFFSET_MS, DateUtc(y, month + 1, 1) - OFFSET_MS, MonthKeys(y, month + 1, DaysInMonth(y, month + 1)))
  {
    MonthStartCall(y, month + 1);
    MonthEndCall(y, month + 1);
  }

  /** All of the month's instants, and only they, are on a Colombo date of the same year and month as `reference`. */
  lemma InColomboMonth(reference: int, t: int)
    ensures var b := ColomboMonth(reference);
      var d, e := CivilFromDays(LocalDay(reference)), CivilFromDays(LocalDay(t));
      b.startUtc <= t < b.endUtc <==> (e.year == d.year && e.month == d.month)
  {
    var d := CivilFromDays(LocalDay(reference));
    InMonthOf(d.year, d.month, t);
  }

  /** The month of `reference` contains it. */
  lemma ColomboMonthContainsReference(reference: int)
    ensures ColomboMonth(reference).startUtc <= reference < ColomboMonth(reference).endUtc
  {
    InColomboMonth(reference, reference);
  }

  /** The instants of month `m` of year `y` are those whose Colombo date is in that month. */
  lemma InMonthOf(y: int, m: int, t: int)
    requires 1 <= m <= 12
    ensures var e := CivilFromDays(LocalDay(t));
      MonthOf(y, m).startUtc <= t < MonthOf(y, m).endUtc <==> (e.year == y && e.month == m)
  {
    var first := DaysFromCivil(y, m, 1);
    var dim := DaysInMonth(y, m);
    var n := LocalDay(t);
    if LocalMidnight(first) <= t < LocalMidnight(first + dim) {
      LocalDayBetween(t, first, first + dim);
      DayOfMonthNumber(y, m, n);
    }
    var e := CivilFromDays(n);
    if e.year == y && e.month == m {
      MonthOfDayNumber(n);
      InstantBetween(t, first, first + dim);
    }
  }

  /** An instant between two local midnights is on a day between them. */
  lemma LocalDayBetween(t: int, a: int, b: int)
    requires LocalMidnight(a) <= t < LocalMidnight(b)
    ensures a <= LocalDay(t) < b
  {
    var n := LocalDay(t);
    LocalDayRange(t, n);
    LocalMidnightShift(n, 1);
    if n < a {
      LocalMidnightMonotoneStrict(n, a);
    } else if b <= n {
      LocalMidnightMonotone(b, n);
    }
  }

  /** An instant lies between two local midnights exactly when its day lies between them. */
  lemma LocalDaysBetween(t: int, a: int, b: int)
    ensures LocalMidnight(a) <= t < LocalMidnight(b) <==> a <= LocalDay(t) < b
  {
    if LocalMidnight(a) <= t < LocalMidnight(b) {
      LocalDayBetween(t, a, b);
    }
    if a <= LocalDay(t) < b {
      InstantBetween(t, a, b);
    }
  }

  /** An instant on a day from `a` up to `b` lies between their local midnights. */
  lemma InstantBetween(t: int, a: int, b: int)
    requires a <= LocalDay(t) < b
    ensures LocalMidnight(a) <= t < LocalMidnight(b)
  {
    var n := LocalDay(t);
    LocalDayRange(t, n);
    LocalMidnightShift(n, 1);
    LocalMidnightMonotone(a, n);
    LocalMidnightMonotone(n + 1, b);
  }

  /** A day number from the first of a month on, within the month's length, is a day of that month. */
  lemma DayOfMonthNumber(y: int, m: int, n: int)
    requires 1 <= m <= 12 && DaysFromCivil(y, m, 1) <= n < DaysFromCivil(y, m, 1) + DaysInMonth(y, m)
    ensures CivilFromDays(n) == Date(y, m, n - DaysFromCivil(y, m, 1) + 1)
  {
    var j := n - DaysFromCivil(y, m, 1);
    MonthDayNumber(y, m, j);
    CivilFromDaysOf(n, Date(y, m, j + 1));
  }

  /** Every day number lies within the month of its civil date. */
  lemma MonthOfDayNumber(n: int)
    ensures var e := CivilFromDays(n);
      DaysFromCivil(e.year, e.month, 1) <= n < DaysFromCivil(e.year, e.month, 1) + DaysInMonth(e.year, e.month)
  {
  }

  /** A month has one key per day, and its `endUtc` is that many whole days after its `startUtc`. */
  lemma MonthLength(y: int, m: int)
    requires 1 <= m <= 12
    ensures |MonthOf(y, m).dayKeys| == DaysInMonth(y, m)
    ensures MonthOf(y, m).endUtc == MonthOf(y, m).startUtc + |MonthOf(y, m).dayKeys| * MS_PER_DAY
  {
    MonthKeysAt(y, m, DaysInMonth(y, m));
    LocalMidnightShift(DaysFromCivil(y, m, 1), DaysInMonth(y, m));
  }

  /** A month ends at local midnight of the first of the following month, December rolling over into January. */
  lemma MonthEnd(y: int, m: int)
    requires 1 <= m <= 12
    ensures CivilFromDays(LocalDay(MonthOf(y, m).endUtc)) == FirstOfNextMonth(y, m)
  {
    MonthEndDate(y, m, MonthOf(y, m).endUtc);
  }

  /** Key `j` of the keys of a whole month is the day key of local midnight `j` days after its first. */
  lemma MonthKeyOfDay(y: int, m: int, j: int, keys: seq<string>, startUtc: int)
    requires 1 <= m <= 12 && 0 <= j < DaysInMonth(y, m)
    requires keys == MonthKeys(y, m, DaysInMonth(y, m))
    requires startUtc == LocalMidnight(DaysFromCivil(y, m, 1))
    ensures j < |keys| && keys[j] == FormatColomboDayKey(startUtc + j * MS_PER_DAY)
  {
    MonthKeysAt(y, m, DaysInMonth(y, m));
    MonthDayFormat(y, m, j, startUtc);
  }

  /** The instant `j` days after local midnight of the first of a month has the key of day `j + 1`. */
  lemma MonthDayFormat(y: int, m: int, j: int, startUtc: int)
    requires 1 <= m <= 12 && 0 <= j < DaysInMonth(y, m)
    requires startUtc == LocalMidnight(DaysFromCivil(y, m, 1))
    ensures FormatColomboDayKey(startUtc + j * MS_PER_DAY) == DayKey(Date(y, m, j + 1))
  {
    ShiftedLocalMidnight(startUtc, DaysFromCivil(y, m, 1), j);
    MonthDayNumber(y, m, j);
    FormatOfLocalMidnight(startUtc + j * MS_PER_DAY, DaysFromCivil(y, m, 1) + j, Date(y, m, j + 1));
  }

  /** Day `j + 1` of a month is a valid date, `j` days after the first. */
  lemma MonthDayNumber(y: int, m: int, j: int)
    requires 1 <= m <= 12 && 0 <= j < DaysInMonth(y, m)
    ensures ValidDate(Date(y, m, j + 1)) && DayNumber(Date(y, m, j + 1)) == DaysFromCivil(y, m, 1) + j
  {
  }

  /** Whole days counted on from a local midnight land on a local midnight. */
  lemma ShiftedLocalMidnight(startUtc: int, n: int, j: int)
    requires startUtc == LocalMidnight(n)
    ensures startUtc + j * MS_PER_DAY == LocalMidnight(n + j)
  {
    LocalMidnightShift(n, j);
  }

  /** The day key of local midnight of the day number of a valid date is that date's key. */
  lemma FormatOfLocalMidnight(t: int, n: int, d: Date)
    requires ValidDate(d) && n == DayNumber(d) && t == LocalMidnight(n)
    ensures FormatColomboDayKey(t) == DayKey(d)
  {
    LocalMidnightDate(n);
    CivilFromDaysOf(LocalDay(t), d);
  }

  /** Midnight UTC of day `k`, read back, is on day `k`. */
  lemma DayOfMidnight(k: int)
    ensures Day(k * MS_PER_DAY) == k
  {
  }

  /** Earlier Colombo days begin earlier. */
  lemma LocalMidnightMonotoneStrict(a: int, b: int)
    requires a < b
    ensures LocalMidnight(a) + MS_PER_DAY <= LocalMidnight(b)
  {
    LocalMidnightShift(a, b - a);
    assert (b - a) * MS_PER_DAY >= MS_PER_DAY;
  }

  /** Later Colombo days begin later. */
  lemma LocalMidnightMonotone(a: int, b: int)
    requires a <= b
    ensures LocalMidnight(a) <= LocalMidnight(b)
  {
    LocalMidnightShift(a, b - a);
    assert (b - a) * MS_PER_DAY >= 0;
  }

  /** Date.UTC of the first of month `m` (given from 0 as `m - 1`), shifted back, is local midnight of that day. */
  lemma MonthStartCall(y: int, m: int)
    requires 1 <= m <= 12
    ensures DateUtc(y, m - 1, 1) - OFFSET_MS == LocalMidnight(DaysFromCivil(y, m, 1))
  {
    assert (m - 1) / 12 == 0 && (m - 1) % 12 == m - 1;
  }

  /** Date.UTC of the first of the month after `m`, shifted back, is local midnight `DaysInMonth` days on. */
  lemma MonthEndCall(y: int, m: int)
    requires 1 <= m <= 12
    ensures DateUtc(y, m, 1) - OFFSET_MS == LocalMidnight(DaysFromCivil(y, m, 1) + DaysInMonth(y, m))
  {
    MakeDayZeroOfNextMonth(y, m);
  }

  /** Day 0 of the following month, read with getUTCDate, is the number of days of month `m`. */
  lemma DaysInMonthCall(y: int, m: int)
    requires 1 <= m <= 12
    ensures GetUtcDate(DateUtc(y, m, 0)) == DaysInMonth(y, m)
  {
    MakeDayZeroOfNextMonth(y, m);
    var last := Date(y, m, DaysInMonth(y, m));
    DayOfMidnight(DayNumber(last));
    CivilFromDayNumber(last);
  }

  /** Local midnight of the day after the last of month `m` is on the first of the next month. */
  lemma MonthEndDate(y: int, m: int, endUtc: int)
    requires 1 <= m <= 12 && endUtc == LocalMidnight(DaysFromCivil(y, m, 1) + DaysInMonth(y, m))
    ensures CivilFromDays(LocalDay(endUtc)) == FirstOfNextMonth(y, m)
  {
    LocalMidnightDate(DaysFromCivil(y, m, 1) + DaysInMonth(y, m));
    DayBoundsOfMonth(y, m);
    CivilFromDaysOf(LocalDay(endUtc), FirstOfNextMonth(y, m));
  }

  /** The first and the last of a month lie on either side of all its days, and the next month begins after it. */
  lemma DayBoundsOfMonth(y: int, m: int)
    requires 1 <= m <= 12
    ensures var f := FirstOfNextMonth(y, m);
      ValidDate(f) && DayNumber(f) == DaysFromCivil(y, m, DaysInMonth(y, m)) + 1
      && CivilFromDays(DayNumber(f)) == f
  {
    LastDayOfMonthStep(y, m);
    CivilFromDayNumber(FirstOfNextMonth(y, m));
  }

  const FIRST_SLOT_OFFSET_MS: int := 29 * MS_PER_MINUTE
  const SLOT_INTERVAL_MS: int := 30 * MS_PER_MINUTE
  const TOTAL_SLOTS: int := 48

  /** One point of the intraday grid: its instant and its `HH:MM` label. */
  datatype Slot = Slot(slotTime: int, timeLabel: string)

  /** The instant of slot `i` of the day beginning at `startUtc`. */
  function SlotTime(startUtc: int, i: int): int {
    startUtc + FIRST_SLOT_OFFSET_MS + i * SLOT_INTERVAL_MS
  }

  /** formatColomboTimeLabel: the Colombo wall-clock time of `t` as `HH:MM`, hours 00..23. */
  function TimeLabel(t: int): string {
    var minutes := (t + OFFSET_MS) % MS_PER_DAY / MS_PER_MINUTE;
    TwoDigits(minutes / 60) + ":" + TwoDigits(minutes % 60)
  }

  /** Every label is a clock time `HH:MM`, hours below 24, that reads back as the minute of the Colombo day. */
  lemma TimeLabelFormat(t: int)
    ensures var r := TimeLabel(t);
      && |r| == 5 && r[2] == ':' && AllDigits(r[..2]) && AllDigits(r[3..])
      && DigitsValue(r[..2]) < 24 && DigitsValue(r[3..]) < 60
      && DigitsValue(r[..2]) * 60 + DigitsValue(r[3..]) == (t + OFFSET_MS) % MS_PER_DAY / MS_PER_MINUTE
  {
    var minutes := (t + OFFSET_MS) % MS_PER_DAY / MS_PER_MINUTE;
    TwoDigitsRoundTrip(minutes / 60);
    TwoDigitsRoundTrip(minutes % 60);
    var r := TimeLabel(t);
    assert r[..2] == TwoDigits(minutes / 60) && r[3..] == TwoDigits(minutes % 60);
  }

  /** `k` minutes after local midnight the clock reads `k / 60` hours and `k % 60` minutes. */
  lemma TimeLabelAfterMidnight(startUtc: int, k: int)
    requires (startUtc + OFFSET_MS) % MS_PER_DAY == 0 && 0 <= k < 24 * 60
    ensures TimeLabel(startUtc + k * MS_PER_MINUTE) == TwoDigits(k / 60) + ":" + TwoDigits(k % 60)
  {
    var q := (startUtc + OFFSET_MS) / MS_PER_DAY;
    assert startUtc + k * MS_PER_MINUTE + OFFSET_MS == q * MS_PER_DAY + k * MS_PER_MINUTE;
    assert (startUtc + k * MS_PER_MINUTE + OFFSET_MS) % MS_PER_DAY == k * MS_PER_MINUTE;
  }

  /** On a day that begins at local midnight the first slot reads 00:29 ... */
  lemma FirstSlotLabel(startUtc: int)
    requires (startUtc + OFFSET_MS) % MS_PER_DAY == 0
    ensures TimeLabel(SlotTime(startUtc, 0)) == "00:29"
  {
    TimeLabelAfterMidnight(startUtc, 29);
    assert NatToString(29) == "29";
  }

  /** ... and the 48th 23:59. */
  lemma LastSlotLabel(startUtc: int)
    requires (startUtc + OFFSET_MS) % MS_PER_DAY == 0
    ensures TimeLabel(SlotTime(startUtc, TOTAL_SLOTS - 1)) == "23:59"
  {
    TimeLabelAfterMidnight(startUtc, 1439);
    assert NatToString(23) == "23" && NatToString(59) == "59";
  }

  /**
   * buildIntradaySlots: slot `i` lies 29 + 30 i minutes after `startUtc`, for `i` from 0
   * while the instant is not after `endUtc`, at most 48 slots.
   */
  method BuildIntradaySlots(startUtc: int, endUtc: int) returns (slots: seq<Slot>)
    ensures |slots| <= TOTAL_SLOTS
    ensures forall i :: 0 <= i < |slots| ==> slots[i] == Slot(SlotTime(startUtc, i), TimeLabel(SlotTime(startUtc, i)))
    ensures forall i :: 0 <= i < |slots| ==> slots[i].slotTime <= endUtc
    ensures |slots| < TOTAL_SLOTS ==> SlotTime(startUtc, |slots|) > endUtc
    ensures forall i, j :: 0 <= i < j < |slots| ==> slots[i].slotTime < slots[j].slotTime
    ensures endUtc - startUtc == MS_PER_DAY ==>
      |slots| == TOTAL_SLOTS && slots[TOTAL_SLOTS - 1].slotTime == endUtc - MS_PER_MINUTE
  {
    slots := [];
    var firstOffsetMs := 29 * 60 * 1000;
    var intervalMs := 30 * 60 * 1000;
    var totalSlots := 48;
    var i := 0;
    while i < totalSlots
      invariant 0 <= i <= totalSlots && |slots| == i
      invariant forall k :: 0 <= k < i ==> slots[k] == Slot(SlotTime(startUtc, k), TimeLabel(SlotTime(startUtc, k)))
      invariant forall k :: 0 <= k < i ==> SlotTime(startUtc, k) <= endUtc
    {
      var slotTime := startUtc + firstOffsetMs + i * intervalMs;
      if slotTime > endUtc {
        break;
      }
      slots := slots + [Slot(slotTime, TimeLabel(slotTime))];
      i := i + 1;
    }
    SlotTimesIncrease(startUtc);
    FullDayHasAllSlots(startUtc, endUtc, |slots|);
  }

  /** Slot instants strictly increase with the slot index. */
  lemma SlotTimesIncrease(startUtc: int)
    ensures forall i, j :: i < j ==> SlotTime(startUtc, i) < SlotTime(startUtc, j)
  {
    forall i, j | i < j ensures SlotTime(startUtc, i) < SlotTime(startUtc, j) {
      assert j * SLOT_INTERVAL_MS - i * SLOT_INTERVAL_MS == (j - i) * SLOT_INTERVAL_MS;
    }
  }

  /**
   * A grid that stops at the first slot after `endUtc`, or at 48 slots, has all 48 slots on a
   * day of 24 hours, the last one minute before its end.
   */
  lemma FullDayHasAllSlots(startUtc: int, endUtc: int, n: int)
    requires 0 <= n <= TOTAL_SLOTS && (n < TOTAL_SLOTS ==> SlotTime(startUtc, n) > endUtc)
    ensures endUtc - startUtc == MS_PER_DAY ==> n == TOTAL_SLOTS
    ensures endUtc - startUtc == MS_PER_DAY ==> SlotTime(startUtc, TOTAL_SLOTS - 1) == endUtc - MS_PER_MINUTE
  {
  }

  /**
   * formatDayLabel as written: the day of the month of the key's local midnight, read in
   * the time zone of the host, whose offset from UTC is `hostOffsetMs`.
   */
  function DayLabelOnHost(dayKey: string, hostOffsetMs: int): string {
    match ParseColomboDayParam(dayKey)
    case None => "Invalid Date"
    case Some(t) => NatToString(UtcDate(t + hostOffsetMs).day)
  }

  /** formatDayLabel, read in Colombo: the day of the month of the key. */
  function DayLabel(dayKey: string): string {
    DayLabelOnHost(dayKey, OFFSET_MS)
  }

  /** The label of a day key with a four-digit year is its day of the month, without padding. */
  lemma DayLabelOfDayKey(d: Date)
    requires ValidDate(d) && 1000 <= d.year <= 9999
    ensures DayLabel(DayKey(d)) == NatToString(d.day)
  {
    ParseDayKeyRoundTrip(d);
    var t := LocalMidnight(DayNumber(d));
    DayLabelOfParsed(DayKey(d), OFFSET_MS, t);
    LocalMidnightDate(DayNumber(d));
    CivilFromDaysOf(Day(t + OFFSET_MS), d);
  }

  /** A key that parses to `t` is labelled with the day of the month of `t` on the host. */
  lemma DayLabelOfParsed(dayKey: string, hostOffsetMs: int, t: int)
    requires ParseColomboDayParam(dayKey) == Some(t)
    ensures DayLabelOnHost(dayKey, hostOffsetMs) == NatToString(UtcDate(t + hostOffsetMs).day)
  {
  }

  /**
   * On a host whose time zone is UTC, as on Cloudflare Workers, the label as written is the
   * day before the key's day: Colombo midnight is 18:30 UTC of the previous day.
   */
  lemma DayLabelOnUtcHostIsPreviousDay(d: Date)
    requires ValidDate(d) && 1000 <= d.year <= 9999 && d.day > 1
    ensures DayLabelOnHost(DayKey(d), 0) == NatToString(d.day - 1)
  {
    ParseDayKeyRoundTrip(d);
    var t := LocalMidnight(DayNumber(d));
    DayLabelOfParsed(DayKey(d), 0, t);
    assert Day(t) == DayNumber(d) - 1;
    var prev := Date(d.year, d.month, d.day - 1);
    CivilFromDaysOf(Day(t + 0), prev);
  }
}
