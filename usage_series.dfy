/**
 * The series the dashboard draws from the usage log: the intraday series, which carries the
 * last sample forward to each half-hour slot, and the monthly series, which keeps the last
 * sample of each local day. The rows are those the log query returns, in its order.
 */
module UsageSeries {
  import opened Wrappers
  import opened Payload
  import opened JsDate
  import opened Calendar
  import opened ColomboTime

  /**
   * A row of the usage log as the series queries select it: the instant of its timestamp
   * (None when the column is null or empty) and its value-added-service volume.
   */
  datatype UsageRow = UsageRow(timestamp: Option<int>, vasUsedGb: Scalar)

  /** A sample of the intraday sweep: its instant and its volume. */
  datatype Entry = Entry(time: int, value: real)

  /** One point of the intraday series. */
  datatype DailyPoint = DailyPoint(timeLabel: string, vasUsed: real)

  /** One point of the monthly series. */
  datatype MonthlyPoint = MonthlyPoint(dayKey: string, dayLabel: string, vasUsed: real)

  /** `parseNullableNumber(row.vas_used_gb) ?? 0`. */
  function RowValue(row: UsageRow, toNumber: string -> JsNumber): real {
    ParseNullableNumber(row.vasUsedGb, toNumber).GetOr(0.0)
  }

  /** A row whose volume is null, or not a finite number, counts as 0. */
  lemma RowValueOfMissingVolume(row: UsageRow, toNumber: string -> JsNumber)
    requires ParseNullableNumber(row.vasUsedGb, toNumber).None?
    ensures RowValue(row, toNumber) == 0.0
  {
  }

  /** The log query orders rows by timestamp, oldest first. */
  predicate RowsSorted(rows: seq<UsageRow>) {
    forall i, j :: 0 <= i < j < |rows| && rows[i].timestamp.Some? && rows[j].timestamp.Some? ==>
      rows[i].timestamp.value <= rows[j].timestamp.value
  }

  predicate EntriesSorted(es: seq<Entry>) {
    forall i, j :: 0 <= i < j < |es| ==> es[i].time <= es[j].time
  }

  /** The number of rows that carry a timestamp. */
  function CountTimed(rows: seq<UsageRow>): nat {
    if rows == [] then 0
    else CountTimed(rows[..|rows| - 1]) + (if rows[|rows| - 1].timestamp.Some? then 1 else 0)
  }

  /** The intraday entries: the rows with a timestamp, in order, each with its volume or 0. */
  function Entries(rows: seq<UsageRow>, toNumber: string -> JsNumber): seq<Entry> {
    if rows == [] then []
    else
      var row := rows[|rows| - 1];
      Entries(rows[..|rows| - 1], toNumber)
        + (if row.timestamp.Some? then [Entry(row.timestamp.value, RowValue(row, toNumber))] else [])
  }

  /**
   * Entries drops exactly the rows without a timestamp: row `i`, when it has one, is entry
   * number CountTimed(rows[..i]).
   */
  lemma {:induction false} EntriesOfRows(rows: seq<UsageRow>, toNumber: string -> JsNumber, i: int)
    requires 0 <= i < |rows| && rows[i].timestamp.Some?
    ensures |Entries(rows, toNumber)| == CountTimed(rows)
    ensures CountTimed(rows[..i]) < |Entries(rows, toNumber)|
    ensures Entries(rows, toNumber)[CountTimed(rows[..i])] == Entry(rows[i].timestamp.value, RowValue(rows[i], toNumber))
  {
    var init := rows[..|rows| - 1];
    EntriesLength(init, toNumber);
    if i < |rows| - 1 {
      EntriesOfRows(init, toNumber, i);
      assert init[..i] == rows[..i];
    } else {
      assert rows[..i] == init;
    }
  }

  lemma {:induction false} EntriesLength(rows: seq<UsageRow>, toNumber: string -> JsNumber)
    ensures |Entries(rows, toNumber)| == CountTimed(rows)
  {
    if rows != [] {
      EntriesLength(rows[..|rows| - 1], toNumber);
    }
  }

  /** Every entry lies at or before a bound that every timestamp of the rows respects. */
  lemma {:induction false} EntriesBounded(rows: seq<UsageRow>, toNumber: string -> JsNumber, bound: int)
    requires forall i :: 0 <= i < |rows| && rows[i].timestamp.Some? ==> rows[i].timestamp.value <= bound
    ensures forall k :: 0 <= k < |Entries(rows, toNumber)| ==> Entries(rows, toNumber)[k].time <= bound
  {
    if rows != [] {
      EntriesBounded(rows[..|rows| - 1], toNumber, bound);
    }
  }

  /** Entries of rows in timestamp order are in time order. */
  lemma {:induction false} EntriesSortedOfRows(rows: seq<UsageRow>, toNumber: string -> JsNumber)
    requires RowsSorted(rows)
    ensures EntriesSorted(Entries(rows, toNumber))
  {
    if rows != [] {
      var init, row := rows[..|rows| - 1], rows[|rows| - 1];
      assert RowsSorted(init);
      EntriesSortedOfRows(init, toNumber);
      if row.timestamp.Some? {
        EntriesBounded(init, toNumber, row.timestamp.value);
      }
    }
  }

  /**
   * The reference step function: the volume of the last entry at or before `t`, or 0 when
   * there is none.
   */
  function LastValueAtOrBefore(es: seq<Entry>, t: int): real {
    if es == [] then 0.0
    else if es[|es| - 1].time <= t then es[|es| - 1].value
    else LastValueAtOrBefore(es[..|es| - 1], t)
  }

  /** The step function is 0 when no entry is at or before `t`. */
  lemma {:induction false} LastValueWithoutEarlierEntry(es: seq<Entry>, t: int)
    requires forall k :: 0 <= k < |es| ==> es[k].time > t
    ensures LastValueAtOrBefore(es, t) == 0.0
  {
    if es != [] {
      var init := es[..|es| - 1];
      assert forall k :: 0 <= k < |init| ==> init[k] == es[k];
      LastValueWithoutEarlierEntry(init, t);
    }
  }

  /** The step function at `t` is the volume of the last entry at or before `t`. */
  lemma {:induction false} LastValueOfLastEarlierEntry(es: seq<Entry>, t: int, j: int)
    requires 0 <= j < |es| && es[j].time <= t
    requires forall k :: j < k < |es| ==> es[k].time > t
    ensures LastValueAtOrBefore(es, t) == es[j].value
  {
    if j < |es| - 1 {
      var init := es[..|es| - 1];
      assert forall k :: 0 <= k < |init| ==> init[k] == es[k];
      LastValueOfLastEarlierEntry(init, t, j);
    }
  }

  /** The value the sweep holds once it has consumed `cursor` entries. */
  function ValueBefore(es: seq<Entry>, cursor: int): real
    requires 0 <= cursor <= |es|
  {
    if cursor == 0 then 0.0 else es[cursor - 1].value
  }

  /** Entries after `t` do not change the step function at `t`. */
  lemma {:induction false} LastValueIgnoresLater(es: seq<Entry>, c: int, t: int)
    requires 0 <= c <= |es|
    requires forall k :: c <= k < |es| ==> es[k].time > t
    ensures LastValueAtOrBefore(es, t) == LastValueAtOrBefore(es[..c], t)
  {
    if c < |es| {
      var init := es[..|es| - 1];
      assert init[..c] == es[..c];
      LastValueIgnoresLater(init, c, t);
    } else {
      assert es[..c] == es;
    }
  }

  /**
   * When the entries are in time order and the first `c` are at or before `t` while the next
   * is after it, the step function at `t` is the value of entry `c - 1`.
   */
  lemma LastValueSplit(es: seq<Entry>, c: int, t: int)
    requires EntriesSorted(es) && 0 <= c <= |es|
    requires forall k :: 0 <= k < c ==> es[k].time <= t
    requires c < |es| ==> es[c].time > t
    ensures LastValueAtOrBefore(es, t) == ValueBefore(es, c)
  {
    LastValueIgnoresLater(es, c, t);
    if c > 0 {
      assert es[..c][c - 1] == es[c - 1];
    }
  }

  /** Increasing slot instants, as BuildIntradaySlots produces them. */
  predicate SlotsIncreasing(slots: seq<Slot>) {
    forall i, j :: 0 <= i < j < |slots| ==> slots[i].slotTime < slots[j].slotTime
  }

  /** Cursor position `c` splits the entries at `t`: all before it are at or before `t`, the next is after. */
  predicate SplitsAt(es: seq<Entry>, c: int, t: int) {
    && 0 <= c <= |es|
    && (forall k :: 0 <= k < c ==> es[k].time <= t)
    && (c < |es| ==> es[c].time > t)
  }

  /** The number of entries at `t` or earlier. */
  function CountAtOrBefore(es: seq<Entry>, t: int): nat {
    if es == [] then 0
    else CountAtOrBefore(es[..|es| - 1], t) + (if es[|es| - 1].time <= t then 1 else 0)
  }

  /** On entries in time order, a split position at `t` is the number of entries at or before `t`. */
  lemma {:induction false} CountOfSplit(es: seq<Entry>, c: int, t: int)
    requires EntriesSorted(es) && SplitsAt(es, c, t)
    ensures CountAtOrBefore(es, t) == c
  {
    if es != [] {
      var n := |es|;
      var init := es[..n - 1];
      assert forall k :: 0 <= k < |init| ==> init[k] == es[k];
      if c == n {
        CountOfSplit(init, n - 1, t);
      } else {
        assert es[n - 1].time >= es[c].time;
        CountOfSplit(init, c, t);
      }
    }
  }

  /**
   * The sweep of getDailyUsageSeries: a cursor that only moves forward through the entries
   * consumes those at or before each slot and carries the last consumed volume, initially 0.
   * `consumed[k]` is the cursor once slot `k` is filled. On entries in time order it is the
   * number of entries at or before the slot, and each point is the step function at its slot.
   */
  method CarryForward(slots: seq<Slot>, entries: seq<Entry>) returns (points: seq<DailyPoint>, ghost consumed: seq<nat>)
    requires SlotsIncreasing(slots)
    ensures |points| == |slots| && |consumed| == |slots|
    ensures forall k :: 0 <= k < |slots| ==> points[k].timeLabel == slots[k].timeLabel
    ensures forall i, j :: 0 <= i < j < |consumed| ==> consumed[i] <= consumed[j]
    ensures forall k :: 0 <= k < |slots| ==>
      SplitsAt(entries, consumed[k], slots[k].slotTime) && points[k].vasUsed == ValueBefore(entries, consumed[k])
    ensures EntriesSorted(entries) ==>
      forall k :: 0 <= k < |slots| ==> consumed[k] == CountAtOrBefore(entries, slots[k].slotTime)
    ensures EntriesSorted(entries) ==>
      forall k :: 0 <= k < |slots| ==> points[k].vasUsed == LastValueAtOrBefore(entries, slots[k].slotTime)
  {
    var cursor := 0;
    var currentValue := 0.0;
    points := [];
    consumed := [];
    var i := 0;
    while i < |slots|
      invariant 0 <= i <= |slots| && |points| == i && |consumed| == i && 0 <= cursor <= |entries|
      invariant currentValue == ValueBefore(entries, cursor)
      invariant i == 0 ==> cursor == 0
      invariant i > 0 ==> consumed[i - 1] == cursor
      invariant i > 0 ==> SplitsAt(entries, cursor, slots[i - 1].slotTime)
      invariant forall a, b :: 0 <= a < b < i ==> consumed[a] <= consumed[b]
      invariant forall k :: 0 <= k < i ==> points[k].timeLabel == slots[k].timeLabel
      invariant forall k :: 0 <= k < i ==>
        SplitsAt(entries, consumed[k], slots[k].slotTime) && points[k].vasUsed == ValueBefore(entries, consumed[k])
      invariant EntriesSorted(entries) ==>
        forall k :: 0 <= k < i ==> consumed[k] == CountAtOrBefore(entries, slots[k].slotTime)
      invariant EntriesSorted(entries) ==>
        forall k :: 0 <= k < i ==> points[k].vasUsed == LastValueAtOrBefore(entries, slots[k].slotTime)
    {
      var slotTime := slots[i].slotTime;
      ghost var start := cursor;
      while cursor < |entries| && entries[cursor].time <= slotTime
        invariant start <= cursor <= |entries|
        invariant currentValue == ValueBefore(entries, cursor)
        invariant forall k :: 0 <= k < cursor ==> entries[k].time <= slotTime
      {
        currentValue := entries[cursor].value;
        cursor := cursor + 1;
      }
      assert SplitsAt(entries, cursor, slotTime);
      if EntriesSorted(entries) {
        LastValueSplit(entries, cursor, slotTime);
        CountOfSplit(entries, cursor, slotTime);
      }
      points := points + [DailyPoint(slots[i].timeLabel, currentValue)];
      consumed := consumed + [cursor];
      i := i + 1;
    }
  }

  /**
   * getDailyUsageSeries for the local day of `reference`, given the rows the log query
   * returns for that day: 48 points labelled with the slots' times, each carrying the
   * volume of the last sample at or before its slot, or 0 before the first sample.
   */
  method GetDailyUsageSeries(rows: seq<UsageRow>, toNumber: string -> JsNumber, reference: int)
    returns (points: seq<DailyPoint>)
    ensures |points| == TOTAL_SLOTS
    ensures forall k :: 0 <= k < |points| ==>
      points[k].timeLabel == TimeLabel(SlotTime(ColomboDayBounds(reference).startUtc, k))
    ensures RowsSorted(rows) ==> forall k :: 0 <= k < |points| ==>
      points[k].vasUsed == LastValueAtOrBefore(Entries(rows, toNumber), SlotTime(ColomboDayBounds(reference).startUtc, k))
  {
    var bounds := ColomboDayBounds(reference);
    ColomboDayBoundsShape(reference);
    var slots := BuildIntradaySlots(bounds.startUtc, bounds.endUtc);
    var entries := Entries(rows, toNumber);
    if RowsSorted(rows) {
      EntriesSortedOfRows(rows, toNumber);
    }
    ghost var consumed;
    points, consumed := CarryForward(slots, entries);
  }

  /** The local day key of a row with a timestamp. */
  function DayOfRow(row: UsageRow): Option<string> {
    if row.timestamp.Some? then Some(FormatColomboDayKey(row.timestamp.value)) else None
  }

  /** The reference per-day value: that of the last row on local day `dayKey`, if any. */
  function LatestOnDay(rows: seq<UsageRow>, toNumber: string -> JsNumber, dayKey: string): Option<real> {
    if rows == [] then None
    else if DayOfRow(rows[|rows| - 1]) == Some(dayKey) then Some(RowValue(rows[|rows| - 1], toNumber))
    else LatestOnDay(rows[..|rows| - 1], toNumber, dayKey)
  }

  /** `map.get(key)`. */
  function MapGet(m: map<string, real>, key: string): Option<real> {
    if key in m then Some(m[key]) else None
  }

  /** A day with no row has no value: nothing carries over from an earlier day. */
  lemma {:induction false} NoRowNoValue(rows: seq<UsageRow>, toNumber: string -> JsNumber, dayKey: string)
    requires forall i :: 0 <= i < |rows| ==> DayOfRow(rows[i]) != Some(dayKey)
    ensures LatestOnDay(rows, toNumber, dayKey) == None
  {
    if rows != [] {
      NoRowNoValue(rows[..|rows| - 1], toNumber, dayKey);
    }
  }

  /** The value of a day is that of its last row: row `i` when no later row is on that day. */
  lemma {:induction false} LatestOnDayAt(rows: seq<UsageRow>, toNumber: string -> JsNumber, i: int)
    requires 0 <= i < |rows| && DayOfRow(rows[i]).Some?
    requires forall j :: i < j < |rows| ==> DayOfRow(rows[j]) != DayOfRow(rows[i])
    ensures LatestOnDay(rows, toNumber, DayOfRow(rows[i]).value) == Some(RowValue(rows[i], toNumber))
  {
    if i < |rows| - 1 {
      LatestOnDayAt(rows[..|rows| - 1], toNumber, i);
    }
  }

  /**
   * The `Map.set` loop of getMonthlyUsage: for each row with a timestamp, in order, the
   * row's volume is stored under its local day key, so a later row of a day overwrites an
   * earlier one.
   */
  method LatestValuePerDay(rows: seq<UsageRow>, toNumber: string -> JsNumber) returns (m: map<string, real>)
    ensures forall key :: MapGet(m, key) == LatestOnDay(rows, toNumber, key)
  {
    m := map[];
    var i := 0;
    while i < |rows|
      invariant 0 <= i <= |rows|
      invariant forall key :: MapGet(m, key) == LatestOnDay(rows[..i], toNumber, key)
    {
      var row := rows[i];
      assert rows[..i + 1][..i] == rows[..i];
      if row.timestamp.None? {
        i := i + 1;
        continue;
      }
      var dayKey := FormatColomboDayKey(row.timestamp.value);
      var value := ParseNullableNumber(row.vasUsedGb, toNumber).GetOr(0.0);
      m := m[dayKey := value];
      i := i + 1;
    }
    assert rows[..i] == rows;
  }

  /** `dayKeys.map(...)`: one point per key, with its label and the stored volume or 0. */
  function PointsOfDays(dayKeys: seq<string>, m: map<string, real>): (points: seq<MonthlyPoint>)
    ensures |points| == |dayKeys|
  {
    seq(|dayKeys|, k requires 0 <= k < |dayKeys| =>
      MonthlyPoint(dayKeys[k], DayLabel(dayKeys[k]), if dayKeys[k] in m then m[dayKeys[k]] else 0.0))
  }

  /** The instant `8 - k` whole days before `today`, whose key is the `k`-th of the trailing window. */
  function TrailingInstant(today: int, k: int): int {
    today - (8 - k) * MS_PER_DAY
  }

  /** The `dayKeys` loop of the trailing variant: eight days ago through `today`, oldest first. */
  method TrailingDayKeys(today: int) returns (dayKeys: seq<string>)
    ensures |dayKeys| == 9
    ensures forall k :: 0 <= k < 9 ==> dayKeys[k] == FormatColomboDayKey(TrailingInstant(today, k))
  {
    dayKeys := [];
    var i := 8;
    while i >= 0
      invariant -1 <= i <= 8 && |dayKeys| == 8 - i
      invariant forall k :: 0 <= k < 8 - i ==> dayKeys[k] == FormatColomboDayKey(TrailingInstant(today, k))
    {
      var date := today - i * MS_PER_DAY;
      TrailingKeyStep(today, dayKeys, date);
      dayKeys := dayKeys + [FormatColomboDayKey(date)];
      i := i - 1;
    }
  }

  lemma TrailingKeyStep(today: int, dayKeys: seq<string>, date: int)
    requires |dayKeys| <= 8 && date == today - (8 - |dayKeys|) * MS_PER_DAY
    requires forall k :: 0 <= k < |dayKeys| ==> dayKeys[k] == FormatColomboDayKey(TrailingInstant(today, k))
    ensures forall k :: 0 <= k <= |dayKeys| ==>
      (dayKeys + [FormatColomboDayKey(date)])[k] == FormatColomboDayKey(TrailingInstant(today, k))
  {
    assert date == TrailingInstant(today, |dayKeys|);
  }

  /** The trailing window's keys are those of nine consecutive local days ending with today's. */
  lemma TrailingDaysConsecutive(today: int, k: int)
    requires 0 <= k < 9
    ensures LocalDay(TrailingInstant(today, k)) == LocalDay(today) - 8 + k
  {
    LocalDayShift(today, 8 - k);
  }

  /**
   * The instants the trailing query selects: from local midnight eight days ago up to the
   * end of today.
   */
  function TrailingQueryWindow(today: int): DayBounds {
    DayBounds(ColomboDayBounds(today - 8 * MS_PER_DAY).startUtc, ColomboDayBounds(today).endUtc)
  }

  /** The trailing query selects exactly the instants on one of the nine local days of the window. */
  lemma TrailingQueryWindowDays(today: int, t: int)
    ensures var w := TrailingQueryWindow(today);
      w.startUtc <= t < w.endUtc <==> LocalDay(today) - 8 <= LocalDay(t) <= LocalDay(today)
  {
    TrailingWindowEnds(today);
    LocalDaysBetween(t, LocalDay(today) - 8, LocalDay(today) + 1);
  }

  lemma TrailingWindowEnds(today: int)
    ensures TrailingQueryWindow(today) == DayBounds(LocalMidnight(LocalDay(today) - 8), LocalMidnight(LocalDay(today) + 1))
  {
    LocalDayShift(today, 8);
  }

  /**
   * getMonthlyUsage, trailing variant (src/index.ts): nine points for the local days from
   * eight days ago through today, each the volume of the last row of that day or 0.
   */
  method GetMonthlyUsageTrailing(rows: seq<UsageRow>, toNumber: string -> JsNumber, today: int)
    returns (points: seq<MonthlyPoint>)
    ensures |points| == 9
    ensures forall k :: 0 <= k < 9 ==> points[k].dayKey == FormatColomboDayKey(TrailingInstant(today, k))
    ensures forall k :: 0 <= k < 9 ==> points[k].dayLabel == DayLabel(points[k].dayKey)
    ensures forall k :: 0 <= k < 9 ==> points[k].vasUsed == LatestOnDay(rows, toNumber, points[k].dayKey).GetOr(0.0)
  {
    var dayKeys := TrailingDayKeys(today);
    var m := LatestValuePerDay(rows, toNumber);
    points := PointsOfDays(dayKeys, m);
  }

  /**
   * getMonthlyUsage, calendar-month variant (src/index.js): one point per day of the local
   * month of `reference`, keyed by that month's day keys, each the volume of the last row of
   * that day or 0.
   */
  method GetMonthlyUsageCalendar(rows: seq<UsageRow>, toNumber: string -> JsNumber, reference: int)
    returns (points: seq<MonthlyPoint>)
    ensures |points| == |ColomboMonth(reference).dayKeys|
    ensures forall k :: 0 <= k < |points| ==> points[k].dayKey == ColomboMonth(reference).dayKeys[k]
    ensures forall k :: 0 <= k < |points| ==> points[k].dayLabel == DayLabel(points[k].dayKey)
    ensures forall k :: 0 <= k < |points| ==>
      points[k].vasUsed == LatestOnDay(rows, toNumber, points[k].dayKey).GetOr(0.0)
  {
    var bounds := ColomboMonthBounds(reference);
    var m := LatestValuePerDay(rows, toNumber);
    points := PointsOfDays(bounds.dayKeys, m);
  }
}
