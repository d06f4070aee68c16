/**
 * The timeline's rows: one row per calendar day of a range with its flags,
 * entries and balance comparisons (the day loop of `generateTimelineDates`),
 * then only the rows worth showing (`filterRelevantDates`).
 *
 * The balance map is an input: a day key maps to the running balance at the
 * end of that day. Today's date is a parameter.
 */
module TimelineRows {
  import opened Wrappers
  import opened Calendar
  import opened EntryModel
  import opened DateKeys
  import opened DayEntries

  /** `'up' | 'down' | 'none'`. */
  datatype Trend = Up | Down | Level

  /** Compares a balance with an earlier one. */
  function Compare(now: int, before: int): (t: Trend)
    ensures t == Up <==> now > before
    ensures t == Down <==> now < before
    ensures t == Level <==> now == before
  {
    if now > before then Up else if now < before then Down else Level
  }

  /**
   * `TimelineDate` without its formatted strings. `positiveBalance` stands
   * for `balanceTooltipClass`: `'positive-balance'` when true,
   * `'negative-balance'` when false.
   */
  datatype TimelineRow = TimelineRow(
    date: Date,
    dateKey: string,
    isMonthStart: bool,
    isMonthEnd: bool,
    entries: seq<Occurrence>,
    showMonthHeader: bool,
    daysSkipped: int,
    isToday: bool,
    balance: int,
    positiveBalance: bool,
    isCurrentMonth: bool,
    showBalanceIndicator: bool,
    previousDayBalance: int,
    balanceChange: Trend,
    monthEndArrow: Trend)

  /** What the day loop reads besides the range: the entries, the balance map, the settings, the indicator setting and today. */
  datatype Ledger = Ledger(
    entries: seq<Entry>,
    balances: map<string, int>,
    settings: Option<AppSettings>,
    showBalanceIndicator: bool,
    today: Date)

  /** `balanceMap.get(key) ?? settings()?.initialBalance ?? 0`. */
  function LookupBalance(balances: map<string, int>, key: string, settings: Option<AppSettings>): int
  {
    if key in balances then balances[key]
    else if settings.Some? then settings.value.initialBalance
    else 0
  }

  /** `getPreviousDayBalance` for the row of `d`, looking up the key of the day before. */
  function PreviousDayBalance(ledger: Ledger, d: Date): int
  {
    LookupBalance(ledger.balances, PreviousDayKey(d), ledger.settings)
  }

  /**
   * The previous-day balance is the balance recorded for the day whose number
   * is one less; without one it is the initial balance, and 0 without settings.
   */
  lemma PreviousDayBalanceOfDayBefore(ledger: Ledger, d: Date, e: Date)
    requires DayNumber(e) == DayNumber(d) - 1
    ensures FormatDateKey(e) in ledger.balances ==> PreviousDayBalance(ledger, d) == ledger.balances[FormatDateKey(e)]
    ensures FormatDateKey(e) !in ledger.balances ==>
      PreviousDayBalance(ledger, d) == if ledger.settings.Some? then ledger.settings.value.initialBalance else 0
  {
    PreviousDayKeyIsDayBefore(d, e);
  }

  /** The last day of the month before `d`'s. */
  function PreviousMonthEnd(d: Date): Date
  {
    PrevDay(FirstOfMonth(d))
  }

  /** The balance of the last month end before `d` within a range starting at `start`, if there is one. */
  function PriorMonthEndBalance(start: Date, d: Date, ledger: Ledger): Option<int>
  {
    var last := PreviousMonthEnd(d);
    if DayNumber(start) <= DayNumber(last)
    then Some(LookupBalance(ledger.balances, FormatDateKey(last), ledger.settings))
    else None
  }

  /** The row the day loop builds for day `d` of a range starting at `start`. */
  predicate IsDayRow(row: TimelineRow, d: Date, start: Date, ledger: Ledger)
  {
    && row.date == d
    && DayFields(row, start, ledger)
    && !row.showMonthHeader && row.daysSkipped == 0 && !row.isToday && !row.showBalanceIndicator
  }

  /**
   * The fields of the row of `row.date` that the day loop computes and the
   * filter passes on: the key, the month flags, the entries, the balance and
   * its sign, the current-month flag, the previous-day balance and both trends.
   */
  predicate DayFields(row: TimelineRow, start: Date, ledger: Ledger)
  {
    && row.dateKey == FormatDateKey(row.date)
    && row.isMonthStart == (row.date == start || row.date.day == 1)
    && row.entries == EntriesOn(ledger.entries, row.date)
    && row.isCurrentMonth == (NextDay(row.date).year == ledger.today.year && NextDay(row.date).month == ledger.today.month)
    && row.positiveBalance == (row.balance >= 0)
    && row.previousDayBalance == (if ledger.showBalanceIndicator then PreviousDayBalance(ledger, row.date) else 0)
    && row.balanceChange == Compare(row.balance, row.previousDayBalance)
    && MonthEndFields(row, row.date, start, ledger)
  }

  /** The balance of the row of `d`, whether it ends a month, and its arrow against the previous month end in the range. */
  predicate MonthEndFields(row: TimelineRow, d: Date, start: Date, ledger: Ledger)
  {
    && row.isMonthEnd == (d.day == DaysInMonth(d.year, d.month))
    && row.balance == LookupBalance(ledger.balances, FormatDateKey(d), ledger.settings)
    && row.monthEndArrow == (if row.isMonthEnd && PriorMonthEndBalance(start, d, ledger).Some?
                             then Compare(row.balance, PriorMonthEndBalance(start, d, ledger).value)
                             else Level)
  }

  lemma NextDayMonth(d: Date)
    ensures NextDay(d).month != d.month <==> d.day == DaysInMonth(d.year, d.month)
    ensures NextDay(d).day == 1 <==> d.day == DaysInMonth(d.year, d.month)
  {
  }

  lemma PrevDayMonth(d: Date)
    ensures PrevDay(d).month != d.month <==> d.day == 1
  {
  }

  /** One pass of the day loop: the row of `currentDate`, given the month of the day before (-1 at the start) and the last month end's balance. */
  method DayRow(start: Date, currentDate: Date, previousMonth: int, previousMonthEndBalance: Option<int>, ledger: Ledger)
    returns (row: TimelineRow)
    requires DayNumber(start) <= DayNumber(currentDate)
    requires currentDate == start ==> previousMonth == -1
    requires currentDate != start ==> previousMonth == PrevDay(currentDate).month
    requires previousMonthEndBalance == PriorMonthEndBalance(start, currentDate, ledger)
    ensures IsDayRow(row, currentDate, start, ledger)
  {
    var dateKey := FormatDateKey(currentDate);
    var currentMonth := currentDate.month;
    var isMonthStart := currentMonth != previousMonth;

    SetDateRelative(currentDate, 1);
    var nextDay := SetDate(currentDate, currentDate.day + 1);
    assert nextDay == NextDay(currentDate);
    var isMonthEnd := nextDay.month != currentMonth;

    var entriesForDate := EntriesForDate(currentDate, ledger.entries);
    var balance := LookupBalance(ledger.balances, dateKey, ledger.settings);
    var positiveBalance := balance >= 0;
    var isCurrentMonth := nextDay.month == ledger.today.month && nextDay.year == ledger.today.year;
    var previousDayBalance := if ledger.showBalanceIndicator then PreviousDayBalance(ledger, currentDate) else 0;
    var balanceChange := Compare(balance, previousDayBalance);
    var monthEndArrow := Level;
    if isMonthEnd && previousMonthEndBalance.Some? {
      monthEndArrow := Compare(balance, previousMonthEndBalance.value);
    }
    NextDayMonth(currentDate);
    PrevDayMonth(currentDate);
    row := TimelineRow(currentDate, dateKey, isMonthStart, isMonthEnd, entriesForDate, false, 0, false,
                       balance, positiveBalance, isCurrentMonth, false, previousDayBalance, balanceChange, monthEndArrow);
  }

  /** The day loop of `generateTimelineDates`: one row per day from `start` to `end`. */
  method DayRows(start: Date, end: Date, ledger: Ledger) returns (rows: seq<TimelineRow>)
    ensures |rows| == if DayNumber(start) <= DayNumber(end) then DayNumber(end) - DayNumber(start) + 1 else 0
    ensures DayRowsFrom(rows, start, ledger)
  {
    rows := [];
    var currentDate := start;
    var previousMonth := -1;
    var previousMonthEndBalance: Option<int> := None;
    PrevDayNumber(FirstOfMonth(start));
    DayNumberOrder(FirstOfMonth(start), start);
    while DayNumber(currentDate) <= DayNumber(end)
      invariant DayNumber(currentDate) == DayNumber(start) + |rows|
      invariant |rows| > 0 ==> DayNumber(currentDate) <= DayNumber(end) + 1
      invariant |rows| == 0 ==> currentDate == start && previousMonth == -1
      invariant |rows| > 0 ==> previousMonth == PrevDay(currentDate).month
      invariant previousMonthEndBalance == PriorMonthEndBalance(start, currentDate, ledger)
      invariant DayRowsFrom(rows, start, ledger)
      decreases DayNumber(end) - DayNumber(currentDate)
    {
      if |rows| > 0 {
        DayNumberInjective(currentDate, start);
      }
      var row := DayRow(start, currentDate, previousMonth, previousMonthEndBalance, ledger);
      AppendDayRow(rows, row, start, ledger);
      rows := rows + [row];
      if row.isMonthEnd {
        previousMonthEndBalance := Some(row.balance);
      }
      previousMonth := currentDate.month;
      MonthEndsAdvance(start, currentDate, ledger);
      StepDay(currentDate);
      currentDate := SetDate(currentDate, currentDate.day + 1);
    }
  }

  /** Row `i` of `rows` is the row of the `i`-th day from `start`. */
  predicate DayRowsFrom(rows: seq<TimelineRow>, start: Date, ledger: Ledger)
  {
    forall i :: 0 <= i < |rows| ==>
      DayNumber(rows[i].date) == DayNumber(start) + i && IsDayRow(rows[i], rows[i].date, start, ledger)
  }

  lemma AppendDayRow(rows: seq<TimelineRow>, row: TimelineRow, start: Date, ledger: Ledger)
    requires DayRowsFrom(rows, start, ledger)
    requires DayNumber(row.date) == DayNumber(start) + |rows| && IsDayRow(row, row.date, start, ledger)
    ensures DayRowsFrom(rows + [row], start, ledger)
  {
    var rows' := rows + [row];
    forall i | 0 <= i < |rows'|
      ensures DayNumber(rows'[i].date) == DayNumber(start) + i && IsDayRow(rows'[i], rows'[i].date, start, ledger)
    {
      if i < |rows| {
        assert rows'[i] == rows[i];
      }
    }
  }

  /** `setDate(getDate() + 1)` moves to the next day. */
  lemma StepDay(d: Date)
    ensures SetDate(d, d.day + 1) == NextDay(d)
    ensures DayNumber(NextDay(d)) == DayNumber(d) + 1
    ensures PrevDay(NextDay(d)) == d
  {
    SetDateRelative(d, 1);
    NextDayNumber(d);
    PrevDayNumber(NextDay(d));
    DayNumberInjective(PrevDay(NextDay(d)), d);
  }

  /** Stepping one day keeps the last month end seen, or makes it today when today ends a month. */
  lemma MonthEndsAdvance(start: Date, d: Date, ledger: Ledger)
    requires DayNumber(start) <= DayNumber(d)
    ensures d.day == DaysInMonth(d.year, d.month) ==>
      PriorMonthEndBalance(start, NextDay(d), ledger) == Some(LookupBalance(ledger.balances, FormatDateKey(d), ledger.settings))
    ensures d.day != DaysInMonth(d.year, d.month) ==>
      PriorMonthEndBalance(start, NextDay(d), ledger) == PriorMonthEndBalance(start, d, ledger)
  {
    if d.day == DaysInMonth(d.year, d.month) {
      NextDayNumber(d);
      PrevDayNumber(NextDay(d));
      DayNumberInjective(PrevDay(NextDay(d)), d);
    }
  }

  /** The previous month's last day lies `d.day` days before `d` and ends its month. */
  lemma PreviousMonthEndNumber(d: Date)
    ensures DayNumber(PreviousMonthEnd(d)) == DayNumber(d) - d.day
    ensures PreviousMonthEnd(d).day == DaysInMonth(PreviousMonthEnd(d).year, PreviousMonthEnd(d).month)
  {
    PrevDayNumber(FirstOfMonth(d));
  }

  /** A month end's arrow compares with the row of the previous month's last day when the range holds it. */
  lemma ArrowAgainstPreviousMonthEnd(start: Date, ledger: Ledger, row: TimelineRow, earlier: TimelineRow)
    requires MonthEndFields(row, row.date, start, ledger) && row.isMonthEnd
    requires earlier.date == PreviousMonthEnd(row.date) && DayNumber(start) <= DayNumber(earlier.date)
    requires MonthEndFields(earlier, earlier.date, start, ledger)
    ensures earlier.isMonthEnd
    ensures row.monthEndArrow == Compare(row.balance, earlier.balance)
  {
    PreviousMonthEndNumber(row.date);
  }

  /** A month end whose previous month ended before the range has a level arrow. */
  lemma ArrowAtFirstMonthEnd(start: Date, ledger: Ledger, row: TimelineRow)
    requires MonthEndFields(row, row.date, start, ledger)
    requires DayNumber(PreviousMonthEnd(row.date)) < DayNumber(start)
    ensures row.monthEndArrow == Level
  {
  }

  /** The row `d.day` places before a month end is dated the previous month's last day, and the arrow compares with it. */
  lemma PreviousMonthEndRow(rows: seq<TimelineRow>, start: Date, ledger: Ledger, i: int, k: int)
    requires MonthEndRows(rows, start, ledger)
    requires 0 <= i < |rows| && rows[i].isMonthEnd && k == i - rows[i].date.day && 0 <= k
    ensures rows[k].date == PreviousMonthEnd(rows[i].date)
    ensures rows[k].isMonthEnd
    ensures rows[i].monthEndArrow == Compare(rows[i].balance, rows[k].balance)
  {
    PreviousMonthEndNumber(rows[i].date);
    DayNumberInjective(rows[k].date, PreviousMonthEnd(rows[i].date));
    ArrowAgainstPreviousMonthEnd(start, ledger, rows[i], rows[k]);
  }

  /**
   * The arrow of a month end compares its balance with the row of the
   * previous month's last day, an earlier month end; when the range has no
   * such row, the arrow is level.
   */
  lemma MonthEndArrowMeaning(rows: seq<TimelineRow>, start: Date, ledger: Ledger, i: int)
    requires MonthEndRows(rows, start, ledger)
    requires 0 <= i < |rows| && rows[i].isMonthEnd
    ensures forall k :: 0 <= k < |rows| && rows[k].date == PreviousMonthEnd(rows[i].date) ==>
      k < i && rows[k].isMonthEnd && rows[i].monthEndArrow == Compare(rows[i].balance, rows[k].balance)
    ensures (forall k :: 0 <= k < |rows| ==> rows[k].date != PreviousMonthEnd(rows[i].date)) ==>
      rows[i].monthEndArrow == Level
  {
    var d := rows[i].date;
    PreviousMonthEndNumber(d);
    forall k | 0 <= k < |rows| && rows[k].date == PreviousMonthEnd(d)
      ensures k < i && rows[k].isMonthEnd && rows[i].monthEndArrow == Compare(rows[i].balance, rows[k].balance)
    {
      PreviousMonthEndRow(rows, start, ledger, i, k);
    }
    if i >= d.day {
      PreviousMonthEndRow(rows, start, ledger, i, i - d.day);
    } else {
      ArrowAtFirstMonthEnd(start, ledger, rows[i]);
    }
  }

  /** No row between the previous month's end and a day ends a month. */
  lemma MonthInteriorRows(rows: seq<TimelineRow>, start: Date, ledger: Ledger, i: int)
    requires MonthEndRows(rows, start, ledger)
    requires 0 <= i < |rows|
    ensures forall j :: i - rows[i].date.day < j < i && 0 <= j ==> !rows[j].isMonthEnd
  {
    var d := rows[i].date;
    var first := FirstOfMonth(d);
    forall j | i - d.day < j < i && 0 <= j
      ensures !rows[j].isMonthEnd
    {
      DayNumberOrder(rows[j].date, first);
      DayNumberOrder(rows[j].date, d);
    }
  }

  /** The first month end of the range has no earlier month end to compare with. */
  lemma FirstMonthEndLevel(rows: seq<TimelineRow>, start: Date, ledger: Ledger, i: int)
    requires DayRowsFrom(rows, start, ledger)
    requires 0 <= i < |rows| && rows[i].isMonthEnd
    requires forall k :: 0 <= k < i ==> !rows[k].isMonthEnd
    ensures rows[i].monthEndArrow == Level
  {
    DayRowsMonthEnds(rows, start, ledger);
    MonthEndArrowMeaning(rows, start, ledger, i);
    assert forall k :: 0 <= k < |rows| ==> rows[k].date != PreviousMonthEnd(rows[i].date);
  }

  /** Row `i` of `rows` is the `i`-th day from `start` with its month-end fields. */
  predicate MonthEndRows(rows: seq<TimelineRow>, start: Date, ledger: Ledger)
  {
    forall i :: 0 <= i < |rows| ==>
      DayNumber(rows[i].date) == DayNumber(start) + i && MonthEndFields(rows[i], rows[i].date, start, ledger)
  }

  lemma DayRowsMonthEnds(rows: seq<TimelineRow>, start: Date, ledger: Ledger)
    requires DayRowsFrom(rows, start, ledger)
    ensures MonthEndRows(rows, start, ledger)
  {
  }

  // ---------------------------------------------------------------------------
  // Relevant rows

  /** A row is shown when it is today, has entries, or ends a month. */
  predicate Relevant(row: TimelineRow, todayKey: string)
  {
    row.dateKey == todayKey || |row.entries| > 0 || row.isMonthEnd
  }

  /** The positions of the relevant rows, in order. */
  function RelevantIndices(rows: seq<TimelineRow>, todayKey: string): (r: seq<int>)
    ensures forall k :: 0 <= k < |r| ==> 0 <= r[k] < |rows|
  {
    if |rows| == 0 then []
    else RelevantIndices(rows[..|rows| - 1], todayKey) + (if Relevant(rows[|rows| - 1], todayKey) then [|rows| - 1] else [])
  }

  /** The relevant positions are exactly the positions of the relevant rows, in increasing order. */
  lemma {:induction false} RelevantIndicesMeaning(rows: seq<TimelineRow>, todayKey: string)
    ensures var r := RelevantIndices(rows, todayKey);
      && (forall k, l :: 0 <= k < l < |r| ==> r[k] < r[l])
      && (forall i :: 0 <= i < |rows| ==> (i in r <==> Relevant(rows[i], todayKey)))
    decreases |rows|
  {
    if |rows| > 0 {
      var init := rows[..|rows| - 1];
      RelevantIndicesMeaning(init, todayKey);
      assert forall i :: 0 <= i < |init| ==> rows[i] == init[i];
    }
  }

  /** A kept row as `filterRelevantDates` rewrites it, given the date of the kept row before it. */
  function Marked(row: TimelineRow, todayKey: string, showIndicator: bool, previous: Option<Date>): TimelineRow
  {
    var isToday := row.dateKey == todayKey;
    row.(isToday := isToday,
         daysSkipped := if previous.None? then 0 else DayNumber(row.date) - DayNumber(previous.value) - 1,
         showMonthHeader := false,
         showBalanceIndicator := showIndicator && (|row.entries| > 0 || isToday))
  }

  /** `Marked` sets exactly the four fields the filter assigns. */
  lemma MarkedFields(row: TimelineRow, todayKey: string, showIndicator: bool, previous: Option<Date>, daysSkipped: int)
    requires daysSkipped == if previous.None? then 0 else DayNumber(row.date) - DayNumber(previous.value) - 1
    ensures Marked(row, todayKey, showIndicator, previous)
         == row.(isToday := row.dateKey == todayKey, daysSkipped := daysSkipped, showMonthHeader := false,
                 showBalanceIndicator := showIndicator && (|row.entries| > 0 || row.dateKey == todayKey))
  {
  }

  /** The rewritten row at position `k` of the relevant positions `idx` of `rows`. */
  function MarkedAt(rows: seq<TimelineRow>, idx: seq<int>, k: int, todayKey: string, showIndicator: bool): TimelineRow
    requires 0 <= k < |idx|
    requires forall l :: 0 <= l < |idx| ==> 0 <= idx[l] < |rows|
  {
    Marked(rows[idx[k]], todayKey, showIndicator, if k == 0 then None else Some(rows[idx[k - 1]].date))
  }

  /** Looking at one more row appends its position when it is relevant. */
  lemma RelevantIndicesStep(rows: seq<TimelineRow>, i: int, todayKey: string)
    requires 0 <= i < |rows|
    ensures RelevantIndices(rows[..i + 1], todayKey)
         == RelevantIndices(rows[..i], todayKey) + (if Relevant(rows[i], todayKey) then [i] else [])
  {
    assert rows[..i + 1][..i] == rows[..i];
  }

  lemma MarkedAtExtend(rows: seq<TimelineRow>, idx: seq<int>, i: int, todayKey: string, showIndicator: bool)
    requires forall l :: 0 <= l < |idx| ==> 0 <= idx[l] < |rows|
    requires 0 <= i < |rows|
    ensures forall k :: 0 <= k < |idx| ==>
      MarkedAt(rows, idx + [i], k, todayKey, showIndicator) == MarkedAt(rows, idx, k, todayKey, showIndicator)
  {
    forall k | 0 <= k < |idx|
      ensures MarkedAt(rows, idx + [i], k, todayKey, showIndicator) == MarkedAt(rows, idx, k, todayKey, showIndicator)
    {
      assert (idx + [i])[k] == idx[k];
      if k > 0 {
        assert (idx + [i])[k - 1] == idx[k - 1];
      }
    }
  }

  /** `filterRelevantDates(allDates)`, with today and the indicator setting as parameters. */
  method FilterRelevantDates(allDates: seq<TimelineRow>, today: Date, showIndicator: bool)
    returns (filtered: seq<TimelineRow>)
    ensures KeptRows(filtered, allDates, RelevantIndices(allDates, FormatDateKey(today)), FormatDateKey(today), showIndicator)
  {
    filtered := KeepRelevant(allDates, FormatDateKey(today), showIndicator);
  }

  /** `filtered` holds the rewritten rows at the relevant positions `idx` of `rows`. */
  predicate KeptRows(filtered: seq<TimelineRow>, rows: seq<TimelineRow>, idx: seq<int>, todayKey: string, showIndicator: bool)
  {
    && |filtered| == |idx|
    && (forall l :: 0 <= l < |idx| ==> 0 <= idx[l] < |rows|)
    && (forall k :: 0 <= k < |filtered| ==> filtered[k] == MarkedAt(rows, idx, k, todayKey, showIndicator))
  }

  /** Keeping row `i` appends its rewritten form, measured from the last kept row. */
  lemma KeptRowsAppend(filtered: seq<TimelineRow>, rows: seq<TimelineRow>, idx: seq<int>, i: int,
                       todayKey: string, showIndicator: bool, previous: Option<Date>)
    requires KeptRows(filtered, rows, idx, todayKey, showIndicator)
    requires 0 <= i < |rows|
    requires previous == if |filtered| == 0 then None else Some(filtered[|filtered| - 1].date)
    ensures KeptRows(filtered + [Marked(rows[i], todayKey, showIndicator, previous)], rows, idx + [i], todayKey, showIndicator)
  {
    var filtered' := filtered + [Marked(rows[i], todayKey, showIndicator, previous)];
    var idx' := idx + [i];
    MarkedAtExtend(rows, idx, i, todayKey, showIndicator);
    forall k | 0 <= k < |filtered'|
      ensures filtered'[k] == MarkedAt(rows, idx', k, todayKey, showIndicator)
    {
      if k < |filtered| {
        assert filtered'[k] == filtered[k];
      } else if k > 0 {
        assert filtered[k - 1] == MarkedAt(rows, idx, k - 1, todayKey, showIndicator);
        assert idx'[k - 1] == idx[k - 1];
      }
    }
  }

  /** The loop of `filterRelevantDates` for a given key of today. */
  method KeepRelevant(allDates: seq<TimelineRow>, todayKey: string, showIndicator: bool)
    returns (filtered: seq<TimelineRow>)
    ensures KeptRows(filtered, allDates, RelevantIndices(allDates, todayKey), todayKey, showIndicator)
  {
    filtered := [];
    for i := 0 to |allDates|
      invariant KeptRows(filtered, allDates, RelevantIndices(allDates[..i], todayKey), todayKey, showIndicator)
    {
      var current := allDates[i];
      ghost var idx := RelevantIndices(allDates[..i], todayKey);
      RelevantIndicesStep(allDates, i, todayKey);
      var isToday := current.dateKey == todayKey;
      var hasEntries := |current.entries| > 0;
      var isMonthEnd := current.isMonthEnd;
      if isToday || hasEntries || isMonthEnd {
        ghost var previous: Option<Date> := None;
        var daysSkipped := 0;
        if |filtered| > 0 {
          var lastDate := filtered[|filtered| - 1].date;
          previous := Some(lastDate);
          daysSkipped := DayNumber(current.date) - DayNumber(lastDate) - 1;
        }
        var showBalanceIndicator := showIndicator && (hasEntries || isToday);
        var marked := current.(isToday := isToday, daysSkipped := daysSkipped,
                               showMonthHeader := false, showBalanceIndicator := showBalanceIndicator);
        MarkedFields(current, todayKey, showIndicator, previous, daysSkipped);
        KeptRowsAppend(filtered, allDates, idx, i, todayKey, showIndicator, previous);
        filtered := filtered + [marked];
        assert RelevantIndices(allDates[..i + 1], todayKey) == idx + [i];
      } else {
        assert idx + [] == idx;
      }
    }
    assert allDates[..|allDates|] == allDates;
  }

  // ---------------------------------------------------------------------------
  // The whole timeline

  /** `generateTimelineDates(start, end, entries)`: the day rows of the range, then the relevant ones. */
  method GenerateTimelineDates(start: Date, end: Date, ledger: Ledger) returns (dates: seq<TimelineRow>)
    ensures forall k :: 0 <= k < |dates| ==> DayNumber(start) <= DayNumber(dates[k].date) <= DayNumber(end)
    ensures forall k, l :: 0 <= k < l < |dates| ==> DayNumber(dates[k].date) < DayNumber(dates[l].date)
    ensures forall d: Date :: DayNumber(start) <= DayNumber(d) <= DayNumber(end) ==>
      (Shows(dates, d) <==> KeptDay(ledger, d))
    ensures forall k :: 0 <= k < |dates| ==> ShownRow(dates[k], ledger)
    ensures forall k :: 0 <= k < |dates| ==> DayFields(dates[k], start, ledger)
    ensures GapsCounted(dates)
  {
    var rows := DayRows(start, end, ledger);
    dates := FilterRelevantDates(rows, ledger.today, ledger.showBalanceIndicator);
    DayRowsKeys(rows, start, ledger);
    DayRowsFields(rows, start, ledger);
    TimelineFromRows(rows, dates, start, ledger);
  }

  /** The timeline has a row dated `d`. */
  predicate Shows(dates: seq<TimelineRow>, d: Date)
  {
    exists k :: 0 <= k < |dates| && dates[k].date == d
  }

  /** A day the timeline shows: today, a day with entries, or the last day of a month. */
  predicate KeptDay(ledger: Ledger, d: Date)
  {
    d == ledger.today || |EntriesOn(ledger.entries, d)| > 0 || d.day == DaysInMonth(d.year, d.month)
  }

  /**
   * A shown row carries its day's entries, is today exactly when its date is
   * today's, shows the balance indicator when the setting is on and the day
   * has entries or is today, and has no month header.
   */
  predicate ShownRow(row: TimelineRow, ledger: Ledger)
  {
    && row.entries == EntriesOn(ledger.entries, row.date)
    && row.isToday == (row.date == ledger.today)
    && row.showBalanceIndicator == (ledger.showBalanceIndicator && (|row.entries| > 0 || row.isToday))
    && !row.showMonthHeader
  }

  /** Each shown row counts the hidden days since the shown row before it; the first counts none. */
  predicate GapsCounted(dates: seq<TimelineRow>)
  {
    && (|dates| > 0 ==> dates[0].daysSkipped == 0)
    && (forall k :: 0 < k < |dates| ==> dates[k].daysSkipped == DayNumber(dates[k].date) - DayNumber(dates[k - 1].date) - 1)
  }

  /** Row `i` is the `i`-th day from `start`, with its key, entries and month-end flag. */
  predicate RowKeys(rows: seq<TimelineRow>, start: Date, ledger: Ledger)
  {
    forall i :: 0 <= i < |rows| ==>
      && DayNumber(rows[i].date) == DayNumber(start) + i
      && rows[i].dateKey == FormatDateKey(rows[i].date)
      && rows[i].entries == EntriesOn(ledger.entries, rows[i].date)
      && rows[i].isMonthEnd == (rows[i].date.day == DaysInMonth(rows[i].date.year, rows[i].date.month))
  }

  lemma DayRowsKeys(rows: seq<TimelineRow>, start: Date, ledger: Ledger)
    requires DayRowsFrom(rows, start, ledger)
    ensures RowKeys(rows, start, ledger)
  {
  }

  lemma DayRowsFields(rows: seq<TimelineRow>, start: Date, ledger: Ledger)
    requires DayRowsFrom(rows, start, ledger)
    ensures forall i :: 0 <= i < |rows| ==> DayFields(rows[i], start, ledger)
  {
  }

  /** The filter's rewrite leaves the day loop's fields as they were. */
  lemma MarkedKeepsDayFields(row: TimelineRow, todayKey: string, showIndicator: bool, previous: Option<Date>,
                             start: Date, ledger: Ledger)
    requires DayFields(row, start, ledger)
    ensures DayFields(Marked(row, todayKey, showIndicator, previous), start, ledger)
  {
  }

  /** Every kept row carries the day loop's fields of its day. */
  lemma KeptRowsCarryDayFields(rows: seq<TimelineRow>, filtered: seq<TimelineRow>, idx: seq<int>, todayKey: string,
                               showIndicator: bool, start: Date, ledger: Ledger)
    requires forall i :: 0 <= i < |rows| ==> DayFields(rows[i], start, ledger)
    requires KeptRows(filtered, rows, idx, todayKey, showIndicator)
    ensures forall k :: 0 <= k < |filtered| ==> DayFields(filtered[k], start, ledger)
  {
    forall k | 0 <= k < |filtered|
      ensures DayFields(filtered[k], start, ledger)
    {
      KeptRowAt(filtered, rows, idx, todayKey, showIndicator, k);
      MarkedKeepsDayFields(rows[idx[k]], todayKey, showIndicator, if k == 0 then None else Some(filtered[k - 1].date),
                           start, ledger);
    }
  }

  /** A day row is relevant exactly when its day is one the timeline shows. */
  lemma RelevantRowIsKeptDay(rows: seq<TimelineRow>, start: Date, ledger: Ledger, j: int)
    requires RowKeys(rows, start, ledger)
    requires 0 <= j < |rows|
    ensures Relevant(rows[j], FormatDateKey(ledger.today)) <==> KeptDay(ledger, rows[j].date)
  {
    KeyInjective(rows[j].date, ledger.today);
  }

  /** The `k`-th relevant position holds a relevant row. */
  lemma {:induction false} RelevantIndexAt(rows: seq<TimelineRow>, todayKey: string, k: int)
    requires 0 <= k < |RelevantIndices(rows, todayKey)|
    ensures Relevant(rows[RelevantIndices(rows, todayKey)[k]], todayKey)
    decreases |rows|
  {
    var init := rows[..|rows| - 1];
    if k < |RelevantIndices(init, todayKey)| {
      RelevantIndexAt(init, todayKey, k);
      assert rows[RelevantIndices(init, todayKey)[k]] == init[RelevantIndices(init, todayKey)[k]];
    }
  }

  /** A relevant row has a place among the relevant positions. */
  lemma {:induction false} RelevantPosition(rows: seq<TimelineRow>, todayKey: string, j: int) returns (m: int)
    requires 0 <= j < |rows| && Relevant(rows[j], todayKey)
    ensures 0 <= m < |RelevantIndices(rows, todayKey)| && RelevantIndices(rows, todayKey)[m] == j
    decreases |rows|
  {
    var init := rows[..|rows| - 1];
    if j == |rows| - 1 {
      m := |RelevantIndices(init, todayKey)|;
    } else {
      assert init[j] == rows[j];
      m := RelevantPosition(init, todayKey, j);
    }
  }

  /** The facts `RowKeys` states about row `j`. */
  lemma RowKeysAt(rows: seq<TimelineRow>, start: Date, ledger: Ledger, j: int)
    requires RowKeys(rows, start, ledger)
    requires 0 <= j < |rows|
    ensures DayNumber(rows[j].date) == DayNumber(start) + j
    ensures rows[j].dateKey == FormatDateKey(rows[j].date)
    ensures rows[j].entries == EntriesOn(ledger.entries, rows[j].date)
    ensures rows[j].isMonthEnd == (rows[j].date.day == DaysInMonth(rows[j].date.year, rows[j].date.month))
    ensures KeyedRow(rows[j], ledger)
  {
  }

  /**
   * The facts a day row carries that the filter depends on: its key, its
   * entries and its month-end flag.
   */
  predicate KeyedRow(row: TimelineRow, ledger: Ledger)
  {
    && row.dateKey == FormatDateKey(row.date)
    && row.entries == EntriesOn(ledger.entries, row.date)
    && row.isMonthEnd == (row.date.day == DaysInMonth(row.date.year, row.date.month))
  }

  /** A relevant day row, rewritten by the filter, is a shown row of a kept day. */
  lemma MarkedDayRow(row: TimelineRow, marked: TimelineRow, ledger: Ledger, previous: Option<Date>)
    requires KeyedRow(row, ledger)
    requires Relevant(row, FormatDateKey(ledger.today))
    requires marked == Marked(row, FormatDateKey(ledger.today), ledger.showBalanceIndicator, previous)
    ensures marked.date == row.date && KeptDay(ledger, row.date)
    ensures marked.entries == EntriesOn(ledger.entries, row.date)
    ensures marked.isToday == (row.date == ledger.today)
    ensures marked.showBalanceIndicator == (ledger.showBalanceIndicator && (|marked.entries| > 0 || marked.isToday))
    ensures !marked.showMonthHeader
  {
    KeyInjective(row.date, ledger.today);
  }

  /** The `k`-th kept row is the rewritten row at the `k`-th position, measured from the kept row before it. */
  lemma KeptRowAt(filtered: seq<TimelineRow>, rows: seq<TimelineRow>, idx: seq<int>, todayKey: string,
                  showIndicator: bool, k: int)
    requires KeptRows(filtered, rows, idx, todayKey, showIndicator)
    requires 0 <= k < |filtered|
    ensures 0 <= idx[k] < |rows|
    ensures filtered[k] == Marked(rows[idx[k]], todayKey, showIndicator, if k == 0 then None else Some(filtered[k - 1].date))
  {
    if k > 0 {
      assert filtered[k - 1] == MarkedAt(rows, idx, k - 1, todayKey, showIndicator);
    }
    assert filtered[k] == MarkedAt(rows, idx, k, todayKey, showIndicator);
  }

  /** The kept row at position `k` is the day row at its relevant position, rewritten. */
  lemma FilteredRow(rows: seq<TimelineRow>, filtered: seq<TimelineRow>, ledger: Ledger, k: int)
    requires KeptRows(filtered, rows, RelevantIndices(rows, FormatDateKey(ledger.today)),
                      FormatDateKey(ledger.today), ledger.showBalanceIndicator)
    requires 0 <= k < |filtered|
    requires KeyedRow(rows[RelevantIndices(rows, FormatDateKey(ledger.today))[k]], ledger)
    ensures var idx := RelevantIndices(rows, FormatDateKey(ledger.today));
      && filtered[k].date == rows[idx[k]].date
      && KeptDay(ledger, filtered[k].date)
      && ShownRow(filtered[k], ledger)
  {
    var key := FormatDateKey(ledger.today);
    var idx := RelevantIndices(rows, key);
    RelevantIndexAt(rows, key, k);
    KeptRowAt(filtered, rows, idx, key, ledger.showBalanceIndicator, k);
    MarkedDayRow(rows[idx[k]], filtered[k], ledger, if k == 0 then None else Some(filtered[k - 1].date));
  }

  /** The kept rows count the positions skipped between them. */
  lemma FilteredGaps(filtered: seq<TimelineRow>, rows: seq<TimelineRow>, idx: seq<int>, todayKey: string,
                     showIndicator: bool)
    requires KeptRows(filtered, rows, idx, todayKey, showIndicator)
    ensures GapsCounted(filtered)
  {
    forall k | 0 <= k < |filtered|
      ensures filtered[k].daysSkipped == if k == 0 then 0 else DayNumber(filtered[k].date) - DayNumber(filtered[k - 1].date) - 1
    {
      KeptRowAt(filtered, rows, idx, todayKey, showIndicator, k);
    }
  }

  /** A day of the range that the timeline should show has a kept row. */
  lemma KeptDayShown(rows: seq<TimelineRow>, filtered: seq<TimelineRow>, ledger: Ledger, d: Date, j: int)
    requires KeptRows(filtered, rows, RelevantIndices(rows, FormatDateKey(ledger.today)),
                      FormatDateKey(ledger.today), ledger.showBalanceIndicator)
    requires 0 <= j < |rows| && DayNumber(rows[j].date) == DayNumber(d) && KeyedRow(rows[j], ledger)
    requires KeptDay(ledger, d)
    ensures Shows(filtered, d)
  {
    DayNumberInjective(rows[j].date, d);
    var key := FormatDateKey(ledger.today);
    var idx := RelevantIndices(rows, key);
    KeyInjective(d, ledger.today);
    var m := RelevantPosition(rows, key, j);
    KeptRowAt(filtered, rows, idx, key, ledger.showBalanceIndicator, m);
    assert filtered[m].date == d;
  }

  /** Every kept row is the rewritten row of a day the timeline shows, at its relevant position. */
  lemma KeptRowsShown(rows: seq<TimelineRow>, filtered: seq<TimelineRow>, start: Date, ledger: Ledger)
    requires RowKeys(rows, start, ledger)
    requires KeptRows(filtered, rows, RelevantIndices(rows, FormatDateKey(ledger.today)),
                      FormatDateKey(ledger.today), ledger.showBalanceIndicator)
    ensures forall k :: 0 <= k < |filtered| ==>
      && DayNumber(filtered[k].date) == DayNumber(start) + RelevantIndices(rows, FormatDateKey(ledger.today))[k]
      && KeptDay(ledger, filtered[k].date)
      && ShownRow(filtered[k], ledger)
  {
    var idx := RelevantIndices(rows, FormatDateKey(ledger.today));
    forall k | 0 <= k < |filtered|
      ensures DayNumber(filtered[k].date) == DayNumber(start) + idx[k]
      ensures KeptDay(ledger, filtered[k].date)
      ensures ShownRow(filtered[k], ledger)
    {
      KeptRowAt(filtered, rows, idx, FormatDateKey(ledger.today), ledger.showBalanceIndicator, k);
      RowKeysAt(rows, start, ledger, idx[k]);
      FilteredRow(rows, filtered, ledger, k);
    }
  }

  lemma KeptDayInRange(rows: seq<TimelineRow>, filtered: seq<TimelineRow>, start: Date, ledger: Ledger, d: Date)
    requires RowKeys(rows, start, ledger)
    requires KeptRows(filtered, rows, RelevantIndices(rows, FormatDateKey(ledger.today)),
                      FormatDateKey(ledger.today), ledger.showBalanceIndicator)
    requires DayNumber(start) <= DayNumber(d) < DayNumber(start) + |rows| && KeptDay(ledger, d)
    ensures Shows(filtered, d)
  {
    var j := DayNumber(d) - DayNumber(start);
    RowKeysAt(rows, start, ledger, j);
    KeptDayShown(rows, filtered, ledger, d, j);
  }

  /** Every day of the range that the timeline should show has a kept row. */
  lemma KeptDaysShown(rows: seq<TimelineRow>, filtered: seq<TimelineRow>, start: Date, ledger: Ledger)
    requires RowKeys(rows, start, ledger)
    requires KeptRows(filtered, rows, RelevantIndices(rows, FormatDateKey(ledger.today)),
                      FormatDateKey(ledger.today), ledger.showBalanceIndicator)
    ensures forall d: Date :: DayNumber(start) <= DayNumber(d) < DayNumber(start) + |rows| && KeptDay(ledger, d) ==>
      Shows(filtered, d)
  {
    forall d: Date | DayNumber(start) <= DayNumber(d) < DayNumber(start) + |rows| && KeptDay(ledger, d)
      ensures Shows(filtered, d)
    {
      KeptDayInRange(rows, filtered, start, ledger, d);
    }
  }

  /** The properties of the timeline, from those of its day rows and of the filter. */
  lemma TimelineFromRows(rows: seq<TimelineRow>, filtered: seq<TimelineRow>, start: Date, ledger: Ledger)
    requires RowKeys(rows, start, ledger)
    requires forall i :: 0 <= i < |rows| ==> DayFields(rows[i], start, ledger)
    requires KeptRows(filtered, rows, RelevantIndices(rows, FormatDateKey(ledger.today)),
                      FormatDateKey(ledger.today), ledger.showBalanceIndicator)
    ensures forall k :: 0 <= k < |filtered| ==>
      DayNumber(start) <= DayNumber(filtered[k].date) < DayNumber(start) + |rows|
    ensures forall k, l :: 0 <= k < l < |filtered| ==> DayNumber(filtered[k].date) < DayNumber(filtered[l].date)
    ensures forall d: Date :: DayNumber(start) <= DayNumber(d) < DayNumber(start) + |rows| ==>
      (Shows(filtered, d) <==> KeptDay(ledger, d))
    ensures forall k :: 0 <= k < |filtered| ==> ShownRow(filtered[k], ledger)
    ensures forall k :: 0 <= k < |filtered| ==> DayFields(filtered[k], start, ledger)
    ensures GapsCounted(filtered)
  {
    var idx := RelevantIndices(rows, FormatDateKey(ledger.today));
    RelevantIndicesMeaning(rows, FormatDateKey(ledger.today));
    KeptRowsShown(rows, filtered, start, ledger);
    KeptDaysShown(rows, filtered, start, ledger);
    FilteredGaps(filtered, rows, idx, FormatDateKey(ledger.today), ledger.showBalanceIndicator);
    KeptRowsCarryDayFields(rows, filtered, idx, FormatDateKey(ledger.today), ledger.showBalanceIndicator, start, ledger);
  }
}
