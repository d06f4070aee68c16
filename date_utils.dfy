/**
 * Expanding an entry's repeat rule into calendar days (`generateOccurrences`),
 * the next occurrence after a day (`getNextOccurrence`), month lengths
 * (`getDaysInMonth`) and the conversions between stored UTC instants and
 * local calendar days (`fromUTC`, `toUTC`).
 *
 * A window `[windowStart, windowEnd]` is a pair of calendar days: the callers
 * pass the local midnight of the first day and a time within the last day.
 */
module DateUtils {
  import opened Wrappers
  import opened Calendar
  import opened Timestamps
  import opened EntryModel

  function Min(a: int, b: int): int
  {
    if a <= b then a else b
  }

  /** `fromUTC`: the local midnight carrying the UTC year, month and day of `i`. */
  function FromUtc(i: Instant): Date
  {
    i.utcDate
  }

  /** `toUTC`: the UTC midnight carrying the local year, month and day of `d`. */
  function ToUtc(d: Date): Instant
  {
    Instant(d, 0)
  }

  /** `fromUTC(toUTC(d))` is `d`; `toUTC(fromUTC(i))` keeps the calendar day of `i` and drops its time. */
  lemma UtcRoundTrip(d: Date, i: Instant)
    ensures FromUtc(ToUtc(d)) == d
    ensures ToUtc(FromUtc(i)).utcDate == i.utcDate && ToUtc(FromUtc(i)).msOfDay == 0
    ensures i.msOfDay == 0 ==> ToUtc(FromUtc(i)) == i
  {
  }

  /** `getDaysInMonth`: day 0 of the next month, i.e. the last day of this one. */
  function DaysInMonthOf(d: Date): (n: int)
    ensures n == DaysInMonth(d.year, d.month)
    ensures 28 <= n <= 31
    ensures d.month == 2 ==> (n == 29 <==> IsLeapYear(d.year))
  {
    LastDayOfMonth(d);
    SetDate(FirstOfNextMonth(d), 0).day
  }

  // ---------------------------------------------------------------------------
  // Reference definitions of the generator loops

  /** The local day on which `e` was created. */
  function CreatedDay(e: Entry): Date
  {
    FromUtc(e.createdAt)
  }

  /** The window start, raised to the creation day for recurring entries. */
  function EffectiveStart(e: Entry, windowStart: Date): Date
  {
    if e.repeatType == Once then windowStart
    else if DayNumber(windowStart) >= DayNumber(CreatedDay(e)) then windowStart
    else CreatedDay(e)
  }

  function IntervalDays(r: RepeatType): int
  {
    if r == Weekly then 7 else 14
  }

  /** From the month starting at `month` on: each month's clamped day that lies in `[from, to]`. */
  function MonthlyFrom(month: Date, dom: DayOfMonth, from: Date, to: Date): seq<Date>
    requires month.day == 1
    decreases DayNumber(to) - DayNumber(month)
  {
    if DayNumber(month) > DayNumber(to) then []
    else
      var occurrence := YMD(month.year, month.month, Min(dom, DaysInMonth(month.year, month.month)));
      FirstOfNextMonthNumber(month);
      (if DayNumber(from) <= DayNumber(occurrence) <= DayNumber(to) then [occurrence] else [])
      + MonthlyFrom(FirstOfNextMonth(month), dom, from, to)
  }

  /** `current` advanced by steps of `interval` days until it is no earlier than day number `bound`. */
  function SkipTo(current: Date, interval: int, bound: int): Date
    requires interval > 0
    decreases bound - DayNumber(current)
  {
    if DayNumber(current) < bound then
      AddDaysNumber(current, interval);
      SkipTo(AddDays(current, interval), interval, bound)
    else current
  }

  /** `current`, `current + interval`, ... up to and including `to`. */
  function StepThrough(current: Date, interval: int, to: Date): seq<Date>
    requires interval > 0
    decreases DayNumber(to) - DayNumber(current)
  {
    if DayNumber(current) > DayNumber(to) then []
    else
      AddDaysNumber(current, interval);
      [current] + StepThrough(AddDays(current, interval), interval, to)
  }

  /** What `generateOccurrences(e, windowStart, windowEnd)` returns. */
  function Occurrences(e: Entry, windowStart: Date, windowEnd: Date): seq<Date>
  {
    var from := EffectiveStart(e, windowStart);
    match e.repeatType
    case Once =>
      if e.specificDate.None? then []
      else
        var d := FromUtc(e.specificDate.value);
        if DayNumber(windowStart) <= DayNumber(d) <= DayNumber(windowEnd) then [d] else []
    case Monthly =>
      if e.dayOfMonth.None? then []
      else MonthlyFrom(FirstOfMonth(from), e.dayOfMonth.value, from, windowEnd)
    case _ =>
      if e.startDate.None? then []
      else
        var interval := IntervalDays(e.repeatType);
        StepThrough(SkipTo(FromUtc(e.startDate.value), interval, DayNumber(from)), interval, windowEnd)
  }

  // ---------------------------------------------------------------------------
  // The rule, stated declaratively

  /** Day number `x` is `base + k * interval` for some `k >= 0`: `base` itself, or on the grid that starts one step later. */
  predicate OnGrid(x: int, base: int, interval: int)
    requires interval == 7 || interval == 14
    decreases x - base
  {
    x == base || (x > base && OnGrid(x, base + interval, interval))
  }

  /** `d` is a day of `e`'s rule, whatever the window. */
  predicate OccursOn(e: Entry, d: Date)
  {
    match e.repeatType
    case Once =>
      e.specificDate.Some? && FromUtc(e.specificDate.value) == d
    case Monthly =>
      && e.dayOfMonth.Some?
      && DayNumber(CreatedDay(e)) <= DayNumber(d)
      && d.day == Min(e.dayOfMonth.value, DaysInMonth(d.year, d.month))
    case _ =>
      && e.startDate.Some?
      && DayNumber(CreatedDay(e)) <= DayNumber(d)
      && OnGrid(DayNumber(d), DayNumber(FromUtc(e.startDate.value)), IntervalDays(e.repeatType))
  }

  predicate StrictlyAscending(s: seq<Date>)
  {
    forall i, j :: 0 <= i < j < |s| ==> DayNumber(s[i]) < DayNumber(s[j])
  }

  // ---------------------------------------------------------------------------
  // Grid arithmetic for steps of 7 or 14 days

  /** Past its base, a grid continues as the grid one step later. */
  lemma GridUnfold(x: int, base: int, interval: int)
    requires interval == 7 || interval == 14
    requires x > base
    ensures OnGrid(x, base, interval) <==> OnGrid(x, base + interval, interval)
  {
  }

  lemma GridLower(x: int, base: int, interval: int)
    requires interval == 7 || interval == 14
    requires OnGrid(x, base, interval)
    ensures x >= base
  {
  }

  lemma {:induction false} GridTrans(x: int, r: int, base: int, interval: int)
    requires interval == 7 || interval == 14
    requires OnGrid(r, base, interval) && x >= r
    ensures OnGrid(x, base, interval) <==> OnGrid(x, r, interval)
    decreases r - base
  {
    if r != base {
      GridTrans(x, r, base + interval, interval);
    }
  }

  /** A grid is the multiples of its step from its base. */
  lemma {:induction false} GridMultiple(x: int, base: int, interval: int)
    requires interval == 7 || interval == 14
    ensures OnGrid(x, base, interval) <==> x >= base && (x - base) % interval == 0
    decreases if x >= base then x - base else 0
  {
    if x > base {
      GridMultiple(x, base + interval, interval);
      if x < base + interval {
        assert 0 < x - base < interval;
      } else {
        assert (x - base) % interval == (x - (base + interval)) % interval by {
          ModShift(x - (base + interval), 1, interval);
        }
      }
    }
  }

  /** A step of 7 or 14 days keeps the day of the week. */
  lemma {:induction false} GridWeekday(x: int, base: int, interval: int)
    requires interval == 7 || interval == 14
    requires OnGrid(x, base, interval)
    ensures WeekdayOfNumber(x) == WeekdayOfNumber(base)
    decreases x - base
  {
    if x != base {
      GridWeekday(x, base + interval, interval);
      ModShift(base + 4, interval / 7, 7);
      assert base + interval + 4 == (base + 4) + 7 * (interval / 7);
    }
  }

  /** Adding whole intervals does not change the remainder. */
  lemma ModShift(y: int, q: int, n: int)
    requires n == 7 || n == 14
    ensures (y + n * q) % n == y % n
  {
    if n == 7 {
      assert (y + 7 * q) % 7 == y % 7;
    } else {
      assert (y + 14 * q) % 14 == y % 14;
    }
  }

  // ---------------------------------------------------------------------------
  // Properties of the reference definitions

  /** The day of its month on which a monthly rule for day `dom` falls. */
  predicate MonthlyDay(d: Date, dom: DayOfMonth)
  {
    d.day == Min(dom, DaysInMonth(d.year, d.month))
  }

  lemma AscendingPrepend(x: Date, s: seq<Date>)
    requires StrictlyAscending(s)
    requires forall y :: y in s ==> DayNumber(x) < DayNumber(y)
    ensures StrictlyAscending([x] + s)
  {
    forall i, j | 0 <= i < j < |[x] + s|
      ensures DayNumber(([x] + s)[i]) < DayNumber(([x] + s)[j])
    {
      if i == 0 {
        assert ([x] + s)[j] in s;
      } else {
        assert ([x] + s)[i] == s[i - 1] && ([x] + s)[j] == s[j - 1];
      }
    }
  }

  lemma {:induction false} MonthlyFromLower(month: Date, dom: DayOfMonth, from: Date, to: Date)
    requires month.day == 1
    ensures forall y :: y in MonthlyFrom(month, dom, from, to) ==> DayNumber(month) <= DayNumber(y)
    decreases DayNumber(to) - DayNumber(month)
  {
    if DayNumber(month) <= DayNumber(to) {
      FirstOfNextMonthNumber(month);
      MonthlyFromLower(FirstOfNextMonth(month), dom, from, to);
    }
  }

  lemma {:induction false} MonthlyFromMember(month: Date, dom: DayOfMonth, from: Date, to: Date, d: Date)
    requires month.day == 1
    ensures d in MonthlyFrom(month, dom, from, to) <==>
      && DayNumber(month) <= DayNumber(d)
      && DayNumber(from) <= DayNumber(d) <= DayNumber(to)
      && MonthlyDay(d, dom)
    decreases DayNumber(to) - DayNumber(month)
  {
    if DayNumber(month) <= DayNumber(to) {
      var next := FirstOfNextMonth(month);
      FirstOfNextMonthNumber(month);
      MonthlyFromMember(next, dom, from, to, d);
      MonthlyFromLower(next, dom, from, to);
      if (d.year != month.year || d.month != month.month) && DayNumber(month) <= DayNumber(d) {
        LaterMonth(month, d);
      }
    }
  }

  lemma {:induction false} MonthlyFromAscending(month: Date, dom: DayOfMonth, from: Date, to: Date)
    requires month.day == 1
    ensures StrictlyAscending(MonthlyFrom(month, dom, from, to))
    decreases DayNumber(to) - DayNumber(month)
  {
    if DayNumber(month) <= DayNumber(to) {
      var next := FirstOfNextMonth(month);
      FirstOfNextMonthNumber(month);
      MonthlyFromAscending(next, dom, from, to);
      MonthlyFromLower(next, dom, from, to);
      var occurrence := YMD(month.year, month.month, Min(dom, DaysInMonth(month.year, month.month)));
      if DayNumber(from) <= DayNumber(occurrence) <= DayNumber(to) {
        AscendingPrepend(occurrence, MonthlyFrom(next, dom, from, to));
      }
    }
  }

  /** `SkipTo` on day numbers. */
  function SkipToNumber(c: int, interval: int, bound: int): int
    requires interval == 7 || interval == 14
    decreases bound - c
  {
    if c < bound then SkipToNumber(c + interval, interval, bound) else c
  }

  lemma {:induction false} SkipToByNumber(current: Date, interval: int, bound: int)
    requires interval == 7 || interval == 14
    ensures DayNumber(SkipTo(current, interval, bound)) == SkipToNumber(DayNumber(current), interval, bound)
    decreases bound - DayNumber(current)
  {
    SkipToUnfold(current, interval, bound);
    SkipToNumberUnfold(DayNumber(current), interval, bound);
    if DayNumber(current) < bound {
      var next := AddDays(current, interval);
      AddDaysNumber(current, interval);
      SkipToByNumber(next, interval, bound);
    }
  }

  lemma SkipToNumberUnfold(c: int, interval: int, bound: int)
    requires interval == 7 || interval == 14
    ensures c < bound ==> SkipToNumber(c, interval, bound) == SkipToNumber(c + interval, interval, bound)
    ensures c >= bound ==> SkipToNumber(c, interval, bound) == c
  {
  }

  /** `SkipTo` unfolded once. */
  lemma SkipToUnfold(current: Date, interval: int, bound: int)
    requires interval == 7 || interval == 14
    ensures DayNumber(current) < bound ==>
      SkipTo(current, interval, bound) == SkipTo(AddDays(current, interval), interval, bound)
    ensures DayNumber(current) >= bound ==> SkipTo(current, interval, bound) == current
  {
  }

  /** Skipping stops at the first number of the grid of `c` that is no smaller than `bound`. */
  lemma {:induction false} SkipToNumberLeast(c: int, interval: int, bound: int)
    requires interval == 7 || interval == 14
    ensures OnGrid(SkipToNumber(c, interval, bound), c, interval)
    ensures SkipToNumber(c, interval, bound) >= bound
    ensures forall x :: (OnGrid(x, c, interval) && x >= bound) ==> x >= SkipToNumber(c, interval, bound)
    decreases bound - c
  {
    if c < bound {
      var r := SkipToNumber(c + interval, interval, bound);
      SkipToNumberLeast(c + interval, interval, bound);
      GridLower(r, c + interval, interval);
      assert OnGrid(r, c, interval);
      forall x | OnGrid(x, c, interval) && x >= bound
        ensures x >= r
      {
        assert OnGrid(x, c + interval, interval);
      }
    } else {
      forall x | OnGrid(x, c, interval) && x >= bound
        ensures x >= c
      {
        GridLower(x, c, interval);
      }
    }
  }

  /** Skipping stops at the first day of the grid of `current` that is no earlier than `bound`. */
  lemma SkipToLeast(current: Date, interval: int, bound: int)
    requires interval == 7 || interval == 14
    ensures OnGrid(DayNumber(SkipTo(current, interval, bound)), DayNumber(current), interval)
    ensures DayNumber(SkipTo(current, interval, bound)) >= bound
    ensures forall x :: (OnGrid(x, DayNumber(current), interval) && x >= bound)
                          ==> x >= DayNumber(SkipTo(current, interval, bound))
  {
    SkipToByNumber(current, interval, bound);
    SkipToNumberLeast(DayNumber(current), interval, bound);
  }

  lemma {:induction false} StepThroughLower(current: Date, interval: int, to: Date)
    requires interval == 7 || interval == 14
    ensures forall y :: y in StepThrough(current, interval, to) ==> DayNumber(current) <= DayNumber(y)
    decreases DayNumber(to) - DayNumber(current)
  {
    if DayNumber(current) <= DayNumber(to) {
      AddDaysNumber(current, interval);
      StepThroughLower(AddDays(current, interval), interval, to);
    }
  }

  /** `StepThrough` unfolded once. */
  lemma StepThroughUnfold(current: Date, interval: int, to: Date)
    requires interval == 7 || interval == 14
    ensures DayNumber(current) <= DayNumber(to) ==>
      StepThrough(current, interval, to) == [current] + StepThrough(AddDays(current, interval), interval, to)
    ensures DayNumber(current) > DayNumber(to) ==> StepThrough(current, interval, to) == []
  {
  }

  lemma {:induction false} StepThroughMember(current: Date, interval: int, to: Date, d: Date)
    requires interval == 7 || interval == 14
    ensures d in StepThrough(current, interval, to) <==>
      OnGrid(DayNumber(d), DayNumber(current), interval) && DayNumber(d) <= DayNumber(to)
    decreases DayNumber(to) - DayNumber(current)
  {
    if DayNumber(d) <= DayNumber(current) || DayNumber(current) > DayNumber(to) {
      StepThroughMemberFirst(current, interval, to, d);
    } else {
      var next := AddDays(current, interval);
      AddDaysNumber(current, interval);
      StepThroughPastFirst(current, interval, to, d);
      StepThroughMember(next, interval, to, d);
      GridUnfold(DayNumber(d), DayNumber(current), interval);
    }
  }

  /** A day after the first step is a step exactly when it is a step from the second one. */
  lemma StepThroughPastFirst(current: Date, interval: int, to: Date, d: Date)
    requires interval == 7 || interval == 14
    requires DayNumber(current) < DayNumber(d) && DayNumber(current) <= DayNumber(to)
    ensures d in StepThrough(current, interval, to) <==> d in StepThrough(AddDays(current, interval), interval, to)
  {
    StepThroughUnfold(current, interval, to);
    DayNumberInjective(d, current);
  }

  /** Membership of a day no later than the first step, or in an empty window. */
  lemma StepThroughMemberFirst(current: Date, interval: int, to: Date, d: Date)
    requires interval == 7 || interval == 14
    requires DayNumber(d) <= DayNumber(current) || DayNumber(current) > DayNumber(to)
    ensures d in StepThrough(current, interval, to) <==>
      OnGrid(DayNumber(d), DayNumber(current), interval) && DayNumber(d) <= DayNumber(to)
  {
    var x, c := DayNumber(d), DayNumber(current);
    StepThroughUnfold(current, interval, to);
    if OnGrid(x, c, interval) {
      GridLower(x, c, interval);
    }
    if x == c {
      DayNumberInjective(d, current);
    } else if x < c {
      StepThroughLower(current, interval, to);
    }
  }

  /** The steps come in strictly ascending order, starting at `current`, each `interval` days after the one before. */
  lemma StepThroughShape(current: Date, interval: int, to: Date)
    requires interval == 7 || interval == 14
    ensures StrictlyAscending(StepThrough(current, interval, to))
    ensures |StepThrough(current, interval, to)| > 0 ==> StepThrough(current, interval, to)[0] == current
    ensures forall i :: 0 <= i < |StepThrough(current, interval, to)| - 1 ==>
      StepThrough(current, interval, to)[i + 1] == AddDays(StepThrough(current, interval, to)[i], interval)
  {
    StepThroughAscending(current, interval, to);
    StepThroughSteps(current, interval, to);
  }

  lemma {:induction false} StepThroughAscending(current: Date, interval: int, to: Date)
    requires interval == 7 || interval == 14
    ensures StrictlyAscending(StepThrough(current, interval, to))
    decreases DayNumber(to) - DayNumber(current)
  {
    if DayNumber(current) <= DayNumber(to) {
      var next := AddDays(current, interval);
      AddDaysNumber(current, interval);
      StepThroughUnfold(current, interval, to);
      StepThroughAscending(next, interval, to);
      StepThroughLower(next, interval, to);
      AscendingPrepend(current, StepThrough(next, interval, to));
    }
  }

  lemma {:induction false} StepThroughSteps(current: Date, interval: int, to: Date)
    requires interval == 7 || interval == 14
    ensures |StepThrough(current, interval, to)| > 0 ==> StepThrough(current, interval, to)[0] == current
    ensures forall i :: 0 <= i < |StepThrough(current, interval, to)| - 1 ==>
      StepThrough(current, interval, to)[i + 1] == AddDays(StepThrough(current, interval, to)[i], interval)
    decreases DayNumber(to) - DayNumber(current)
  {
    if DayNumber(current) <= DayNumber(to) {
      var next := AddDays(current, interval);
      AddDaysNumber(current, interval);
      StepThroughUnfold(current, interval, to);
      StepThroughSteps(next, interval, to);
      var rest := StepThrough(next, interval, to);
      var all := StepThrough(current, interval, to);
      assert all == [current] + rest;
      forall i | 0 <= i < |all| - 1
        ensures all[i + 1] == AddDays(all[i], interval)
      {
        assert all[i + 1] == rest[i];
        if i > 0 {
          assert all[i] == rest[i - 1];
        }
      }
    }
  }

  /**
   * The generator returns, in strictly ascending order, exactly the days of
   * the window on which the rule falls; for a recurring entry none of them
   * is before its creation day.
   */
  lemma OccurrencesCharacterized(e: Entry, windowStart: Date, windowEnd: Date)
    ensures StrictlyAscending(Occurrences(e, windowStart, windowEnd))
    ensures forall d: Date :: d in Occurrences(e, windowStart, windowEnd) <==>
      DayNumber(windowStart) <= DayNumber(d) <= DayNumber(windowEnd) && OccursOn(e, d)
  {
    var from := EffectiveStart(e, windowStart);
    match e.repeatType
    case Once =>
      if e.specificDate.Some? {
        forall d: Date | d in Occurrences(e, windowStart, windowEnd) || OccursOn(e, d)
          ensures d in Occurrences(e, windowStart, windowEnd) <==>
            DayNumber(windowStart) <= DayNumber(d) <= DayNumber(windowEnd) && OccursOn(e, d)
        {
        }
      }
    case Monthly =>
      if e.dayOfMonth.Some? {
        var dom := e.dayOfMonth.value;
        MonthlyFromAscending(FirstOfMonth(from), dom, from, windowEnd);
        forall d: Date
          ensures d in Occurrences(e, windowStart, windowEnd) <==>
            DayNumber(windowStart) <= DayNumber(d) <= DayNumber(windowEnd) && OccursOn(e, d)
        {
          MonthlyFromMember(FirstOfMonth(from), dom, from, windowEnd, d);
          if DayNumber(from) <= DayNumber(d) {
            DayNumberOrder(FirstOfMonth(from), from);
            DayNumberOrder(d, FirstOfMonth(from));
          }
        }
      }
    case Weekly =>
      if e.startDate.Some? {
        WeeklyCharacterized(e, windowStart, windowEnd);
      }
    case Biweekly =>
      if e.startDate.Some? {
        WeeklyCharacterized(e, windowStart, windowEnd);
      }
  }

  lemma WeeklyCharacterized(e: Entry, windowStart: Date, windowEnd: Date)
    requires e.repeatType == Weekly || e.repeatType == Biweekly
    requires e.startDate.Some?
    ensures StrictlyAscending(Occurrences(e, windowStart, windowEnd))
    ensures forall d: Date :: d in Occurrences(e, windowStart, windowEnd) <==>
      DayNumber(windowStart) <= DayNumber(d) <= DayNumber(windowEnd) && OccursOn(e, d)
  {
    var from := EffectiveStart(e, windowStart);
    var start := FromUtc(e.startDate.value);
    var interval := IntervalDays(e.repeatType);
    var first := SkipTo(start, interval, DayNumber(from));
    SkipToLeast(start, interval, DayNumber(from));
    StepThroughShape(first, interval, windowEnd);
    WeeklyOccurrences(e, windowStart, windowEnd);
    forall d: Date
      ensures d in StepThrough(first, interval, windowEnd) <==>
        DayNumber(windowStart) <= DayNumber(d) <= DayNumber(windowEnd) && OccursOn(e, d)
    {
      StepThroughMember(first, interval, windowEnd, d);
      if DayNumber(d) >= DayNumber(first) {
        GridTrans(DayNumber(d), DayNumber(first), DayNumber(start), interval);
      }
    }
  }

  // ---------------------------------------------------------------------------
  // The generator

  /** `generateOccurrences(entry, startDate, endDate)`. */
  method GenerateOccurrences(e: Entry, windowStart: Date, windowEnd: Date) returns (occurrences: seq<Date>)
    ensures occurrences == Occurrences(e, windowStart, windowEnd)
    ensures StrictlyAscending(occurrences)
    ensures forall d: Date :: d in occurrences <==>
      DayNumber(windowStart) <= DayNumber(d) <= DayNumber(windowEnd) && OccursOn(e, d)
  {
    var effectiveStart := windowStart;
    if e.repeatType != Once {
      var createdAt := FromUtc(e.createdAt);
      effectiveStart := if DayNumber(windowStart) >= DayNumber(createdAt) then windowStart else createdAt;
    }
    assert effectiveStart == EffectiveStart(e, windowStart);

    occurrences := [];
    if e.repeatType == Once {
      if e.specificDate.Some? {
        var specificDate := FromUtc(e.specificDate.value);
        if DayNumber(specificDate) >= DayNumber(windowStart) && DayNumber(specificDate) <= DayNumber(windowEnd) {
          occurrences := occurrences + [specificDate];
        }
      }
      assert occurrences == Occurrences(e, windowStart, windowEnd);
    } else if e.repeatType == Monthly {
      if e.dayOfMonth.Some? {
        occurrences := MonthlyOccurrences(e.dayOfMonth.value, effectiveStart, windowEnd);
      }
      assert occurrences == Occurrences(e, windowStart, windowEnd);
    } else if e.repeatType == Weekly || e.repeatType == Biweekly {
      if e.startDate.Some? {
        var intervalDays := if e.repeatType == Weekly then 7 else 14;
        occurrences := StepOccurrences(FromUtc(e.startDate.value), intervalDays, effectiveStart, windowEnd);
      }
      assert occurrences == Occurrences(e, windowStart, windowEnd);
    }
    CharacterizedResult(e, windowStart, windowEnd, occurrences);
  }

  lemma CharacterizedResult(e: Entry, windowStart: Date, windowEnd: Date, occurrences: seq<Date>)
    requires occurrences == Occurrences(e, windowStart, windowEnd)
    ensures StrictlyAscending(occurrences)
    ensures forall d: Date :: d in occurrences <==>
      DayNumber(windowStart) <= DayNumber(d) <= DayNumber(windowEnd) && OccursOn(e, d)
  {
    OccurrencesCharacterized(e, windowStart, windowEnd);
  }

  /** One pass of the monthly loop: this month's clamped day, if in the window, then the months from the next one. */
  lemma MonthlyStep(currentDate: Date, dom: DayOfMonth, effectiveStart: Date, windowEnd: Date)
    requires currentDate.day == 1
    requires DayNumber(currentDate) <= DayNumber(windowEnd)
    ensures SetMonthToNext(currentDate).day == 1
    ensures DayNumber(SetMonthToNext(currentDate)) > DayNumber(currentDate)
    ensures var occurrence := SetDate(currentDate, Min(dom, DaysInMonthOf(currentDate)));
      MonthlyFrom(currentDate, dom, effectiveStart, windowEnd)
      == (if DayNumber(effectiveStart) <= DayNumber(occurrence) <= DayNumber(windowEnd) then [occurrence] else [])
         + MonthlyFrom(SetMonthToNext(currentDate), dom, effectiveStart, windowEnd)
  {
    SetDateInMonth(currentDate, Min(dom, DaysInMonthOf(currentDate)));
    FirstOfNextMonthNumber(currentDate);
    assert SetMonthToNext(currentDate) == FirstOfNextMonth(currentDate);
  }

  /** The monthly branch of `generateOccurrences`: one clamped day per month, from the month of `effectiveStart` on. */
  method MonthlyOccurrences(dom: DayOfMonth, effectiveStart: Date, windowEnd: Date) returns (occurrences: seq<Date>)
    ensures occurrences == MonthlyFrom(FirstOfMonth(effectiveStart), dom, effectiveStart, windowEnd)
  {
    occurrences := [];
    var currentDate := SetDate(effectiveStart, 1);
    SetDateInMonth(effectiveStart, 1);
    ghost var all := MonthlyFrom(FirstOfMonth(effectiveStart), dom, effectiveStart, windowEnd);
    while DayNumber(currentDate) <= DayNumber(windowEnd)
      invariant currentDate.day == 1
      invariant occurrences + MonthlyFrom(currentDate, dom, effectiveStart, windowEnd) == all
      decreases DayNumber(windowEnd) - DayNumber(currentDate)
    {
      var occurrence := SetDate(currentDate, Min(dom, DaysInMonthOf(currentDate)));
      MonthlyStep(currentDate, dom, effectiveStart, windowEnd);
      ghost var rest := MonthlyFrom(SetMonthToNext(currentDate), dom, effectiveStart, windowEnd);
      if DayNumber(occurrence) >= DayNumber(effectiveStart) && DayNumber(occurrence) <= DayNumber(windowEnd) {
        assert MonthlyFrom(currentDate, dom, effectiveStart, windowEnd) == [occurrence] + rest;
        assert (occurrences + [occurrence]) + rest == occurrences + ([occurrence] + rest);
        occurrences := occurrences + [occurrence];
      } else {
        assert MonthlyFrom(currentDate, dom, effectiveStart, windowEnd) == [] + rest;
        assert [] + rest == rest;
      }
      currentDate := SetMonthToNext(currentDate);
    }
  }

  /** One pass of a skipping loop: `setDate(getDate() + interval)` on a day before the bound skips nothing. */
  lemma SkipStep(current: Date, interval: int, bound: int)
    requires interval > 0
    requires DayNumber(current) < bound
    ensures DayNumber(SetDate(current, current.day + interval)) == DayNumber(current) + interval
    ensures SkipTo(SetDate(current, current.day + interval), interval, bound) == SkipTo(current, interval, bound)
  {
    SetDateRelative(current, interval);
    AddDaysNumber(current, interval);
  }

  /** One pass of the collecting loop: the day is taken, then the walk goes on `interval` days later. */
  lemma StepThroughStep(current: Date, interval: int, to: Date)
    requires interval > 0
    requires DayNumber(current) <= DayNumber(to)
    ensures DayNumber(SetDate(current, current.day + interval)) == DayNumber(current) + interval
    ensures StepThrough(current, interval, to) == [current] + StepThrough(SetDate(current, current.day + interval), interval, to)
  {
    SetDateRelative(current, interval);
    AddDaysNumber(current, interval);
  }

  /** The weekly and biweekly branch of `generateOccurrences`: skip to `effectiveStart`, then step through the window. */
  method StepOccurrences(entryStartDate: Date, intervalDays: int, effectiveStart: Date, windowEnd: Date)
    returns (occurrences: seq<Date>)
    requires intervalDays > 0
    ensures occurrences == StepThrough(SkipTo(entryStartDate, intervalDays, DayNumber(effectiveStart)), intervalDays, windowEnd)
  {
    occurrences := [];
    var currentDate := entryStartDate;
    while DayNumber(currentDate) < DayNumber(effectiveStart)
      invariant SkipTo(currentDate, intervalDays, DayNumber(effectiveStart))
                == SkipTo(entryStartDate, intervalDays, DayNumber(effectiveStart))
      decreases DayNumber(effectiveStart) - DayNumber(currentDate)
    {
      SkipStep(currentDate, intervalDays, DayNumber(effectiveStart));
      currentDate := SetDate(currentDate, currentDate.day + intervalDays);
    }
    ghost var first := currentDate;
    while DayNumber(currentDate) <= DayNumber(windowEnd)
      invariant occurrences + StepThrough(currentDate, intervalDays, windowEnd)
                == StepThrough(first, intervalDays, windowEnd)
      decreases DayNumber(windowEnd) - DayNumber(currentDate)
    {
      occurrences := occurrences + [currentDate];
      StepThroughStep(currentDate, intervalDays, windowEnd);
      currentDate := SetDate(currentDate, currentDate.day + intervalDays);
    }
  }

  // ---------------------------------------------------------------------------
  // Consequences of the characterization

  /** A strictly ascending sequence spans at least one day per element after the first. */
  lemma {:induction false} AscendingSpan(s: seq<Date>)
    requires StrictlyAscending(s)
    requires |s| > 0
    ensures DayNumber(s[|s| - 1]) - DayNumber(s[0]) >= |s| - 1
    decreases |s|
  {
    if |s| > 1 {
      var t := s[1..];
      assert forall i, j :: 0 <= i < j < |t| ==> t[i] == s[i + 1] && t[j] == s[j + 1];
      AscendingSpan(t);
      assert t[|t| - 1] == s[|s| - 1] && t[0] == s[1];
    }
  }

  /** A one-day window holds that day exactly when the rule falls on it, and nothing else. */
  lemma SingleDayWindow(e: Entry, d: Date)
    ensures Occurrences(e, d, d) == if OccursOn(e, d) then [d] else []
  {
    OccurrencesCharacterized(e, d, d);
    var s := Occurrences(e, d, d);
    if |s| > 0 {
      AscendingSpan(s);
      assert s[0] in s && s[|s| - 1] in s;
      DayNumberInjective(s[0], d);
      assert s == [d];
    }
  }

  /** A monthly entry occurs at most once in any calendar month. */
  lemma MonthlyOncePerMonth(e: Entry, windowStart: Date, windowEnd: Date)
    requires e.repeatType == Monthly
    ensures forall i, j :: 0 <= i < |Occurrences(e, windowStart, windowEnd)|
                        && 0 <= j < |Occurrences(e, windowStart, windowEnd)|
                        && Occurrences(e, windowStart, windowEnd)[i].year == Occurrences(e, windowStart, windowEnd)[j].year
                        && Occurrences(e, windowStart, windowEnd)[i].month == Occurrences(e, windowStart, windowEnd)[j].month
                        ==> i == j
  {
    OccurrencesCharacterized(e, windowStart, windowEnd);
    var s := Occurrences(e, windowStart, windowEnd);
    forall i, j | 0 <= i < |s| && 0 <= j < |s| && s[i].year == s[j].year && s[i].month == s[j].month
      ensures i == j
    {
      assert s[i] in s && s[j] in s;
      assert s[i] == s[j];
    }
  }

  /** The weekly and biweekly branch of `Occurrences`: skip to the effective start, then step through the window. */
  lemma WeeklyOccurrences(e: Entry, windowStart: Date, windowEnd: Date)
    requires e.repeatType == Weekly || e.repeatType == Biweekly
    requires e.startDate.Some?
    ensures Occurrences(e, windowStart, windowEnd)
      == StepThrough(SkipTo(FromUtc(e.startDate.value), IntervalDays(e.repeatType), DayNumber(EffectiveStart(e, windowStart))),
                     IntervalDays(e.repeatType), windowEnd)
  {
  }

  /** Every step falls on the weekday of the first. */
  lemma StepThroughWeekday(current: Date, interval: int, to: Date)
    requires interval == 7 || interval == 14
    ensures forall d :: d in StepThrough(current, interval, to) ==> Weekday(d) == Weekday(current)
  {
    forall d | d in StepThrough(current, interval, to)
      ensures Weekday(d) == Weekday(current)
    {
      StepThroughMember(current, interval, to, d);
      GridWeekday(DayNumber(d), DayNumber(current), interval);
    }
  }

  /**
   * Weekly and biweekly occurrences come `interval` days apart, and the first
   * is the earliest step of the rule on or after the effective start.
   */
  lemma StepOccurrencesShape(e: Entry, windowStart: Date, windowEnd: Date)
    requires e.repeatType == Weekly || e.repeatType == Biweekly
    requires e.startDate.Some?
    ensures forall i :: 0 <= i < |Occurrences(e, windowStart, windowEnd)| - 1 ==>
      Occurrences(e, windowStart, windowEnd)[i + 1]
      == AddDays(Occurrences(e, windowStart, windowEnd)[i], IntervalDays(e.repeatType))
    ensures |Occurrences(e, windowStart, windowEnd)| > 0 ==>
      forall x :: (OnGrid(x, DayNumber(FromUtc(e.startDate.value)), IntervalDays(e.repeatType))
                   && x >= DayNumber(EffectiveStart(e, windowStart)))
                  ==> DayNumber(Occurrences(e, windowStart, windowEnd)[0]) <= x
  {
    var start := FromUtc(e.startDate.value);
    var interval := IntervalDays(e.repeatType);
    var first := SkipTo(start, interval, DayNumber(EffectiveStart(e, windowStart)));
    SkipToLeast(start, interval, DayNumber(EffectiveStart(e, windowStart)));
    StepThroughShape(first, interval, windowEnd);
    WeeklyOccurrences(e, windowStart, windowEnd);
  }

  /** Weekly and biweekly occurrences all fall on the weekday of the start date. */
  lemma StepOccurrencesWeekday(e: Entry, windowStart: Date, windowEnd: Date)
    requires e.repeatType == Weekly || e.repeatType == Biweekly
    requires e.startDate.Some?
    ensures forall d :: d in Occurrences(e, windowStart, windowEnd) ==>
      Weekday(d) == Weekday(FromUtc(e.startDate.value))
  {
    var start := FromUtc(e.startDate.value);
    var interval := IntervalDays(e.repeatType);
    var first := SkipTo(start, interval, DayNumber(EffectiveStart(e, windowStart)));
    SkipToLeast(start, interval, DayNumber(EffectiveStart(e, windowStart)));
    GridWeekday(DayNumber(first), DayNumber(start), interval);
    WeeklyOccurrences(e, windowStart, windowEnd);
    StepThroughWeekday(first, interval, windowEnd);
  }

  // ---------------------------------------------------------------------------
  // The next occurrence after a day

  /** The monthly branch of `getNextOccurrence`, as the code has it. */
  function NextMonthlyAsWritten(dom: DayOfMonth, from: Date): Date
  {
    var nextDate := SetDate(from, dom);
    if DayNumber(nextDate) <= DayNumber(from) then
      var moved := SetMonthToNext(nextDate);
      SetDate(moved, Min(dom, DaysInMonthOf(moved)))
    else nextDate
  }

  lemma SetMonthToNextAsSetDate(d: Date)
    ensures SetMonthToNext(d) == SetDate(FirstOfNextMonth(d), d.day)
  {
  }

  /**
   * What the monthly branch of `getNextOccurrence` returns, case by case: a
   * later day of this month when `dom` is one; day `dom - length` of the next
   * month when this month is shorter than `dom` (no clamping); otherwise `dom`
   * in the next month, or, when the next month is too short, the clamped day
   * of the month after it.
   */
  lemma NextMonthlyAsWrittenCases(dom: DayOfMonth, from: Date)
    ensures DayNumber(from) < DayNumber(NextMonthlyAsWritten(dom, from))
    ensures from.day < dom <= DaysInMonth(from.year, from.month) ==>
      NextMonthlyAsWritten(dom, from) == YMD(from.year, from.month, dom)
    ensures dom > DaysInMonth(from.year, from.month) ==>
      NextMonthlyAsWritten(dom, from)
      == YMD(FirstOfNextMonth(from).year, FirstOfNextMonth(from).month, dom - DaysInMonth(from.year, from.month))
    ensures dom <= from.day && dom <= DaysInMonth(FirstOfNextMonth(from).year, FirstOfNextMonth(from).month) ==>
      NextMonthlyAsWritten(dom, from) == YMD(FirstOfNextMonth(from).year, FirstOfNextMonth(from).month, dom)
    ensures dom <= from.day && dom > DaysInMonth(FirstOfNextMonth(from).year, FirstOfNextMonth(from).month) ==>
      var after := FirstOfNextMonth(FirstOfNextMonth(from));
      NextMonthlyAsWritten(dom, from) == YMD(after.year, after.month, Min(dom, DaysInMonth(after.year, after.month)))
  {
    var next := FirstOfNextMonth(from);
    FirstOfNextMonthNumber(from);
    DayNumberOrder(FirstOfMonth(from), from);
    if dom <= DaysInMonth(from.year, from.month) {
      SetDateInMonth(from, dom);
      var nextDate := YMD(from.year, from.month, dom);
      if dom <= from.day {
        SetMonthToNextAsSetDate(nextDate);
        if dom <= DaysInMonth(next.year, next.month) {
          SetDateInMonth(next, dom);
          SetDateInMonth(YMD(next.year, next.month, dom), dom);
        } else {
          SetDateOverflow(next, dom);
          var moved := SetDate(next, dom);
          var after := FirstOfNextMonth(next);
          SetDateInMonth(moved, Min(dom, DaysInMonth(after.year, after.month)));
          FirstOfNextMonthNumber(next);
          DayNumberOrder(next, YMD(after.year, after.month, Min(dom, DaysInMonth(after.year, after.month))));
        }
      }
    } else {
      SetDateOverflow(from, dom);
    }
  }

  /** The intended monthly rule: the next day after `from` whose day of month is `dom`, clamped to each month's length. */
  function NextMonthly(dom: DayOfMonth, from: Date): Date
  {
    var here := YMD(from.year, from.month, Min(dom, DaysInMonth(from.year, from.month)));
    if from.day < here.day then here
    else
      var next := FirstOfNextMonth(from);
      YMD(next.year, next.month, Min(dom, DaysInMonth(next.year, next.month)))
  }

  /** `NextMonthly` is the earliest day after `from` on which a monthly entry for day `dom` occurs. */
  lemma NextMonthlyIsLeast(dom: DayOfMonth, from: Date)
    ensures DayNumber(from) < DayNumber(NextMonthly(dom, from))
    ensures MonthlyDay(NextMonthly(dom, from), dom)
    ensures forall d: Date :: DayNumber(from) < DayNumber(d) && MonthlyDay(d, dom) ==>
      DayNumber(NextMonthly(dom, from)) <= DayNumber(d)
  {
    var r := NextMonthly(dom, from);
    var first := FirstOfMonth(from);
    var next := FirstOfNextMonth(from);
    FirstOfNextMonthNumber(from);
    FirstOfNextMonthNumber(next);
    DayNumberOrder(first, from);
    forall d: Date | DayNumber(from) < DayNumber(d) && MonthlyDay(d, dom)
      ensures DayNumber(r) <= DayNumber(d)
    {
      DayNumberOrder(d, from);
      if d.year != from.year || d.month != from.month {
        LaterMonth(first, d);
        if d.year != next.year || d.month != next.month {
          LaterMonth(next, d);
        }
      }
    }
  }

  /** In a leap year (2024, say), from January 31 a monthly entry for day 31 is next due on February 29; the code skips February. */
  lemma NextMonthlySkipsShortMonth(year: int)
    requires IsLeapYear(year)
    ensures NextMonthlyAsWritten(31, YMD(year, 1, 31)) == YMD(year, 3, 31)
    ensures NextMonthly(31, YMD(year, 1, 31)) == YMD(year, 2, 29)
  {
    NextMonthlyAsWrittenCases(31, YMD(year, 1, 31));
  }

  /** In a leap year (2024, say), from February 10 a monthly entry for day 31 is next due on February 29; the code rolls over to March 2. */
  lemma NextMonthlyRollsOver(year: int)
    requires IsLeapYear(year)
    ensures NextMonthlyAsWritten(31, YMD(year, 2, 10)) == YMD(year, 3, 2)
    ensures NextMonthly(31, YMD(year, 2, 10)) == YMD(year, 2, 29)
  {
    NextMonthlyAsWrittenCases(31, YMD(year, 2, 10));
  }

  /** `getNextOccurrence(entry, fromDate)`. */
  method NextOccurrence(e: Entry, from: Date) returns (next: Date)
    ensures e.repeatType == Once ==>
      next == if e.specificDate.Some? then FromUtc(e.specificDate.value) else from
    ensures e.repeatType == Monthly ==>
      next == if e.dayOfMonth.Some? then NextMonthlyAsWritten(e.dayOfMonth.value, from) else from
    ensures e.repeatType == Monthly && e.dayOfMonth.Some? ==> DayNumber(from) < DayNumber(next)
    ensures (e.repeatType == Weekly || e.repeatType == Biweekly) && e.startDate.None? ==> next == from
    ensures (e.repeatType == Weekly || e.repeatType == Biweekly) && e.startDate.Some? ==>
      && OnGrid(DayNumber(next), DayNumber(FromUtc(e.startDate.value)), IntervalDays(e.repeatType))
      && DayNumber(from) < DayNumber(next)
      && forall x :: (OnGrid(x, DayNumber(FromUtc(e.startDate.value)), IntervalDays(e.repeatType))
                      && DayNumber(from) < x) ==> DayNumber(next) <= x
  {
    if e.repeatType == Once {
      if e.specificDate.None? {
        return from;
      }
      return FromUtc(e.specificDate.value);
    } else if e.repeatType == Monthly {
      if e.dayOfMonth.None? {
        return from;
      }
      next := MonthlyNext(e.dayOfMonth.value, from);
      return next;
    } else {
      if e.startDate.None? {
        return from;
      }
      var entryStartDate := FromUtc(e.startDate.value);
      var intervalDays := if e.repeatType == Weekly then 7 else 14;
      next := StepPast(entryStartDate, intervalDays, from);
      return next;
    }
  }

  /** The monthly branch of `getNextOccurrence`: the day in this month, or else in the month after. */
  method MonthlyNext(dom: DayOfMonth, from: Date) returns (next: Date)
    ensures next == NextMonthlyAsWritten(dom, from)
    ensures DayNumber(from) < DayNumber(next)
  {
    next := SetDate(from, dom);
    if DayNumber(next) <= DayNumber(from) {
      next := SetMonthToNext(next);
      next := SetDate(next, Min(dom, DaysInMonthOf(next)));
    }
    NextMonthlyAsWrittenCases(dom, from);
  }

  /** The weekly and biweekly branch of `getNextOccurrence`: step from the start date until past `from`. */
  method StepPast(entryStartDate: Date, intervalDays: int, from: Date) returns (next: Date)
    requires intervalDays == 7 || intervalDays == 14
    ensures next == SkipTo(entryStartDate, intervalDays, DayNumber(from) + 1)
    ensures OnGrid(DayNumber(next), DayNumber(entryStartDate), intervalDays)
    ensures DayNumber(from) < DayNumber(next)
    ensures forall x :: (OnGrid(x, DayNumber(entryStartDate), intervalDays) && DayNumber(from) < x)
                        ==> DayNumber(next) <= x
  {
    next := entryStartDate;
    while DayNumber(next) <= DayNumber(from)
      invariant SkipTo(next, intervalDays, DayNumber(from) + 1)
                == SkipTo(entryStartDate, intervalDays, DayNumber(from) + 1)
      decreases DayNumber(from) - DayNumber(next)
    {
      SkipStep(next, intervalDays, DayNumber(from) + 1);
      next := SetDate(next, next.day + intervalDays);
    }
    SkipToLeast(entryStartDate, intervalDays, DayNumber(from) + 1);
  }
}
