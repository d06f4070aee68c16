/**
 * Proleptic Gregorian calendar days, and the parts of the JavaScript `Date`
 * object that the application relies on, stated on calendar days.
 *
 * A local `Date` at midnight is modelled by its calendar day `YMD(year, month,
 * day)` with `month` in 1..12 (JavaScript's `getMonth() + 1`). Two such dates
 * compare as their timestamps do, that is by their day number: the number of
 * days since 1970-01-01.
 */
module Calendar {

  datatype YMD = YMD(year: int, month: int, day: int)

  /** The Gregorian leap-year rule. */
  predicate IsLeapYear(y: int)
  {
    y % 4 == 0 && (y % 100 != 0 || y % 400 == 0)
  }

  /** The length of month `m` of year `y`. */
  function DaysInMonth(y: int, m: int): (n: int)
    requires 1 <= m <= 12
    ensures 28 <= n <= 31
    ensures m == 2 ==> (n == 29 <==> IsLeapYear(y))
  {
    if m == 2 then (if IsLeapYear(y) then 29 else 28)
    else if m == 4 || m == 6 || m == 9 || m == 11 then 30
    else 31
  }

  predicate ValidYMD(d: YMD)
  {
    1 <= d.month <= 12 && 1 <= d.day <= DaysInMonth(d.year, d.month)
  }

  /** A calendar day that exists. */
  type Date = d: YMD | ValidYMD(d) witness YMD(1970, 1, 1)

  /** Days of year `y` before the first of month `m`. */
  function DaysBeforeMonth(y: int, m: int): int
    requires 1 <= m <= 12
  {
    var common :=
      if m == 1 then 0 else if m == 2 then 31 else if m == 3 then 59
      else if m == 4 then 90 else if m == 5 then 120 else if m == 6 then 151
      else if m == 7 then 181 else if m == 8 then 212 else if m == 9 then 243
      else if m == 10 then 273 else if m == 11 then 304 else 334;
    common + (if m > 2 && IsLeapYear(y) then 1 else 0)
  }

  /** Days from 1970-01-01 to the first of January of year `y` (negative before 1970). */
  function DaysBeforeYear(y: int): int
    decreases if y >= 1970 then y - 1970 else 1970 - y
  {
    if y == 1970 then 0
    else if y > 1970 then DaysBeforeYear(y - 1) + DaysInYear(y - 1)
    else DaysBeforeYear(y + 1) - DaysInYear(y)
  }

  function DaysInYear(y: int): int
  {
    if IsLeapYear(y) then 366 else 365
  }

  /** Days since 1970-01-01: the quantity by which JavaScript orders two local midnights. */
  function DayNumber(d: Date): int
  {
    DaysBeforeYear(d.year) + DaysBeforeMonth(d.year, d.month) + d.day - 1
  }

  /** The day after `d`. */
  function NextDay(d: Date): Date
  {
    if d.day < DaysInMonth(d.year, d.month) then YMD(d.year, d.month, d.day + 1)
    else if d.month < 12 then YMD(d.year, d.month + 1, 1)
    else YMD(d.year + 1, 1, 1)
  }

  /** The day before `d`. */
  function PrevDay(d: Date): Date
  {
    if d.day > 1 then YMD(d.year, d.month, d.day - 1)
    else if d.month > 1 then YMD(d.year, d.month - 1, DaysInMonth(d.year, d.month - 1))
    else YMD(d.year - 1, 12, 31)
  }

  /** `d` moved by `n` days, forward or backward. */
  function AddDays(d: Date, n: int): Date
    decreases if n >= 0 then n else -n
  {
    if n == 0 then d
    else if n > 0 then AddDays(NextDay(d), n - 1)
    else AddDays(PrevDay(d), n + 1)
  }

  function FirstOfMonth(d: Date): Date
  {
    YMD(d.year, d.month, 1)
  }

  function FirstOfNextMonth(d: Date): Date
  {
    if d.month < 12 then YMD(d.year, d.month + 1, 1) else YMD(d.year + 1, 1, 1)
  }

  /**
   * `d.setDate(k)`: JavaScript counts `k - 1` days on from the first of the
   * month, so a `k` beyond the month's length rolls into the next month.
   */
  function SetDate(d: Date, k: int): Date
  {
    AddDays(FirstOfMonth(d), k - 1)
  }

  /**
   * `d.setMonth(d.getMonth() + 1)`: the same day number in the next month,
   * rolling over into the month after when that month is shorter.
   */
  function SetMonthToNext(d: Date): Date
  {
    AddDays(FirstOfNextMonth(d), d.day - 1)
  }

  /** YMD order, year first. */
  predicate YmdLess(a: Date, b: Date)
  {
    a.year < b.year
    || (a.year == b.year && a.month < b.month)
    || (a.year == b.year && a.month == b.month && a.day < b.day)
  }

  /** The day of the week, 0 for Sunday (1970-01-01 was a Thursday). */
  function Weekday(d: Date): int
  {
    WeekdayOfNumber(DayNumber(d))
  }

  /** The day of the week of the day numbered `n`. */
  function WeekdayOfNumber(n: int): (w: int)
    ensures 0 <= w < 7
  {
    (n + 4) % 7
  }

  // ---------------------------------------------------------------------------
  // Day numbers

  /** A year is as long as the leap-year rule says. */
  lemma DaysBeforeNextYear(y: int)
    ensures DaysBeforeYear(y + 1) == DaysBeforeYear(y) + DaysInYear(y)
  {
  }

  lemma {:induction false} DaysBeforeYearMonotonic(a: int, b: int)
    requires a <= b
    ensures DaysBeforeYear(a) + 365 * (b - a) <= DaysBeforeYear(b)
    decreases b - a
  {
    if a < b {
      DaysBeforeYearMonotonic(a, b - 1);
      DaysBeforeNextYear(b - 1);
    }
  }

  lemma DaysBeforeMonthStep(y: int, m: int)
    requires 1 <= m < 12
    ensures DaysBeforeMonth(y, m + 1) == DaysBeforeMonth(y, m) + DaysInMonth(y, m)
  {
  }

  lemma DaysBeforeMonthMonotonic(y: int, m: int, n: int)
    requires 1 <= m < n <= 12
    ensures DaysBeforeMonth(y, m) + DaysInMonth(y, m) <= DaysBeforeMonth(y, n)
  {
  }

  /** Every day of year `y` lies within that year's day numbers. */
  lemma DayNumberWithinYear(d: Date)
    ensures DaysBeforeYear(d.year) <= DayNumber(d) < DaysBeforeYear(d.year + 1)
  {
    DaysBeforeNextYear(d.year);
    if d.month < 12 {
      DaysBeforeMonthMonotonic(d.year, d.month, 12);
    }
  }

  /** Day numbers order dates exactly as their year, month and day do. */
  lemma DayNumberOrder(a: Date, b: Date)
    ensures DayNumber(a) < DayNumber(b) <==> YmdLess(a, b)
  {
    if a.year < b.year {
      DayNumberWithinYear(a);
      DaysBeforeYearMonotonic(a.year + 1, b.year);
    } else if b.year < a.year {
      DayNumberWithinYear(b);
      DaysBeforeYearMonotonic(b.year + 1, a.year);
    } else if a.month < b.month {
      DaysBeforeMonthMonotonic(a.year, a.month, b.month);
    } else if b.month < a.month {
      DaysBeforeMonthMonotonic(a.year, b.month, a.month);
    }
  }

  /** Distinct dates have distinct day numbers. */
  lemma DayNumberInjective(a: Date, b: Date)
    ensures DayNumber(a) == DayNumber(b) <==> a == b
  {
    DayNumberOrder(a, b);
    DayNumberOrder(b, a);
  }

  lemma NextDayNumber(d: Date)
    ensures DayNumber(NextDay(d)) == DayNumber(d) + 1
  {
    if d.day == DaysInMonth(d.year, d.month) {
      if d.month < 12 {
        DaysBeforeMonthStep(d.year, d.month);
      } else {
        DaysBeforeNextYear(d.year);
      }
    }
  }

  lemma PrevDayNumber(d: Date)
    ensures DayNumber(PrevDay(d)) == DayNumber(d) - 1
  {
    if d.day == 1 {
      if d.month > 1 {
        DaysBeforeMonthStep(d.year, d.month - 1);
      } else {
        DaysBeforeNextYear(d.year - 1);
      }
    }
  }

  /** Moving by `n` days changes the day number by exactly `n`. */
  lemma {:induction false} AddDaysNumber(d: Date, n: int)
    ensures DayNumber(AddDays(d, n)) == DayNumber(d) + n
    decreases if n >= 0 then n else -n
  {
    if n > 0 {
      assert AddDays(d, n) == AddDays(NextDay(d), n - 1);
      NextDayNumber(d);
      AddDaysNumber(NextDay(d), n - 1);
    } else if n < 0 {
      assert AddDays(d, n) == AddDays(PrevDay(d), n + 1);
      PrevDayNumber(d);
      AddDaysNumber(PrevDay(d), n + 1);
    }
  }

  /** The date with a given day number is unique, so `AddDays` is determined by day numbers. */
  lemma AddDaysByNumber(d: Date, n: int, e: Date)
    requires DayNumber(e) == DayNumber(d) + n
    ensures AddDays(d, n) == e
  {
    AddDaysNumber(d, n);
    DayNumberInjective(AddDays(d, n), e);
  }

  lemma AddDaysAdd(d: Date, m: int, n: int)
    ensures AddDays(AddDays(d, m), n) == AddDays(d, m + n)
  {
    var a := AddDays(d, m);
    AddDaysNumber(d, m);
    AddDaysNumber(a, n);
    AddDaysNumber(d, m + n);
    DayNumberInjective(AddDays(a, n), AddDays(d, m + n));
  }

  lemma FirstOfNextMonthNumber(d: Date)
    ensures DayNumber(FirstOfNextMonth(d)) == DayNumber(FirstOfMonth(d)) + DaysInMonth(d.year, d.month)
  {
    if d.month < 12 {
      DaysBeforeMonthStep(d.year, d.month);
    } else {
      DaysBeforeNextYear(d.year);
    }
  }

  /** Day 0 of the next month is the last day of this one. */
  lemma LastDayOfMonth(d: Date)
    ensures SetDate(FirstOfNextMonth(d), 0) == YMD(d.year, d.month, DaysInMonth(d.year, d.month))
  {
    FirstOfNextMonthNumber(d);
    AddDaysByNumber(FirstOfNextMonth(d), -1, YMD(d.year, d.month, DaysInMonth(d.year, d.month)));
  }

  /** `setDate(k)` with `k` inside the month gives day `k` of the same month. */
  lemma SetDateInMonth(d: Date, k: int)
    requires 1 <= k <= DaysInMonth(d.year, d.month)
    ensures SetDate(d, k) == YMD(d.year, d.month, k)
  {
    AddDaysByNumber(FirstOfMonth(d), k - 1, YMD(d.year, d.month, k));
  }

  /** `setDate(k)` past the month's end gives day `k - length` of the next month. */
  lemma SetDateOverflow(d: Date, k: int)
    requires DaysInMonth(d.year, d.month) < k <= DaysInMonth(d.year, d.month) + 28
    ensures SetDate(d, k) == AddDays(FirstOfNextMonth(d), k - DaysInMonth(d.year, d.month) - 1)
    ensures SetDate(d, k).year == FirstOfNextMonth(d).year && SetDate(d, k).month == FirstOfNextMonth(d).month
    ensures SetDate(d, k).day == k - DaysInMonth(d.year, d.month)
  {
    var f := FirstOfNextMonth(d);
    var e := YMD(f.year, f.month, k - DaysInMonth(d.year, d.month));
    FirstOfNextMonthNumber(d);
    AddDaysByNumber(FirstOfMonth(d), k - 1, e);
    AddDaysByNumber(f, k - DaysInMonth(d.year, d.month) - 1, e);
  }

  /** `setDate(getDate() + n)` moves the date by `n` days. */
  lemma SetDateRelative(d: Date, n: int)
    ensures SetDate(d, d.day + n) == AddDays(d, n)
  {
    var e := AddDays(d, n);
    AddDaysNumber(d, n);
    assert DayNumber(FirstOfMonth(d)) + (d.day + n - 1) == DayNumber(e);
    AddDaysByNumber(FirstOfMonth(d), d.day + n - 1, e);
  }

  /** `setMonth(getMonth() + 1)` on a day that the next month has keeps that day in the next month. */
  lemma SetMonthToNextInMonth(d: Date)
    requires d.day <= DaysInMonth(FirstOfNextMonth(d).year, FirstOfNextMonth(d).month)
    ensures SetMonthToNext(d) == YMD(FirstOfNextMonth(d).year, FirstOfNextMonth(d).month, d.day)
  {
    var f := FirstOfNextMonth(d);
    AddDaysByNumber(f, d.day - 1, YMD(f.year, f.month, d.day));
  }

  /** A date on or after the first of a month but not in that month is on or after the first of the next month. */
  lemma LaterMonth(first: Date, d: Date)
    requires first.day == 1
    requires DayNumber(first) <= DayNumber(d)
    requires d.year != first.year || d.month != first.month
    ensures DayNumber(FirstOfNextMonth(first)) <= DayNumber(d)
  {
    DayNumberOrder(d, first);
    assert !YmdLess(d, first);
    assert !YmdLess(d, FirstOfNextMonth(first));
    DayNumberOrder(d, FirstOfNextMonth(first));
  }
}
