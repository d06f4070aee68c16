/**
 * Day keys: the `YYYY-MM-DD` strings by which the timeline names a day
 * (`formatDateKey`), their relation to the date part of stored ISO
 * timestamps, and the key of the previous day (`getPreviousDayBalance`).
 */
module DateKeys {
  import opened Calendar
  import opened Strings
  import opened Timestamps
  import opened DateUtils

  /** `formatDateKey`: the local year as `String` writes it, then two-digit month and day. */
  function FormatDateKey(d: Date): string
  {
    IntString(d.year) + "-" + Pad2(d.month) + "-" + Pad2(d.day)
  }

  lemma KeyParts(d: Date)
    ensures |FormatDateKey(d)| == |IntString(d.year)| + 6
    ensures FormatDateKey(d)[..|IntString(d.year)|] == IntString(d.year)
    ensures FormatDateKey(d)[|IntString(d.year)| + 1..|IntString(d.year)| + 3] == Pad2(d.month)
    ensures FormatDateKey(d)[|IntString(d.year)| + 4..] == Pad2(d.day)
  {
    Pad2Length(d.month);
    Pad2Length(d.day);
    DashedParts(IntString(d.year), Pad2(d.month), Pad2(d.day));
  }

  /** Where the parts of `y-m-dd` sit, for two-character `m` and `dd`. */
  lemma DashedParts(y: string, m: string, dd: string)
    requires |m| == 2 && |dd| == 2
    ensures |y + "-" + m + "-" + dd| == |y| + 6
    ensures (y + "-" + m + "-" + dd)[..|y|] == y
    ensures (y + "-" + m + "-" + dd)[|y| + 1..|y| + 3] == m
    ensures (y + "-" + m + "-" + dd)[|y| + 4..] == dd
    ensures |y| > 0 ==> (y + "-" + m + "-" + dd)[0] == y[0]
  {
    var rest := "-" + m + "-" + dd;
    assert y + "-" + m + "-" + dd == y + rest;
    assert rest[1..3] == m && rest[4..] == dd;
  }

  /** Distinct days have distinct keys, whatever the year. */
  lemma KeyInjective(a: Date, b: Date)
    ensures FormatDateKey(a) == FormatDateKey(b) <==> a == b
  {
    if FormatDateKey(a) == FormatDateKey(b) {
      KeyParts(a);
      KeyParts(b);
      IntStringInjective(a.year, b.year);
      Pad2Injective(a.month, b.month);
      Pad2Injective(a.day, b.day);
    }
  }

  /** For a four-digit year the key is the date part of the ISO text of that day's UTC midnight. */
  lemma IsoPrefixIsKey(d: Date)
    requires 1000 <= d.year <= 9999
    ensures IsoPrefix(ToUtc(d)) == FormatDateKey(d)
  {
    IsoYearFourDigits(d.year);
    KeyParts(d);
    WholePrefix(FormatDateKey(d), 10);
  }

  /** A four-digit year is written the same way by `toISOString` and by `String`. */
  lemma IsoYearFourDigits(y: int)
    requires 1000 <= y <= 9999
    ensures IsoYear(y) == IntString(y)
    ensures |IntString(y)| == 4
  {
    DecimalFourDigits(y);
  }

  lemma WholePrefix(s: string, n: int)
    requires |s| == n
    ensures s[..n] == s
  {
  }

  /**
   * For a day with a four-digit year, comparing `iso.substring(0, 10)` with
   * the day's key is the same as comparing `fromUTC(iso)` with the day.
   */
  lemma KeyMatchesIsoPrefix(i: Instant, day: Date)
    requires 1000 <= day.year <= 9999
    ensures IsoPrefix(i) == FormatDateKey(day) <==> FromUtc(i) == day
  {
    var y := i.utcDate.year;
    if 1000 <= y <= 9999 {
      IsoPrefixIsKey(i.utcDate);
      assert IsoPrefix(i) == IsoPrefix(ToUtc(i.utcDate));
      KeyInjective(i.utcDate, day);
    } else {
      KeyLeadingDigit(day);
      IsoPrefixLeading(i);
    }
  }

  lemma KeyLeadingDigit(day: Date)
    requires 1000 <= day.year <= 9999
    ensures '1' <= FormatDateKey(day)[0] <= '9'
  {
    DecimalLeadingDigit(day.year);
    Pad2Length(day.month);
    Pad2Length(day.day);
    DashedParts(IntString(day.year), Pad2(day.month), Pad2(day.day));
  }

  /** Outside the years 1000..9999 the ISO date part starts with a `0`, `+` or `-`. */
  lemma IsoPrefixLeading(i: Instant)
    requires !(1000 <= i.utcDate.year <= 9999)
    ensures !('1' <= IsoPrefix(i)[0] <= '9')
  {
    var y := i.utcDate.year;
    Pad2Length(i.utcDate.month);
    Pad2Length(i.utcDate.day);
    DashedParts(IsoYear(y), Pad2(i.utcDate.month), Pad2(i.utcDate.day));
    IsoYearLeading(y);
  }

  lemma IsoYearLeading(y: int)
    requires !(1000 <= y <= 9999)
    ensures !('1' <= IsoYear(y)[0] <= '9')
  {
    if 0 <= y < 1000 {
      DecimalBelowThousand(y);
      assert IsoYear(y)[0] == '0';
    } else if y < 0 {
      assert IsoYear(y)[0] == '-';
    } else {
      assert IsoYear(y)[0] == '+';
    }
  }

  // ---------------------------------------------------------------------------
  // The key of the previous day

  /** Minutes that local time is ahead of UTC (negative west of Greenwich). */
  type UtcOffset = m: int | -1440 < m < 1440

  /** The key of the day before `d`: what `getPreviousDayBalance` is meant to look up. */
  function PreviousDayKey(d: Date): string
  {
    FormatDateKey(PrevDay(d))
  }

  /** `PreviousDayKey(d)` names exactly the day whose number is one less than `d`'s. */
  lemma PreviousDayKeyIsDayBefore(d: Date, e: Date)
    ensures PreviousDayKey(d) == FormatDateKey(e) <==> DayNumber(e) == DayNumber(d) - 1
  {
    KeyInjective(PrevDay(d), e);
    PrevDayNumber(d);
    DayNumberInjective(PrevDay(d), e);
  }

  /**
   * The local day of `new Date(key)` for the key of `d`: a date-only string
   * is read as UTC midnight, which west of UTC is still the evening before.
   */
  function ParsedKeyLocalDay(d: Date, offset: UtcOffset): Date
  {
    if offset < 0 then PrevDay(d) else d
  }

  /** The key `getPreviousDayBalance` computes as the code has it: parse, step back one local day, format. */
  function PreviousDayKeyAsWritten(d: Date, offset: UtcOffset): string
  {
    FormatDateKey(PrevDay(ParsedKeyLocalDay(d, offset)))
  }

  /** The code finds the previous day's key exactly in zones at or east of UTC; west of UTC it looks two days back. */
  lemma PreviousDayKeyAsWrittenAgrees(d: Date, offset: UtcOffset)
    ensures PreviousDayKeyAsWritten(d, offset) == PreviousDayKey(d) <==> offset >= 0
    ensures offset < 0 ==> PreviousDayKeyAsWritten(d, offset) == FormatDateKey(PrevDay(PrevDay(d)))
  {
    if offset < 0 {
      PrevDayNumber(d);
      PrevDayNumber(PrevDay(d));
      PreviousDayKeyIsDayBefore(d, PrevDay(PrevDay(d)));
    }
  }

  /** In New York winter time (UTC-5) the row for 2024-03-05 compares against 2024-03-03. */
  lemma PreviousDayKeyWestOfUtc()
    ensures PreviousDayKeyAsWritten(YMD(2024, 3, 5), -300) == "2024-03-03"
    ensures PreviousDayKey(YMD(2024, 3, 5)) == "2024-03-04"
  {
    var d := YMD(2024, 3, 5);
    assert PrevDay(ParsedKeyLocalDay(d, -300)) == YMD(2024, 3, 3);
    assert PrevDay(d) == YMD(2024, 3, 4);
    MarchKey(3);
    MarchKey(4);
  }

  lemma MarchKey(day: int)
    requires 1 <= day <= 9
    ensures FormatDateKey(YMD(2024, 3, day)) == "2024-03-0" + [DigitChar(day)]
  {
    YearText2024();
    Pad2Digits(3);
    Pad2Digits(day);
  }

  lemma YearText2024()
    ensures IntString(2024) == "2024"
  {
    assert Decimal(2) == "2";
    assert Decimal(20) == "20" by { assert Decimal(20) == Decimal(2) + [DigitChar(0)]; }
    assert Decimal(202) == "202" by { assert Decimal(202) == Decimal(20) + [DigitChar(2)]; }
    assert Decimal(2024) == "2024" by { assert Decimal(2024) == Decimal(202) + [DigitChar(4)]; }
  }
}
