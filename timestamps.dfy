/**
 * JavaScript instants as the application stores them: `toISOString()` text,
 * which names a UTC calendar day followed by the time of day.
 */
module Timestamps {
  import opened Calendar
  import opened Strings

  type MsOfDay = n: int | 0 <= n < 86_400_000

  /** An instant: its UTC calendar day and the milliseconds after that day's UTC midnight. */
  datatype Instant = Instant(utcDate: Date, msOfDay: MsOfDay)

  /** The year as `toISOString()` writes it: four digits for 0..9999, otherwise a sign and six or more digits. */
  function IsoYear(y: int): (s: string)
    ensures |s| >= 4
  {
    if 0 <= y <= 9999 then PadStart(Decimal(y), 4, '0')
    else if y < 0 then "-" + PadStart(Decimal(-y), 6, '0')
    else "+" + PadStart(Decimal(y), 6, '0')
  }

  /** The date part of `toISOString()`, the text before its `T`. */
  function IsoDate(d: Date): (s: string)
    ensures |s| >= 10
  {
    IsoYear(d.year) + "-" + Pad2(d.month) + "-" + Pad2(d.day)
  }

  /**
   * `iso.substring(0, 10)` of the stored text of `i`. The date part is always
   * at least ten characters long, so the time part never reaches the prefix.
   */
  function IsoPrefix(i: Instant): (s: string)
    ensures |s| == 10
  {
    IsoDate(i.utcDate)[..10]
  }
}
