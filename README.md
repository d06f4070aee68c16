# Budget timeline: occurrences, day entries, timeline rows and the entry store

This project models the core of a personal budgeting web application. It
covers four parts.

- **Recurring entries.** Stored incomes and expenses recur once, monthly,
  weekly or every two weeks.
- **Occurrences** (`generateOccurrences`, `getNextOccurrence`). These expand
  an entry's recurrence rule into the calendar days it falls on within a
  window, or find the next such day after a given one.
- **The timeline.** `getEntriesForDate` lists the entries shown on one day.
  It drops deletion markers, recurring occurrences suppressed by a marker,
  and recurring occurrences replaced by a one-time override, then sorts the
  rest income first and by amount. The day loop of `generateTimelineDates`
  builds one row per day of a range, with its balance, its month-start and
  month-end flags and its balance trends. `filterRelevantDates` keeps the
  days worth showing (today, days with entries, month ends) and counts the
  hidden days between them.
- **The entry store** (`EntryService`). It holds the entry list and the
  settings, and replaces them on every add, update, delete and balance
  setting.

Modules, one per concern:

- `Calendar` (`calendar.dfy`): proleptic Gregorian dates as `YMD` values.
  `DayNumber` counts days from 1970-01-01. The JavaScript setters used by
  the code are modelled exactly, overflow included:
  - `setDate(k)` is day `k` counted from the first of the month;
  - `setMonth(getMonth() + 1)` keeps the day and rolls over when the next
    month is shorter.
- `Strings` (`strings.dfy`): decimal text, `padStart`.
- `Timestamps` (`timestamps.dfy`): stored ISO timestamps. An `Instant` is a
  UTC calendar day plus milliseconds. `IsoPrefix` is the first ten
  characters of its `toISOString()` text.
- `EntryModel` (`entry_model.dfy`): entries and settings.
- `DateUtils` (`date_utils.dfy`): `fromUTC`, `toUTC`, `getDaysInMonth`,
  `generateOccurrences` and `getNextOccurrence`. The loops are methods, each
  proved equal to a recursive specification function. Lemmas then
  characterise those functions as sets of days.
- `DateKeys` (`date_keys.dfy`): `formatDateKey` and the previous-day key of
  `getPreviousDayBalance`.
- `DayEntries` (`day_entries.dfy`): `getEntriesForDate`. It collects
  occurrences, filters them and sorts them.
- `TimelineRows` (`timeline_rows.dfy`): the day loop of
  `generateTimelineDates`, `filterRelevantDates`, and their composition.
- `EntryStore` (`entry_service.dfy`): the `EntryService` class.

A JavaScript `Date` at local midnight is modelled as its local calendar day.
Comparing two such dates is comparing their day numbers.

## Model

| member | source | states |
|---|---|---|
| Calendar.DayNumberOrder | src/app/utils/date.utils.ts:27 | comparing two local midnights (`<`, `<=`) orders days by (year, month, day) |
| Calendar.DayNumberInjective | src/app/utils/date.utils.ts:27 | two days are the same date exactly when their day numbers agree |
| Calendar.AddDaysNumber | src/app/utils/date.utils.ts:61 | moving a date by `n` days moves its day number by exactly `n`, across month and year ends |
| Calendar.SetDateRelative | src/app/utils/date.utils.ts:61 | `setDate(getDate() + n)` is the date `n` days later, for every `n` |
| Calendar.SetDateInMonth | src/app/utils/date.utils.ts:40 | `setDate(k)` with `k` within the month's length sets the day and nothing else |
| Calendar.SetDateOverflow | src/app/utils/date.utils.ts:86 | `setDate(k)` past the month's length lands in the next month on day `k` minus the length |
| Calendar.SetMonthToNextInMonth | src/app/utils/date.utils.ts:89 | `setMonth(getMonth() + 1)` keeps the day when the next month has that many days |
| Calendar.LastDayOfMonth | src/app/utils/date.utils.ts:126 | day 0 of the next month is the last day of this month |
| Strings.PadStart | src/app/components/timeline/timeline.component.ts:561-562 | `padStart` yields the longer of the text and the width, ends with the text and is filled with the pad character before it |
| Strings.Pad2Digits | src/app/components/timeline/timeline.component.ts:561-562 | a month or day 0..99 padded to two is its tens digit then its units digit |
| Strings.Pad2Injective | src/app/components/timeline/timeline.component.ts:561-562 | different numbers 0..99 have different two-digit texts |
| Strings.IntStringInjective | src/app/components/timeline/timeline.component.ts:560 | `String(year)` of different integers differs, negative years included |
| Timestamps.IsoPrefix | src/app/components/timeline/timeline.component.ts:531 | `substring(0, 10)` of a stored timestamp is always exactly ten characters, the time part never reaches it |
| DateUtils.FromUtc | src/app/utils/date.utils.ts:133-140 | `fromUTC` is the local day with the timestamp's UTC year, month and day; UtcRoundTrip relates it to `toUTC` |
| DateUtils.ToUtc | src/app/utils/date.utils.ts:146-153 | `toUTC` is the UTC midnight of the local day's year, month and day; UtcRoundTrip relates it to `fromUTC` |
| DateUtils.UtcRoundTrip | src/app/utils/date.utils.ts:133-153 | `fromUTC(toUTC(d))` is `d`; `toUTC(fromUTC(i))` keeps the UTC day of `i` at midnight, and is `i` itself when `i` is a midnight. Both functions carry the year, month and day across, so this follows from their definitions. The substantive partner of `fromUTC` is `DateKeys.KeyMatchesIsoPrefix` |
| DateUtils.DaysInMonthOf | src/app/utils/date.utils.ts:125-127 | `getDaysInMonth` is 28..31 and February has 29 days exactly in leap years |
| DateUtils.GenerateOccurrences | src/app/utils/date.utils.ts:3-71 | the loops compute the occurrence list; it is strictly ascending and holds exactly the days of the window on which the entry falls (`OccursOn`: the specific date; the day of month clamped to the month's length; every 7 or 14 days from the start date), none before the creation day for recurring entries |
| DateUtils.OccurrencesCharacterized | src/app/utils/date.utils.ts:3-71 | the occurrence list is strictly ascending, and a day is in it exactly when it lies in the window and the entry falls on it |
| DateUtils.WeeklyCharacterized | src/app/utils/date.utils.ts:48-67 | for weekly and two-weekly entries, the same characterisation from the skip and collect loops |
| DateUtils.MonthlyOccurrences | src/app/utils/date.utils.ts:30-47 | the month loop from the first of the effective start's month yields the list of clamped monthly days |
| DateUtils.MonthlyFromMember | src/app/utils/date.utils.ts:38-47 | a day is collected by the month loop exactly when it is on or after the loop's first month, lies in the window, and is the month's clamped day |
| DateUtils.MonthlyFromAscending | src/app/utils/date.utils.ts:38-47 | the month loop yields its days in strictly ascending order |
| DateUtils.MonthlyOncePerMonth | src/app/utils/date.utils.ts:38-47 | a monthly entry occurs at most once in any calendar month |
| DateUtils.StepOccurrences | src/app/utils/date.utils.ts:57-67 | the two loops compute the days stepped through from the first grid day at or after the effective start |
| DateUtils.SkipToLeast | src/app/utils/date.utils.ts:60-62 | the skip loop stops at the least grid day (start date plus a multiple of the interval) at or after its bound |
| DateUtils.GridMultiple | src/app/utils/date.utils.ts:60-67 | a day is on the grid of a start date exactly when it is on or after it and its distance is a multiple of the interval |
| DateUtils.StepThroughMember | src/app/utils/date.utils.ts:64-67 | a day is collected exactly when it is on the grid of the loop's first day and not after the window's end |
| DateUtils.StepThroughShape | src/app/utils/date.utils.ts:64-67 | the collected days ascend strictly, begin with the first day, and follow each other by exactly the interval |
| DateUtils.StepThroughWeekday | src/app/utils/date.utils.ts:64-67 | every collected day falls on the weekday of the loop's first day |
| DateUtils.StepOccurrencesShape | src/app/utils/date.utils.ts:48-67 | consecutive weekly occurrences are one interval apart, and the first is the earliest grid day at or after the effective start |
| DateUtils.StepOccurrencesWeekday | src/app/utils/date.utils.ts:48-67 | every weekly or two-weekly occurrence falls on the start date's weekday |
| DateUtils.SingleDayWindow | src/app/utils/date.utils.ts:3-71 | over a one-day window the occurrences are that day if the entry falls on it, otherwise none |
| DateUtils.NextOccurrence | src/app/utils/date.utils.ts:73-113 | without the needed field the given date comes back. A one-time entry yields its specific date. A monthly entry yields the as-written next monthly day, strictly later. A weekly or two-weekly entry yields the least grid day strictly after the given date |
| DateUtils.MonthlyNext | src/app/utils/date.utils.ts:85-93 | the `setDate`/`setMonth` code computes `NextMonthlyAsWritten`, which is strictly after the given date |
| DateUtils.StepPast | src/app/utils/date.utils.ts:103-107 | the loop stops at the least grid day strictly after the given date |
| DateUtils.NextMonthlyAsWrittenCases | src/app/utils/date.utils.ts:85-93 | what the code yields in each case. Later this month: that day. Past this month's length: the next month, on day `dom` minus this month's length. Otherwise next month's day `dom` when it fits, else the month after at the clamped day |
| DateUtils.NextMonthlyIsLeast | src/app/utils/date.utils.ts:80-93 | the intended next monthly day is strictly after the given date, is a clamped monthly day, and no such day comes earlier |
| DateUtils.NextMonthlySkipsShortMonth | src/app/utils/date.utils.ts:85-91 | with `dom` 31 from 31 January of a leap year the code yields 31 March; the intended day is 29 February |
| DateUtils.NextMonthlyRollsOver | src/app/utils/date.utils.ts:85-88 | with `dom` 31 from 10 February of a leap year the code yields 2 March; the intended day is 29 February |
| DateKeys.FormatDateKey | src/app/components/timeline/timeline.component.ts:559-564 | the key is `String(year)`, then the month and the day padded to two digits; KeyInjective and IsoPrefixIsKey state what it means |
| DateKeys.KeyInjective | src/app/components/timeline/timeline.component.ts:559-564 | two days have the same key exactly when they are the same day |
| DateKeys.IsoPrefixIsKey | src/app/components/timeline/timeline.component.ts:527-531 | for years 1000..9999 the first ten characters of a day's UTC-midnight ISO text are that day's key |
| DateKeys.KeyMatchesIsoPrefix | src/app/components/timeline/timeline.component.ts:528-531 | for a day with a four-digit year, a timestamp's ISO date part equals the day's key exactly when `fromUTC` of the timestamp is that day |
| DateKeys.PreviousDayKeyIsDayBefore | src/app/components/timeline/timeline.component.ts:344-349 | the intended previous-day key names exactly the day whose number is one less |
| DateKeys.PreviousDayKeyAsWritten | src/app/components/timeline/timeline.component.ts:344-347 | the key the code computes: the local day of the key's UTC midnight, one day back, formatted; PreviousDayKeyAsWrittenAgrees says when it is right |
| DateKeys.PreviousDayKeyAsWrittenAgrees | src/app/components/timeline/timeline.component.ts:344-347 | the code finds the previous day's key exactly at or east of UTC; west of UTC it names the day two before |
| DateKeys.PreviousDayKeyWestOfUtc | src/app/components/timeline/timeline.component.ts:345-347 | at UTC-5 the row for 2024-03-05 looks up "2024-03-03", not "2024-03-04" |
| DayEntries.CollectOccurrences | src/app/components/timeline/timeline.component.ts:500-517 | the collecting loops yield each entry's occurrence on the day, in entry order |
| DayEntries.KeepWithKey | src/app/components/timeline/timeline.component.ts:507-516 | the inner loop keeps the occurrence dates whose key is the day's key, in order |
| DayEntries.DueOnMembers | src/app/components/timeline/timeline.component.ts:500-517 | an occurrence is collected exactly when its entry is in the list, its date is the day, and the entry falls on the day |
| DayEntries.CollectOne | src/app/components/timeline/timeline.component.ts:501-516 | one entry over the one-day window, filtered by key, contributes its occurrence exactly when it falls on the day |
| DayEntries.FilterShownCounts | src/app/components/timeline/timeline.component.ts:520-548 | the filter keeps exactly the occurrences its callback accepts, each as often as it was collected, in a sub-multiset |
| DayEntries.OverrideOnDay | src/app/components/timeline/timeline.component.ts:536-542 | an override is among the collected occurrences exactly when a live one-time entry with that parent falls on the day |
| DayEntries.DeleteMarkerOnDay | src/app/components/timeline/timeline.component.ts:528-532 | for a four-digit year, a deletion marker matches the day exactly when `fromUTC` of its specific date is the day |
| DayEntries.SortIsPermutation | src/app/components/timeline/timeline.component.ts:551-556 | the sort returns a permutation of its input that the comparator orders |
| DayEntries.SortIsStable | src/app/components/timeline/timeline.component.ts:551-556 | occurrences the comparator ties (same type, same amount) keep their relative order |
| DayEntries.OrderedMeaning | src/app/components/timeline/timeline.component.ts:551-556 | in the sorted list no income follows an expense, and within a type amounts never increase |
| DayEntries.EntriesOnMembers | src/app/components/timeline/timeline.component.ts:490-557 | an occurrence is shown exactly when its entry falls on the day and is not a deletion marker and, if recurring, has no marker for the day and no live one-time override that falls on it |
| DayEntries.EntriesOnSorted | src/app/components/timeline/timeline.component.ts:519-556 | the shown entries are a sub-multiset of the collected ones, income first, amounts non-increasing within a type, tied ones in collection order |
| DayEntries.OverrideExcludesParent | src/app/components/timeline/timeline.component.ts:536-544 | a shown one-time override never appears next to the recurring entry it overrides |
| DayEntries.EntriesForDate | src/app/components/timeline/timeline.component.ts:490-557 | the method computes the day's shown entries, which the lemmas above characterise |
| TimelineRows.LookupBalance | src/app/components/timeline/timeline.component.ts:391 | `balanceMap.get(key) ?? settings()?.initialBalance ?? 0`: the recorded balance, else the initial balance, else 0 |
| TimelineRows.PreviousDayBalanceOfDayBefore | src/app/components/timeline/timeline.component.ts:344-349 | the intended previous-day balance is the balance recorded for the day whose number is one less; without one it is the initial balance, and 0 without settings. West of UTC the source reads the day two before, see Findings |
| TimelineRows.Compare | src/app/components/timeline/timeline.component.ts:399-407 | the trend is up, down or none exactly when the balance is above, below or equal to the earlier one |
| TimelineRows.NextDayMonth | src/app/components/timeline/timeline.component.ts:380-382 | the next day is in another month exactly when the day is its month's last |
| TimelineRows.PrevDayMonth | src/app/components/timeline/timeline.component.ts:375-376 | the day before is in another month exactly when the day is the first of its month |
| TimelineRows.DayRow | src/app/components/timeline/timeline.component.ts:373-435 | one pass of the loop builds the row of the day: its key, month-start and month-end flags, entries, balance and its tooltip class (`positiveBalance` exactly when the balance is at least 0), current-month flag, previous-day balance and trend, month-end arrow, and the filter's fields at their defaults |
| TimelineRows.DayRows | src/app/components/timeline/timeline.component.ts:356-444 | the loop yields one row per day from start to end, row `i` being the day row of the `i`-th day, with the intended previous-day lookup |
| TimelineRows.MonthEndsAdvance | src/app/components/timeline/timeline.component.ts:437-440 | the tracked balance is the balance of the last month end already passed, and changes only at a month end |
| TimelineRows.MonthEndArrowMeaning | src/app/components/timeline/timeline.component.ts:403-408 | a month end's arrow compares its balance with the row of the previous month's end, which comes earlier and is a month end; without that row the arrow is none |
| TimelineRows.FirstMonthEndLevel | src/app/components/timeline/timeline.component.ts:404-405 | the first month end of the range has no arrow |
| TimelineRows.MonthInteriorRows | src/app/components/timeline/timeline.component.ts:379-382 | between the previous month's end and a day of the month there is no month-end row |
| TimelineRows.RelevantIndicesMeaning | src/app/components/timeline/timeline.component.ts:455-461 | the kept positions ascend and are exactly the rows that are today, have entries, or end a month |
| TimelineRows.RelevantRowIsKeptDay | src/app/components/timeline/timeline.component.ts:456-461 | a day row passes the filter's test exactly when its day is today, has entries, or ends its month |
| TimelineRows.FilterRelevantDates | src/app/components/timeline/timeline.component.ts:450-488 | the filter yields, in order, each relevant row rewritten with its today flag, hidden-day count and indicator flag |
| TimelineRows.KeepRelevant | src/app/components/timeline/timeline.component.ts:453-487 | for a given today key, the loop yields each relevant row in order, rewritten and measured from the kept row before it |
| TimelineRows.KeptRowsAppend | src/app/components/timeline/timeline.component.ts:477-483 | pushing a rewritten row measured from the last kept one keeps the filter's property |
| TimelineRows.MarkedDayRow | src/app/components/timeline/timeline.component.ts:473-483 | a kept day row keeps its date and entries, is today exactly when its date is today, shows the indicator when the setting is on and it has entries or is today, and has no header |
| TimelineRows.FilteredGaps | src/app/components/timeline/timeline.component.ts:463-471 | each kept row counts the days strictly between it and the kept row before it; the first counts none |
| TimelineRows.KeptRowsShown | src/app/components/timeline/timeline.component.ts:455-483 | every kept row is a shown row of a day to keep, at its day-row position |
| TimelineRows.KeptDaysShown | src/app/components/timeline/timeline.component.ts:455-461 | every day of the range that is today, has entries or ends a month has a kept row |
| TimelineRows.KeptRowsCarryDayFields | src/app/components/timeline/timeline.component.ts:477-483 | the `...current` spread: every kept row still carries the day loop's fields of its day (`DayFields`) |
| TimelineRows.TimelineFromRows | src/app/components/timeline/timeline.component.ts:446-488 | filtering the day rows gives ascending rows within the range and a row for exactly the days to keep. Each row has the filter's fields set (`ShownRow`) and keeps every field the day loop computed (`DayFields`), and hidden days are counted |
| TimelineRows.GenerateTimelineDates | src/app/components/timeline/timeline.component.ts:351-448 | the timeline has strictly ascending rows within the range, and a row for a day exactly when it is today, has entries or ends a month. Every row carries its day's key, month-start and month-end flags, entries, balance and tooltip class, current-month flag, previous-day balance and trend, and month-end arrow (`DayFields`). It also carries the filter's today flag, indicator flag and header (`ShownRow`), and the hidden days before it (`GapsCounted`) |
| EntryStore.WithIdentity | src/app/services/entry.service.ts:28-32 | the new entry has the generated id and creation time and otherwise the caller's fields |
| EntryStore.WithIdentityRoundTrip | src/app/services/entry.service.ts:28-32 | an entry is rebuilt from its fields, id and creation time |
| EntryStore.ApplyPatchLaws | src/app/services/entry.service.ts:41 | spreading an empty patch copies the entry, spreading one twice is spreading it once, a patch without an id keeps the id |
| EntryStore.UpdateMatching | src/app/services/entry.service.ts:40-42 | the list keeps its length; entries with the id are patched and all others are unchanged |
| EntryStore.UpdateAbsentId | src/app/services/entry.service.ts:40-42 | updating an id no entry has changes nothing |
| EntryStore.UpdateIdempotent | src/app/services/entry.service.ts:40-42 | repeating an update that keeps the id has no further effect |
| EntryStore.RemoveById | src/app/services/entry.service.ts:49 | whatever remains was in the list and has another id |
| EntryStore.RemoveByIdCounts | src/app/services/entry.service.ts:49 | every entry with another id remains as often as it occurred, none with the id does |
| EntryStore.RemoveByIdAppend | src/app/services/entry.service.ts:49 | removal keeps the order: it distributes over concatenation |
| EntryStore.RemoveAbsentId | src/app/services/entry.service.ts:49 | deleting an id no entry has changes nothing |
| EntryStore.RemoveByIdIdempotent | src/app/services/entry.service.ts:48-53 | deleting twice is deleting once |
| EntryStore.EntryService.TotalEntries | src/app/services/entry.service.ts:12 | `totalEntries` is the length of the list; AddEntry states that it grows by one |
| EntryStore.EntryService.HasInitialBalance | src/app/services/entry.service.ts:13 | `hasInitialBalance` holds exactly when settings exist; SetInitialBalance states that it holds afterwards |
| EntryStore.EntryService.constructor | src/app/services/entry.service.ts:15-17 | a new store holds what storage loaded and has written nothing |
| EntryStore.EntryService.LoadFromStorage | src/app/services/entry.service.ts:19-25 | loading installs the loaded entries and settings and writes nothing |
| EntryStore.EntryService.AddEntry | src/app/services/entry.service.ts:27-37 | the new entry is appended, the count grows by one, the settings are untouched, and the new list is what was written |
| EntryStore.EntryService.UpdateEntry | src/app/services/entry.service.ts:39-46 | the list becomes the patched list, the settings are untouched, and the new list is what was written |
| EntryStore.EntryService.DeleteEntry | src/app/services/entry.service.ts:48-53 | the list loses the entries with the id, the settings are untouched, and the new list is what was written |
| EntryStore.EntryService.SetInitialBalance | src/app/services/entry.service.ts:55-63 | the settings become the amount with the current time, an initial balance then exists, the entries are untouched, and the new settings are what was written |

## Left out

- The user interface: Angular signals and change detection, the dialogs and
  scrolling, and the rest of the timeline component. Only the functions
  listed above are modelled.
- Storage I/O. What `loadEntries` and `loadSettings` returned is passed to the
  constructor. Writes are recorded in the ghost fields `savedEntries` and
  `savedSettings` instead of being performed.
- The clock and randomness. `generateId`'s result and `new Date()` are
  parameters (`id`, `now`, the ledger's `today`), so `generateId` itself is
  not modelled.
- `balanceMap`, `showBalanceIndicator` and `formatCurrency` are read from the
  entry service by the timeline but are not in `entry.service.ts`; they are
  not part of this model. The balance map and the indicator setting are
  inputs.
- Formatted text: `displayDate`, `monthYear`, `nextMonthYear`,
  `balanceFormatted`, the tooltip text `balanceTooltip`,
  `monthEndDateFormatted`, `amountFormatted` and `formatDateForDisplay` need
  locale or currency formatting, which is not modelled. `balanceTooltipClass`
  is a sign test, and it is modelled as the field `positiveBalance`.
- Time zones and daylight saving. Every date the core handles is a local
  midnight, so it is modelled as its calendar day. Comparisons are
  day-number comparisons. The one place where the offset matters is
  `new Date(dateKey)` in `getPreviousDayBalance`. Only
  `DateKeys.PreviousDayKeyAsWritten` takes the offset as a parameter. The
  timeline rows use the intended day-before key at every offset, as the
  lines below for the `TimelineRows` members say.
- TimelineRows.FilteredGaps: the hidden-day count is the day-number
  difference minus one. The source divides a millisecond difference by a
  day's length and floors it, which differs from this across a
  daylight-saving change. That case is not modelled.
- DateKeys.KeyMatchesIsoPrefix: holds only for years 1000..9999. Outside them
  `toISOString` writes a padded or signed year and `String` does not.
- DayEntries.DeleteMarkerOnDay: holds only for years 1000..9999, for the
  same reason. For other years the model still computes the source's
  prefix test, but the lemma says nothing about it.
- Years are unbounded integers. JavaScript `Date` differs for some years,
  and those differences are not modelled:
  - `new Date(y, m, d)` and `Date.UTC(y, m, d)` read a year 0..99 as
    1900 + y.
  - Outside about years -271821..275760 every `Date` is an Invalid Date.
- DateUtils.UtcRoundTrip: for a year 0..99 the source's `toUTC` lands in
  1900 + y, so `fromUTC(toUTC(d))` is not `d` there. The lemma holds for
  every year because `FromUtc` and `ToUtc` do not model that shift.
  The same shift makes `fromUTC` of a stored timestamp of years 0..99 a day
  in 1900..1999, which `FromUtc` and everything built on it
  (`OccursOn`, the occurrence lists) do not follow.
- DateUtils.DaysInMonthOf: for a year 0..99 the source's `getDaysInMonth`
  measures the month in 1900 + y. For example, February of year 0 has 28
  days in the source and 29 in the model.
- DateKeys.PreviousDayKeyAsWritten: `new Date(dateKey)` reads the key as UTC
  midnight only when `String(year)` has exactly four digits. Other keys are
  not date-only ISO strings, and the engine parses them differently or not
  at all. `ParsedKeyLocalDay` assumes the UTC reading for every year.
- Amounts are whole numbers (`int`). The source's `number` is a
  floating-point value, and rounding is not modelled.
- `dayOfMonth` is restricted to 1..31, as the entry form enforces. Other
  values and invalid dates are not modelled.
- `isDeleted`: `entry.model.ts` does not declare it, but the timeline reads
  it on entries. The `Entry` datatype carries it, `false` when absent.
- DateUtils.NextOccurrence: follows the code as written, including the
  monthly overflow described under Findings. Nothing else in this model
  calls it. The intended behaviour is `NextMonthly`.
- TimelineRows.DayRow: the previous-day balance uses the intended
  `PreviousDayKey`, not the key as written, as described under Findings.
  West of UTC the source reads the balance of two days before instead, and
  its `balanceChange` compares with that balance. At or east of UTC the two
  keys agree (`DateKeys.PreviousDayKeyAsWrittenAgrees`).
- TimelineRows.PreviousDayBalanceOfDayBefore: states the intended lookup of
  the day before. West of UTC the source's `getPreviousDayBalance` looks up
  the day two before, which the model does not compute.
- TimelineRows.DayRows: each row is built by `DayRow`, so west of UTC its
  `previousDayBalance` and `balanceChange` are the intended ones, not those
  of the source.
- TimelineRows.GenerateTimelineDates: its `DayFields` ensures state the
  intended `previousDayBalance` and `balanceChange`. West of UTC the source
  computes them from the balance of two days before.
- TimelineRows.TimelineFromRows: the same gap as `GenerateTimelineDates`. The
  kept rows carry the intended previous-day balance and trend.
- `Array.prototype.sort` is assumed stable, as the language has required
  since ES2019. `SortOccurrences` is an insertion sort with that comparator;
  permutation, order and stability together fix the output.

## Findings

| source | as written | input that shows it | evidently intended | confidence | as-written member | corrected member |
|---|---|---|---|---|---|---|
| src/app/components/timeline/timeline.component.ts:344-349 | `new Date(dateKey)` reads a `YYYY-MM-DD` key as UTC midnight, then steps back one local day | time zone UTC-5, row 2024-03-05: the lookup key is "2024-03-03" | the key of the day before, "2024-03-04" | not executed | DateKeys.PreviousDayKeyWestOfUtc | DateKeys.PreviousDayKeyIsDayBefore |
| src/app/utils/date.utils.ts:85-93 | `setDate(dayOfMonth)` and `setMonth(getMonth() + 1)` are not clamped to the month's length, so they overflow into the following month | `dayOfMonth` 31 from 31 January 2024 gives 31 March; from 10 February 2024 it gives 2 March | 29 February 2024 in both cases, the next day with the clamped day of month, as `generateOccurrences` uses | not executed | DateUtils.NextMonthlySkipsShortMonth | DateUtils.NextMonthlyIsLeast |
