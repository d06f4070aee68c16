/** The stored records: entries and application settings. */
module EntryModel {
  import opened Wrappers
  import opened Timestamps

  datatype RepeatType = Monthly | Weekly | Biweekly | Once

  datatype EntryType = Income | Expense

  /** The day of the month a monthly entry falls on; the entry form only offers 1..31. */
  type DayOfMonth = n: int | 1 <= n <= 31 witness 1

  /**
   * One income or expense (`entryLabel` is the `label` property, `entryType`
   * the `type` property). Amounts are whole cents. Optional properties are
   * `Option`s; `isDeleted` is `false` when the property is absent. A `once`
   * entry with a `parentEntryId` overrides one occurrence of that recurring
   * entry, or, with `isDeleted` set, suppresses it.
   */
  datatype Entry = Entry(
    id: string,
    entryLabel: string,
    amount: int,
    entryType: EntryType,
    dayOfMonth: Option<DayOfMonth>,
    startDate: Option<Instant>,
    repeatType: RepeatType,
    specificDate: Option<Instant>,
    createdAt: Instant,
    parentEntryId: Option<string>,
    isDeleted: bool)

  datatype AppSettings = AppSettings(initialBalance: int, balanceSetDate: Instant)

  predicate IsRecurring(e: Entry)
  {
    e.repeatType != Once
  }
}
