/**
 * The entry store: the in-memory list of entries and the settings, replaced
 * by every operation and written to storage after each change.
 *
 * Storage is not modelled as I/O: what the loaders returned is passed in, and
 * the ghost fields `savedEntries` and `savedSettings` record the last value
 * this store wrote. The generated id and the current time are parameters.
 */
module EntryStore {
  import opened Wrappers
  import opened Timestamps
  import opened EntryModel

  /** `Omit<Entry, 'id' | 'createdAt'>`: what a caller of `addEntry` supplies. */
  datatype NewEntry = NewEntry(
    entryLabel: string,
    amount: int,
    entryType: EntryType,
    dayOfMonth: Option<DayOfMonth>,
    startDate: Option<Instant>,
    repeatType: RepeatType,
    specificDate: Option<Instant>,
    parentEntryId: Option<string>,
    isDeleted: bool)

  /** `{...entry, id, createdAt}`. */
  function WithIdentity(input: NewEntry, id: string, now: Instant): (e: Entry)
    ensures e.id == id && e.createdAt == now
    ensures Fields(e) == input
  {
    Entry(id, input.entryLabel, input.amount, input.entryType, input.dayOfMonth, input.startDate,
          input.repeatType, input.specificDate, now, input.parentEntryId, input.isDeleted)
  }

  /** An entry without its id and creation time. */
  function Fields(e: Entry): NewEntry
  {
    NewEntry(e.entryLabel, e.amount, e.entryType, e.dayOfMonth, e.startDate, e.repeatType,
             e.specificDate, e.parentEntryId, e.isDeleted)
  }

  /** An entry is determined by its id, its creation time and its other fields. */
  lemma WithIdentityRoundTrip(e: Entry)
    ensures WithIdentity(Fields(e), e.id, e.createdAt) == e
  {
  }

  /**
   * `Partial<Entry>`: `None` leaves a property alone. An optional property
   * may also be set to absent, so its patch is an `Option` of an `Option`.
   */
  datatype EntryPatch = EntryPatch(
    id: Option<string>,
    entryLabel: Option<string>,
    amount: Option<int>,
    entryType: Option<EntryType>,
    dayOfMonth: Option<Option<DayOfMonth>>,
    startDate: Option<Option<Instant>>,
    repeatType: Option<RepeatType>,
    specificDate: Option<Option<Instant>>,
    createdAt: Option<Instant>,
    parentEntryId: Option<Option<string>>,
    isDeleted: Option<bool>)

  /** The patch with no properties, `{}`. */
  const NoChanges := EntryPatch(None, None, None, None, None, None, None, None, None, None, None)

  function Override<T>(patch: Option<T>, current: T): T
  {
    if patch.Some? then patch.value else current
  }

  /** `{...entry, ...updates}`. */
  function ApplyPatch(e: Entry, p: EntryPatch): Entry
  {
    Entry(Override(p.id, e.id), Override(p.entryLabel, e.entryLabel), Override(p.amount, e.amount),
          Override(p.entryType, e.entryType), Override(p.dayOfMonth, e.dayOfMonth),
          Override(p.startDate, e.startDate), Override(p.repeatType, e.repeatType),
          Override(p.specificDate, e.specificDate), Override(p.createdAt, e.createdAt),
          Override(p.parentEntryId, e.parentEntryId), Override(p.isDeleted, e.isDeleted))
  }

  /** Spreading an empty patch copies the entry; spreading a patch twice is spreading it once. */
  lemma ApplyPatchLaws(e: Entry, p: EntryPatch)
    ensures ApplyPatch(e, NoChanges) == e
    ensures ApplyPatch(ApplyPatch(e, p), p) == ApplyPatch(e, p)
    ensures p.id.None? ==> ApplyPatch(e, p).id == e.id
  {
  }

  /** `entries.map(entry => entry.id === id ? {...entry, ...updates} : entry)`. */
  function UpdateMatching(entries: seq<Entry>, id: string, patch: EntryPatch): (r: seq<Entry>)
    ensures |r| == |entries|
    ensures forall i :: 0 <= i < |entries| ==>
      r[i] == if entries[i].id == id then ApplyPatch(entries[i], patch) else entries[i]
  {
    seq(|entries|, i requires 0 <= i < |entries| => if entries[i].id == id then ApplyPatch(entries[i], patch) else entries[i])
  }

  /** Updating an id no entry has leaves the list as it was. */
  lemma UpdateAbsentId(entries: seq<Entry>, id: string, patch: EntryPatch)
    requires forall i :: 0 <= i < |entries| ==> entries[i].id != id
    ensures UpdateMatching(entries, id, patch) == entries
  {
  }

  /** An update that keeps the id may be repeated without further effect. */
  lemma UpdateIdempotent(entries: seq<Entry>, id: string, patch: EntryPatch)
    requires patch.id.None? || patch.id == Some(id)
    ensures UpdateMatching(UpdateMatching(entries, id, patch), id, patch) == UpdateMatching(entries, id, patch)
  {
    var once := UpdateMatching(entries, id, patch);
    forall i | 0 <= i < |entries|
      ensures UpdateMatching(once, id, patch)[i] == once[i]
    {
      ApplyPatchLaws(entries[i], patch);
    }
  }

  /** `entries.filter(entry => entry.id !== id)`. */
  function RemoveById(entries: seq<Entry>, id: string): (r: seq<Entry>)
    ensures forall e :: e in r ==> e in entries && e.id != id
  {
    if |entries| == 0 then []
    else
      var rest := RemoveById(entries[..|entries| - 1], id);
      var last := entries[|entries| - 1];
      if last.id != id then rest + [last] else rest
  }

  /** Removal keeps every entry with another id, as often as it occurred, and no entry with the id. */
  lemma {:induction false} RemoveByIdCounts(entries: seq<Entry>, id: string)
    ensures forall e :: multiset(RemoveById(entries, id))[e] == if e.id == id then 0 else multiset(entries)[e]
    decreases |entries|
  {
    if |entries| > 0 {
      var init := entries[..|entries| - 1];
      RemoveByIdCounts(init, id);
      assert entries == init + [entries[|entries| - 1]];
    }
  }

  /** Removal keeps the order: it distributes over concatenation. */
  lemma {:induction false} RemoveByIdAppend(a: seq<Entry>, b: seq<Entry>, id: string)
    ensures RemoveById(a + b, id) == RemoveById(a, id) + RemoveById(b, id)
    decreases |b|
  {
    if |b| == 0 {
      assert a + b == a;
    } else {
      var b0 := b[..|b| - 1];
      assert (a + b)[..|a + b| - 1] == a + b0;
      RemoveByIdAppend(a, b0, id);
    }
  }

  /** Deleting an id no entry has leaves the list as it was. */
  lemma {:induction false} RemoveAbsentId(entries: seq<Entry>, id: string)
    requires forall i :: 0 <= i < |entries| ==> entries[i].id != id
    ensures RemoveById(entries, id) == entries
    decreases |entries|
  {
    if |entries| > 0 {
      RemoveAbsentId(entries[..|entries| - 1], id);
    }
  }

  /** Deleting twice is deleting once. */
  lemma RemoveByIdIdempotent(entries: seq<Entry>, id: string)
    ensures RemoveById(RemoveById(entries, id), id) == RemoveById(entries, id)
  {
    var once := RemoveById(entries, id);
    assert forall i :: 0 <= i < |once| ==> once[i] in once;
    RemoveAbsentId(once, id);
  }

  /** `EntryService`: the signals `entries` and `settings`, and what was last written to storage. */
  class EntryService {
    var entries: seq<Entry>
    var settings: Option<AppSettings>
    ghost var savedEntries: Option<seq<Entry>>
    ghost var savedSettings: Option<AppSettings>

    /** Whatever this store wrote last is what it holds. */
    ghost predicate Saved()
      reads this
    {
      (savedEntries.Some? ==> savedEntries.value == entries) && (savedSettings.Some? ==> settings == savedSettings)
    }

    /** `totalEntries`. */
    function TotalEntries(): nat
      reads this
    {
      |entries|
    }

    /** `hasInitialBalance`. */
    function HasInitialBalance(): bool
      reads this
    {
      settings.Some?
    }

    /** Built from what the storage loaders returned (`[]` and `null` when nothing is stored or reading fails). */
    constructor (loadedEntries: seq<Entry>, loadedSettings: Option<AppSettings>)
      ensures entries == loadedEntries && settings == loadedSettings
      ensures savedEntries.None? && savedSettings.None?
    {
      entries := [];
      settings := None;
      savedEntries := None;
      savedSettings := None;
      new;
      LoadFromStorage(loadedEntries, loadedSettings);
    }

    /** `loadFromStorage`: installs the loaded list and settings; it writes nothing. */
    method LoadFromStorage(loadedEntries: seq<Entry>, loadedSettings: Option<AppSettings>)
      modifies this
      ensures entries == loadedEntries && settings == loadedSettings
      ensures savedEntries == old(savedEntries) && savedSettings == old(savedSettings)
    {
      entries := loadedEntries;
      settings := loadedSettings;
    }

    /** `addEntry(entry)` with the generated id and the current time as parameters. */
    method AddEntry(input: NewEntry, id: string, now: Instant)
      modifies this
      ensures entries == old(entries) + [WithIdentity(input, id, now)]
      ensures TotalEntries() == old(TotalEntries()) + 1
      ensures settings == old(settings)
      ensures savedEntries == Some(entries) && savedSettings == old(savedSettings)
      ensures old(Saved()) ==> Saved()
    {
      var newEntry := WithIdentity(input, id, now);
      var updatedEntries := entries + [newEntry];
      entries := updatedEntries;
      savedEntries := Some(updatedEntries);
    }

    /** `updateEntry(id, updates)`. */
    method UpdateEntry(id: string, updates: EntryPatch)
      modifies this
      ensures entries == UpdateMatching(old(entries), id, updates)
      ensures settings == old(settings)
      ensures savedEntries == Some(entries) && savedSettings == old(savedSettings)
      ensures old(Saved()) ==> Saved()
    {
      var updatedEntries := UpdateMatching(entries, id, updates);
      entries := updatedEntries;
      savedEntries := Some(updatedEntries);
    }

    /** `deleteEntry(id)`. */
    method DeleteEntry(id: string)
      modifies this
      ensures entries == RemoveById(old(entries), id)
      ensures settings == old(settings)
      ensures savedEntries == Some(entries) && savedSettings == old(savedSettings)
      ensures old(Saved()) ==> Saved()
    {
      var updatedEntries := RemoveById(entries, id);
      entries := updatedEntries;
      savedEntries := Some(updatedEntries);
    }

    /** `setInitialBalance(amount)` with the current time as a parameter. */
    method SetInitialBalance(amount: int, now: Instant)
      modifies this
      ensures settings == Some(AppSettings(amount, now)) && HasInitialBalance()
      ensures entries == old(entries)
      ensures savedSettings == Some(AppSettings(amount, now)) && savedEntries == old(savedEntries)
      ensures old(Saved()) ==> Saved()
    {
      var newSettings := AppSettings(amount, now);
      settings := Some(newSettings);
      savedSettings := Some(newSettings);
    }
  }
}
