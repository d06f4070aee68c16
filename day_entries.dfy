/**
 * The entries shown on one day of the timeline (`getEntriesForDate`): every
 * entry's occurrences on that day, less deletion markers and the recurring
 * occurrences that a marker or a one-time override replaces, sorted income
 * first and then by amount, largest first.
 */
module DayEntries {
  import opened Wrappers
  import opened Calendar
  import opened Timestamps
  import opened EntryModel
  import opened DateUtils
  import opened DateKeys

  /** One entry on one day (`EntryOccurrence` without its formatted amount). */
  datatype Occurrence = Occurrence(entry: Entry, date: Date)

  // ---------------------------------------------------------------------------
  // Collecting

  /** The dates among `dates` whose key is `dateKey`, paired with `e`, in order. */
  function WithKey(e: Entry, dates: seq<Date>, dateKey: string): seq<Occurrence>
  {
    if |dates| == 0 then []
    else
      WithKey(e, dates[..|dates| - 1], dateKey)
      + (if FormatDateKey(dates[|dates| - 1]) == dateKey then [Occurrence(e, dates[|dates| - 1])] else [])
  }

  /** The entries of `entries` whose rule falls on `day`, in list order. */
  function DueOn(entries: seq<Entry>, day: Date): seq<Occurrence>
  {
    if |entries| == 0 then []
    else
      DueOn(entries[..|entries| - 1], day)
      + (if OccursOn(entries[|entries| - 1], day) then [Occurrence(entries[|entries| - 1], day)] else [])
  }

  lemma {:induction false} DueOnMembers(entries: seq<Entry>, day: Date)
    ensures forall o :: o in DueOn(entries, day) <==>
      o.entry in entries && o.date == day && OccursOn(o.entry, day)
    decreases |entries|
  {
    if |entries| > 0 {
      var init := entries[..|entries| - 1];
      DueOnMembers(init, day);
      assert entries == init + [entries[|entries| - 1]];
    }
  }

  lemma WithKeyStep(e: Entry, dates: seq<Date>, j: int, dateKey: string)
    requires 0 <= j < |dates|
    ensures WithKey(e, dates[..j + 1], dateKey)
         == WithKey(e, dates[..j], dateKey) + (if FormatDateKey(dates[j]) == dateKey then [Occurrence(e, dates[j])] else [])
  {
    assert dates[..j + 1][..j] == dates[..j];
  }

  lemma DueOnStep(entries: seq<Entry>, i: int, day: Date)
    requires 0 <= i < |entries|
    ensures DueOn(entries[..i + 1], day)
         == DueOn(entries[..i], day) + (if OccursOn(entries[i], day) then [Occurrence(entries[i], day)] else [])
  {
    assert entries[..i + 1][..i] == entries[..i];
  }

  /** What the collecting loop gathers for one entry: the entry on that day, exactly when its rule falls there. */
  lemma CollectOne(e: Entry, day: Date)
    ensures WithKey(e, Occurrences(e, day, day), FormatDateKey(day))
            == if OccursOn(e, day) then [Occurrence(e, day)] else []
  {
    SingleDayWindow(e, day);
    WithKeyAtMostOne(e, day, FormatDateKey(day));
  }

  lemma WithKeyAtMostOne(e: Entry, d: Date, dateKey: string)
    ensures WithKey(e, [], dateKey) == []
    ensures WithKey(e, [d], dateKey) == if FormatDateKey(d) == dateKey then [Occurrence(e, d)] else []
  {
    assert [d][..0] == [];
  }

  // ---------------------------------------------------------------------------
  // Filtering

  /** `entries` holds a deletion marker for entry `id` whose date part is `dateKey`. */
  predicate HasDeleteMarker(entries: seq<Entry>, id: string, dateKey: string)
  {
    exists m :: m in entries && m.isDeleted && m.parentEntryId == Some(id)
                && m.specificDate.Some? && IsoPrefix(m.specificDate.value) == dateKey
  }

  /** `occurrences` holds a live one-time override of entry `id` on the day `dateKey`. */
  predicate HasOverride(occurrences: seq<Occurrence>, id: string, dateKey: string)
  {
    exists other :: other in occurrences && other.entry.repeatType == Once && !other.entry.isDeleted
                    && other.entry.parentEntryId == Some(id) && FormatDateKey(other.date) == dateKey
  }

  /** The filter callback of `getEntriesForDate`. */
  predicate Shown(entries: seq<Entry>, occurrences: seq<Occurrence>, dateKey: string, o: Occurrence)
  {
    if o.entry.isDeleted then false
    else if o.entry.repeatType != Once then
      !HasDeleteMarker(entries, o.entry.id, dateKey) && !HasOverride(occurrences, o.entry.id, dateKey)
    else true
  }

  /** `s.filter(Shown)`: the shown occurrences of `s`, in order. */
  function FilterShown(entries: seq<Entry>, occurrences: seq<Occurrence>, dateKey: string, s: seq<Occurrence>)
    : seq<Occurrence>
  {
    if |s| == 0 then []
    else
      (if Shown(entries, occurrences, dateKey, s[0]) then [s[0]] else [])
      + FilterShown(entries, occurrences, dateKey, s[1..])
  }

  /** The filter keeps each shown occurrence as often as it occurs, and nothing else. */
  lemma FilterShownCounts(entries: seq<Entry>, occurrences: seq<Occurrence>, dateKey: string, s: seq<Occurrence>)
    ensures var r := FilterShown(entries, occurrences, dateKey, s);
      && (forall o :: o in r <==> o in s && Shown(entries, occurrences, dateKey, o))
      && multiset(r) <= multiset(s)
      && (forall o :: multiset(r)[o] == if Shown(entries, occurrences, dateKey, o) then multiset(s)[o] else 0)
  {
    var r := FilterShown(entries, occurrences, dateKey, s);
    FilterShownMultiset(entries, occurrences, dateKey, s);
    forall o
      ensures o in r <==> o in s && Shown(entries, occurrences, dateKey, o)
    {
      assert o in r <==> multiset(r)[o] > 0;
      assert o in s <==> multiset(s)[o] > 0;
    }
  }

  lemma {:induction false} FilterShownMultiset(entries: seq<Entry>, occurrences: seq<Occurrence>, dateKey: string,
                                               s: seq<Occurrence>)
    ensures forall o :: multiset(FilterShown(entries, occurrences, dateKey, s))[o]
                        == if Shown(entries, occurrences, dateKey, o) then multiset(s)[o] else 0
    decreases |s|
  {
    if |s| > 0 {
      var head := if Shown(entries, occurrences, dateKey, s[0]) then [s[0]] else [];
      var rest := FilterShown(entries, occurrences, dateKey, s[1..]);
      FilterShownMultiset(entries, occurrences, dateKey, s[1..]);
      assert FilterShown(entries, occurrences, dateKey, s) == head + rest;
      assert multiset(head + rest) == multiset(head) + multiset(rest);
      assert s == [s[0]] + s[1..];
      assert multiset(s) == multiset([s[0]]) + multiset(s[1..]);
    }
  }

  // ---------------------------------------------------------------------------
  // Sorting

  /** The sort comparator of `getEntriesForDate` is negative: income before expense, then the larger amount first. */
  predicate Precedes(a: Occurrence, b: Occurrence)
  {
    if a.entry.entryType != b.entry.entryType then a.entry.entryType == Income
    else b.entry.amount - a.entry.amount < 0
  }

  /** The comparator is zero: same type and same amount. */
  predicate SameRank(a: Occurrence, b: Occurrence)
  {
    a.entry.entryType == b.entry.entryType && a.entry.amount == b.entry.amount
  }

  /** No occurrence comes after one it precedes. */
  predicate Ordered(s: seq<Occurrence>)
  {
    forall i, j :: 0 <= i < j < |s| ==> !Precedes(s[j], s[i])
  }

  lemma PrecedesTransitive(a: Occurrence, b: Occurrence, c: Occurrence)
    requires Precedes(a, b) && Precedes(b, c)
    ensures Precedes(a, c)
  {
  }

  /** Whatever `b` precedes, everything not after `b` also precedes. */
  lemma PrecedesNotAfter(a: Occurrence, b: Occurrence, c: Occurrence)
    requires Precedes(a, b) && !Precedes(c, b)
    ensures Precedes(a, c) && !SameRank(a, c)
  {
  }

  /** `x` placed before the first element it precedes. */
  function Insert(x: Occurrence, s: seq<Occurrence>): seq<Occurrence>
  {
    if |s| == 0 then [x]
    else if Precedes(x, s[0]) then [x] + s
    else [s[0]] + Insert(x, s[1..])
  }

  /** `Array.prototype.sort` with that comparator: a stable sort, here by insertion. */
  function SortOccurrences(s: seq<Occurrence>): seq<Occurrence>
  {
    if |s| == 0 then [] else Insert(s[|s| - 1], SortOccurrences(s[..|s| - 1]))
  }

  lemma {:induction false} InsertMultiset(x: Occurrence, s: seq<Occurrence>)
    ensures multiset(Insert(x, s)) == multiset(s) + multiset{x}
    decreases |s|
  {
    if |s| > 0 && !Precedes(x, s[0]) {
      InsertMultiset(x, s[1..]);
      assert s == [s[0]] + s[1..];
    }
  }

  lemma OrderedPrepend(y: Occurrence, t: seq<Occurrence>)
    requires Ordered(t)
    requires forall z :: z in t ==> !Precedes(z, y)
    ensures Ordered([y] + t)
  {
    forall i, j | 0 <= i < j < |[y] + t|
      ensures !Precedes(([y] + t)[j], ([y] + t)[i])
    {
      assert ([y] + t)[j] == t[j - 1];
      if i > 0 {
        assert ([y] + t)[i] == t[i - 1];
      }
    }
  }

  lemma OrderedTail(s: seq<Occurrence>)
    requires Ordered(s) && |s| > 0
    ensures Ordered(s[1..])
    ensures forall z :: z in s[1..] ==> !Precedes(z, s[0])
  {
    var t := s[1..];
    forall i, j | 0 <= i < j < |t| ensures !Precedes(t[j], t[i]) {
      assert t[i] == s[i + 1] && t[j] == s[j + 1];
    }
  }

  lemma {:induction false} InsertMembers(x: Occurrence, s: seq<Occurrence>)
    ensures forall z :: z in Insert(x, s) <==> z == x || z in s
    decreases |s|
  {
    if |s| > 0 && !Precedes(x, s[0]) {
      InsertMembers(x, s[1..]);
      assert s == [s[0]] + s[1..];
    }
  }

  lemma {:induction false} InsertOrdered(x: Occurrence, s: seq<Occurrence>)
    requires Ordered(s)
    ensures Ordered(Insert(x, s))
    decreases |s|
  {
    if |s| == 0 {
    } else if Precedes(x, s[0]) {
      OrderedTail(s);
      forall z | z in s ensures !Precedes(z, x)
      {
        if Precedes(z, x) {
          PrecedesTransitive(z, x, s[0]);
        }
      }
      OrderedPrepend(x, s);
    } else {
      OrderedTail(s);
      InsertOrdered(x, s[1..]);
      InsertMembers(x, s[1..]);
      OrderedPrepend(s[0], Insert(x, s[1..]));
    }
  }

  lemma {:induction false} SortIsPermutation(s: seq<Occurrence>)
    ensures multiset(SortOccurrences(s)) == multiset(s)
    ensures Ordered(SortOccurrences(s))
    decreases |s|
  {
    if |s| > 0 {
      var init := s[..|s| - 1];
      SortIsPermutation(init);
      InsertMultiset(s[|s| - 1], SortOccurrences(init));
      InsertOrdered(s[|s| - 1], SortOccurrences(init));
      assert s == init + [s[|s| - 1]];
    }
  }

  /** The elements of `s` of the same rank as `a`, in order. */
  function SelectRank(s: seq<Occurrence>, a: Occurrence): seq<Occurrence>
  {
    if |s| == 0 then []
    else (if SameRank(s[0], a) then [s[0]] else []) + SelectRank(s[1..], a)
  }

  lemma {:induction false} SelectRankAppend(s: seq<Occurrence>, x: Occurrence, a: Occurrence)
    ensures SelectRank(s + [x], a) == SelectRank(s, a) + (if SameRank(x, a) then [x] else [])
    decreases |s|
  {
    if |s| > 0 {
      assert (s + [x])[1..] == s[1..] + [x];
      SelectRankAppend(s[1..], x, a);
    }
  }

  lemma {:induction false} SelectRankNone(s: seq<Occurrence>, a: Occurrence)
    requires forall z :: z in s ==> !SameRank(z, a)
    ensures SelectRank(s, a) == []
    decreases |s|
  {
    if |s| > 0 {
      SelectRankNone(s[1..], a);
    }
  }

  lemma {:induction false} SelectRankInsert(x: Occurrence, t: seq<Occurrence>, a: Occurrence)
    requires Ordered(t)
    ensures SelectRank(Insert(x, t), a) == SelectRank(t, a) + (if SameRank(x, a) then [x] else [])
    decreases |t|
  {
    if |t| > 0 {
      if Precedes(x, t[0]) {
        SelectRankBefore(x, t, a);
      } else {
        var rest := t[1..];
        OrderedTail(t);
        SelectRankInsert(x, rest, a);
        assert Insert(x, t) == [t[0]] + Insert(x, rest);
        assert ([t[0]] + Insert(x, rest))[1..] == Insert(x, rest);
      }
    }
  }

  /** An occurrence that precedes the head of an ordered list outranks all of it. */
  lemma SelectRankBefore(x: Occurrence, t: seq<Occurrence>, a: Occurrence)
    requires Ordered(t) && |t| > 0 && Precedes(x, t[0])
    ensures SelectRank([x] + t, a) == SelectRank(t, a) + (if SameRank(x, a) then [x] else [])
  {
    assert ([x] + t)[1..] == t;
    if SameRank(x, a) {
      forall z | z in t ensures !SameRank(z, a)
      {
        var k :| 0 <= k < |t| && t[k] == z;
        if k > 0 {
          PrecedesNotAfter(x, t[0], z);
        }
      }
      SelectRankNone(t, a);
    }
  }

  /** Occurrences of equal rank keep their relative order. */
  lemma {:induction false} SortIsStable(s: seq<Occurrence>, a: Occurrence)
    ensures SelectRank(SortOccurrences(s), a) == SelectRank(s, a)
    decreases |s|
  {
    if |s| > 0 {
      var init := s[..|s| - 1];
      SortIsStable(init, a);
      SortIsPermutation(init);
      SelectRankInsert(s[|s| - 1], SortOccurrences(init), a);
      SelectRankAppend(init, s[|s| - 1], a);
      assert s == init + [s[|s| - 1]];
    }
  }

  /** In an ordered list every income comes before every expense, and within a type amounts do not increase. */
  lemma OrderedMeaning(s: seq<Occurrence>)
    requires Ordered(s)
    ensures forall i, j :: 0 <= i < j < |s| && s[i].entry.entryType == Expense ==> s[j].entry.entryType == Expense
    ensures forall i, j :: 0 <= i < j < |s| && s[i].entry.entryType == s[j].entry.entryType ==>
      s[i].entry.amount >= s[j].entry.amount
  {
    forall i, j | 0 <= i < j < |s|
      ensures s[i].entry.entryType == Expense ==> s[j].entry.entryType == Expense
      ensures s[i].entry.entryType == s[j].entry.entryType ==> s[i].entry.amount >= s[j].entry.amount
    {
      assert !Precedes(s[j], s[i]);
    }
  }

  // ---------------------------------------------------------------------------
  // The day's entries

  /** What `getEntriesForDate(day, entries)` returns. */
  function EntriesOn(entries: seq<Entry>, day: Date): seq<Occurrence>
  {
    var collected := DueOn(entries, day);
    SortOccurrences(FilterShown(entries, collected, FormatDateKey(day), collected))
  }

  /** `entries` holds a live one-time override of entry `id` that falls on `day`. */
  predicate Overridden(entries: seq<Entry>, id: string, day: Date)
  {
    exists e :: e in entries && e.repeatType == Once && !e.isDeleted && e.parentEntryId == Some(id) && OccursOn(e, day)
  }

  lemma OverrideOnDay(entries: seq<Entry>, day: Date, id: string)
    ensures HasOverride(DueOn(entries, day), id, FormatDateKey(day)) <==> Overridden(entries, id, day)
  {
    DueOnMembers(entries, day);
    if Overridden(entries, id, day) {
      var e :| e in entries && e.repeatType == Once && !e.isDeleted && e.parentEntryId == Some(id) && OccursOn(e, day);
      assert Occurrence(e, day) in DueOn(entries, day);
    }
  }

  /**
   * An occurrence is shown on `day` exactly when its entry is in the list,
   * falls on that day and is not a deletion marker, and, for a recurring
   * entry, no marker for that day and no live one-time override on that day
   * names it as parent.
   */
  lemma EntriesOnMembers(entries: seq<Entry>, day: Date)
    ensures forall o :: o in EntriesOn(entries, day) <==>
      && o.entry in entries && o.date == day && OccursOn(o.entry, day)
      && !o.entry.isDeleted
      && (IsRecurring(o.entry) ==>
            !HasDeleteMarker(entries, o.entry.id, FormatDateKey(day)) && !Overridden(entries, o.entry.id, day))
  {
    var collected := DueOn(entries, day);
    var kept := FilterShown(entries, collected, FormatDateKey(day), collected);
    FilterShownCounts(entries, collected, FormatDateKey(day), collected);
    SortIsPermutation(kept);
    DueOnMembers(entries, day);
    forall o ensures o in EntriesOn(entries, day) <==> o in kept
    {
      assert o in EntriesOn(entries, day) <==> o in multiset(kept);
    }
    forall id: string ensures HasOverride(collected, id, FormatDateKey(day)) <==> Overridden(entries, id, day)
    {
      OverrideOnDay(entries, day, id);
    }
  }

  /** The shown list is a permutation of the kept collected occurrences, ordered by the comparator, stable on ties. */
  lemma EntriesOnSorted(entries: seq<Entry>, day: Date, a: Occurrence)
    ensures multiset(EntriesOn(entries, day)) <= multiset(DueOn(entries, day))
    ensures forall i, j :: 0 <= i < j < |EntriesOn(entries, day)|
              && EntriesOn(entries, day)[i].entry.entryType == Expense
              ==> EntriesOn(entries, day)[j].entry.entryType == Expense
    ensures forall i, j :: 0 <= i < j < |EntriesOn(entries, day)|
              && EntriesOn(entries, day)[i].entry.entryType == EntriesOn(entries, day)[j].entry.entryType
              ==> EntriesOn(entries, day)[i].entry.amount >= EntriesOn(entries, day)[j].entry.amount
    ensures SelectRank(EntriesOn(entries, day), a)
            == SelectRank(FilterShown(entries, DueOn(entries, day), FormatDateKey(day), DueOn(entries, day)), a)
  {
    var collected := DueOn(entries, day);
    var kept := FilterShown(entries, collected, FormatDateKey(day), collected);
    FilterShownCounts(entries, collected, FormatDateKey(day), collected);
    SortIsPermutation(kept);
    OrderedMeaning(SortOccurrences(kept));
    SortIsStable(kept, a);
  }

  /** A one-time override and the recurring entry it replaces are never shown together. */
  lemma OverrideExcludesParent(entries: seq<Entry>, day: Date)
    ensures forall o, p :: o in EntriesOn(entries, day) && p in EntriesOn(entries, day)
              && o.entry.repeatType == Once && o.entry.parentEntryId == Some(p.entry.id)
              ==> !IsRecurring(p.entry)
  {
    EntriesOnMembers(entries, day);
  }

  /** For a day with a four-digit year, a deletion marker matches by the calendar day of its `specificDate`. */
  lemma DeleteMarkerOnDay(entries: seq<Entry>, id: string, day: Date)
    requires 1000 <= day.year <= 9999
    ensures HasDeleteMarker(entries, id, FormatDateKey(day)) <==>
      exists m :: m in entries && m.isDeleted && m.parentEntryId == Some(id)
                  && m.specificDate.Some? && FromUtc(m.specificDate.value) == day
  {
    forall m | m in entries && m.specificDate.Some?
      ensures IsoPrefix(m.specificDate.value) == FormatDateKey(day) <==> FromUtc(m.specificDate.value) == day
    {
      KeyMatchesIsoPrefix(m.specificDate.value, day);
    }
  }

  /** `getEntriesForDate(date, entries)`. */
  method EntriesForDate(day: Date, entries: seq<Entry>) returns (result: seq<Occurrence>)
    ensures result == EntriesOn(entries, day)
  {
    var dateKey := FormatDateKey(day);
    var occurrences := CollectOccurrences(day, entries);
    var filteredOccurrences := FilterShown(entries, occurrences, dateKey, occurrences);
    result := SortOccurrences(filteredOccurrences);
  }

  /** The collecting loops of `getEntriesForDate`: each entry's occurrences in the one-day window whose key is the day's. */
  method CollectOccurrences(day: Date, entries: seq<Entry>) returns (occurrences: seq<Occurrence>)
    ensures occurrences == DueOn(entries, day)
  {
    occurrences := [];
    var dateKey := FormatDateKey(day);
    for i := 0 to |entries|
      invariant occurrences == DueOn(entries[..i], day)
    {
      var entry := entries[i];
      var entryOccurrences := GenerateOccurrences(entry, day, day);
      var onDay := KeepWithKey(entry, entryOccurrences, dateKey);
      CollectOne(entry, day);
      DueOnStep(entries, i, day);
      occurrences := occurrences + onDay;
    }
    assert entries[..|entries|] == entries;
  }

  /** The inner loop of `getEntriesForDate`: the occurrences of one entry whose key is the day's. */
  method KeepWithKey(entry: Entry, entryOccurrences: seq<Date>, dateKey: string) returns (found: seq<Occurrence>)
    ensures found == WithKey(entry, entryOccurrences, dateKey)
  {
    found := [];
    for j := 0 to |entryOccurrences|
      invariant found == WithKey(entry, entryOccurrences[..j], dateKey)
    {
      var occurrenceDate := entryOccurrences[j];
      WithKeyStep(entry, entryOccurrences, j, dateKey);
      if FormatDateKey(occurrenceDate) == dateKey {
        found := found + [Occurrence(entry, occurrenceDate)];
      }
    }
    assert entryOccurrences[..|entryOccurrences|] == entryOccurrences;
  }
}
