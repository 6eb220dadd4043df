/** The calendar page: the entries of the selected day split into morning
    and evening, dots on days holding an entry of either template, "add"
    badges for a missing morning or evening entry, and deletion behind the
    browser's confirmation. The grouping by day is the dashboard's; a date
    is its timestamp and `format(date, 'yyyy-MM-dd')` is `dayOf`. */
module CalendarView {
  import opened Optional
  import opened Types
  import Records
  import Seqs
  import Grouping
  import JournalCard
  import JournalStore
  import Dashboard

  /** `selectedDateKey`: the empty key when no day is selected. */
  function SelectedKey(selected: Option<int>, dayOf: int -> string): string {
    match selected
    case None => ""
    case Some(d) => dayOf(d)
  }

  /** `entriesByDate[selectedDateKey] || []`. */
  function SelectedEntries(entries: seq<Entry>, dayOf: int -> string, selected: Option<int>): seq<Entry> {
    Grouping.Bucket(Dashboard.ByDate(entries, dayOf), SelectedKey(selected, dayOf))
  }

  /** The selected day's entries with the given template (`"1"` morning,
      `"2"` evening), in the order they were created. */
  function EntriesWith(entries: seq<Entry>, dayOf: int -> string, selected: Option<int>, templateId: string): seq<Entry> {
    Seqs.Filter(SelectedEntries(entries, dayOf, selected), JournalCard.WithTemplate(templateId))
  }

  /** The selected day's list shows exactly the entries of that day with
      the template. */
  lemma EntriesWithExact(entries: seq<Entry>, dayOf: int -> string, d: int, templateId: string, e: Entry)
    ensures e in EntriesWith(entries, dayOf, Some(d), templateId)
      <==> e in entries && dayOf(e.timestamp) == dayOf(d) && JournalCard.HasTemplate(e, templateId)
  {
    var b := SelectedEntries(entries, dayOf, Some(d));
    Seqs.FilterMembership(b, JournalCard.WithTemplate(templateId), e);
    if e in b {
      Grouping.BucketItemsFromInput(entries, Dashboard.DayKey(dayOf), e, dayOf(d));
    }
    if e in entries {
      Grouping.ExactlyOneBucket(entries, Dashboard.DayKey(dayOf), e, dayOf(d));
    }
  }

  /** With no day selected the lists are empty, as long as no entry's day
      is the empty key. */
  lemma NothingSelected(entries: seq<Entry>, dayOf: int -> string)
    requires forall e :: e in entries ==> dayOf(e.timestamp) != ""
    ensures SelectedEntries(entries, dayOf, None) == []
  {
    var g := Dashboard.ByDate(entries, dayOf);
    Grouping.GroupedGet(entries, Dashboard.DayKey(dayOf), "");
    assert !Grouping.Occurs(entries, Dashboard.DayKey(dayOf), "") by {
      assert forall i :: 0 <= i < |entries| ==> entries[i] in entries;
    }
  }

  /** `hasMorningEntry` and `hasEveningEntry`:
      `entriesByDate[day]?.some(e => e.templateId === id) || false`. */
  predicate HasEntryWith(g: Records.Record<seq<Entry>>, day: string, templateId: string) {
    match Records.Get(g, day)
    case None => false
    case Some(b) => exists e :: e in b && JournalCard.HasTemplate(e, templateId)
  }

  /** A day gets its dot exactly when one of its entries has the template. */
  lemma HasEntryWithIff(entries: seq<Entry>, dayOf: int -> string, day: string, templateId: string)
    ensures HasEntryWith(Dashboard.ByDate(entries, dayOf), day, templateId)
      <==> exists e :: e in entries && dayOf(e.timestamp) == day && JournalCard.HasTemplate(e, templateId)
  {
    var g := Dashboard.ByDate(entries, dayOf);
    var keyOf := Dashboard.DayKey(dayOf);
    Grouping.GroupedGet(entries, keyOf, day);
    if HasEntryWith(g, day, templateId) {
      var e :| e in Grouping.Bucket(g, day) && JournalCard.HasTemplate(e, templateId);
      Grouping.BucketItemsFromInput(entries, keyOf, e, day);
    }
    if e :| e in entries && dayOf(e.timestamp) == day && JournalCard.HasTemplate(e, templateId) {
      var i :| 0 <= i < |entries| && entries[i] == e;
      assert keyOf(entries[i]) == day;
      Grouping.ExactlyOneBucket(entries, keyOf, e, day);
    }
  }

  /** The "add" badge of the selected day (`!entries.length`) shows exactly
      when that day has no dot of the same template. */
  lemma BadgeIffNoDot(entries: seq<Entry>, dayOf: int -> string, d: int, templateId: string)
    ensures EntriesWith(entries, dayOf, Some(d), templateId) == []
      <==> !HasEntryWith(Dashboard.ByDate(entries, dayOf), dayOf(d), templateId)
  {
    HasEntryWithIff(entries, dayOf, dayOf(d), templateId);
    var r := EntriesWith(entries, dayOf, Some(d), templateId);
    if r != [] {
      EntriesWithExact(entries, dayOf, d, templateId, r[0]);
    }
    if e :| e in entries && dayOf(e.timestamp) == dayOf(d) && JournalCard.HasTemplate(e, templateId) {
      EntriesWithExact(entries, dayOf, d, templateId, e);
    }
  }

  /** `handleDeleteEntry`: the entry is deleted only when the user
      confirms. */
  method HandleDeleteEntry(store: JournalStore.Store, id: string, confirmed: bool)
    modifies store
    ensures confirmed ==> store.state == JournalStore.WithEntryDeleted(old(store.state), id)
    ensures !confirmed ==> store.state == old(store.state)
    ensures store.user == old(store.user)
  {
    if confirmed {
      store.DeleteEntry(id);
    }
  }

  /** `createEntryForDate`: the new-entry link for the selected day, none
      when no day is selected. */
  function CreateEntryLink(selected: Option<int>, dayOf: int -> string, t: TemplateType): (link: Option<string>)
    ensures link.Some? <==> selected.Some?
  {
    match selected
    case None => None
    case Some(d) => Some("/entry/new?type=" + TemplateTypeName(t) + "&date=" + dayOf(d))
  }
}
