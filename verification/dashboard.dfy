/** The dashboard: entries grouped by day (`format(timestamp, 'yyyy-MM-dd')`,
    the parameter `dayOf`), the days newest first (`new Date(key).getTime()`,
    the parameter `dateValue`), a morning and an evening tab that show only
    the days holding an entry of their template, and the confirmed delete of
    an entry. */
module Dashboard {
  import opened Optional
  import opened Types
  import Text
  import Records
  import Seqs
  import Sorting
  import Grouping
  import JournalCard
  import JournalStore
  import ConfirmDelete

  function DayKey(dayOf: int -> string): Entry -> string {
    (e: Entry) => dayOf(e.timestamp)
  }

  /** `entriesByDate`. */
  function ByDate(entries: seq<Entry>, dayOf: int -> string): Records.Record<seq<Entry>> {
    Grouping.Grouped(entries, DayKey(dayOf))
  }

  /** `sortedDates`. */
  function SortedDates(g: Records.Record<seq<Entry>>, dateValue: string -> int): seq<string> {
    Sorting.SortDesc(Records.Keys(g), dateValue)
  }

  /** The days are listed newest first, each day that has an entry exactly
      once, and no other day. */
  lemma SortedDatesShape(entries: seq<Entry>, dayOf: int -> string, dateValue: string -> int, d: string)
    ensures var ds := SortedDates(ByDate(entries, dayOf), dateValue);
      && Sorting.SortedDesc(ds, dateValue)
      && Seqs.Distinct(ds)
      && (d in ds <==> Grouping.Occurs(entries, DayKey(dayOf), d))
  {
    var g := ByDate(entries, dayOf);
    var ks := Records.Keys(g);
    var ds := SortedDates(g, dateValue);
    Sorting.SortDescSorted(ks, dateValue);
    Grouping.GroupedWellFormed(entries, DayKey(dayOf));
    assert Seqs.Distinct(ks) by {
      assert forall i :: 0 <= i < |g| ==> ks[i] == g[i].key;
    }
    Seqs.DistinctPermutation(ks, ds);
    Grouping.GroupedKeys(entries, DayKey(dayOf), d);
    assert d in ds <==> d in ks by {
      assert d in ds <==> d in multiset(ds);
      assert d in ks <==> d in multiset(ks);
    }
  }

  /** The morning (`"1"`) or evening (`"2"`) tab: for each day in order, the
      entries of that day with the template, days without any skipped. */
  function Sections(g: Records.Record<seq<Entry>>, dates: seq<string>, templateId: string): (r: Records.Record<seq<Entry>>)
    ensures |r| <= |dates|
  {
    if dates == [] then []
    else
      var b := Seqs.Filter(Grouping.Bucket(g, dates[0]), JournalCard.WithTemplate(templateId));
      (if b == [] then [] else [Records.Field(dates[0], b)]) + Sections(g, dates[1..], templateId)
  }

  /** A section is shown exactly for a listed day whose entries include one
      with the template, and holds just those entries. */
  lemma {:induction false} SectionsMembership(g: Records.Record<seq<Entry>>, dates: seq<string>, templateId: string, f: Records.Field<seq<Entry>>)
    ensures f in Sections(g, dates, templateId) <==>
      && f.key in dates
      && f.value == Seqs.Filter(Grouping.Bucket(g, f.key), JournalCard.WithTemplate(templateId))
      && f.value != []
  {
    if dates != [] {
      SectionsMembership(g, dates[1..], templateId, f);
      assert dates == [dates[0]] + dates[1..];
    }
  }

  /** The tab's test: `sortedDates.some(d => entriesByDate[d].some(e => e.templateId === id))`. */
  predicate TabHasAny(g: Records.Record<seq<Entry>>, dates: seq<string>, templateId: string) {
    exists d :: d in dates && exists e :: e in Grouping.Bucket(g, d) && JournalCard.HasTemplate(e, templateId)
  }

  /** The tab shows its empty message exactly when it would show no
      section. */
  lemma TabHasAnyIffSections(g: Records.Record<seq<Entry>>, dates: seq<string>, templateId: string)
    ensures TabHasAny(g, dates, templateId) <==> Sections(g, dates, templateId) != []
  {
    var keep := JournalCard.WithTemplate(templateId);
    if TabHasAny(g, dates, templateId) {
      var d, e :| d in dates && e in Grouping.Bucket(g, d) && JournalCard.HasTemplate(e, templateId);
      var b := Seqs.Filter(Grouping.Bucket(g, d), keep);
      Seqs.FilterMembership(Grouping.Bucket(g, d), keep, e);
      SectionsMembership(g, dates, templateId, Records.Field(d, b));
    }
    if Sections(g, dates, templateId) != [] {
      var f := Sections(g, dates, templateId)[0];
      SectionsMembership(g, dates, templateId, f);
      Seqs.FilterMembership(Grouping.Bucket(g, f.key), keep, f.value[0]);
    }
  }

  /** The tab has something to show exactly when some entry has the
      template, and every such entry is shown under its own day. */
  lemma TabShowsTemplateEntries(entries: seq<Entry>, dayOf: int -> string, dateValue: string -> int, templateId: string)
    ensures TabHasAny(ByDate(entries, dayOf), SortedDates(ByDate(entries, dayOf), dateValue), templateId)
      <==> exists e :: e in entries && JournalCard.HasTemplate(e, templateId)
  {
    var g := ByDate(entries, dayOf);
    var ds := SortedDates(g, dateValue);
    if e :| e in entries && JournalCard.HasTemplate(e, templateId) {
      var d := dayOf(e.timestamp);
      var i :| 0 <= i < |entries| && entries[i] == e;
      assert Grouping.Occurs(entries, DayKey(dayOf), d) by {
        assert DayKey(dayOf)(entries[i]) == d;
      }
      SortedDatesShape(entries, dayOf, dateValue, d);
      Grouping.ExactlyOneBucket(entries, DayKey(dayOf), e, d);
      assert d in ds && e in Grouping.Bucket(g, d);
    }
    if TabHasAny(g, ds, templateId) {
      var d, e :| d in ds && e in Grouping.Bucket(g, d) && JournalCard.HasTemplate(e, templateId);
      Grouping.BucketItemsFromInput(entries, DayKey(dayOf), e, d);
    }
  }

  /** An entry with the template is listed in its day's section. */
  lemma EntryInItsSection(entries: seq<Entry>, dayOf: int -> string, dateValue: string -> int, templateId: string, e: Entry)
    requires e in entries && JournalCard.HasTemplate(e, templateId)
    ensures var g := ByDate(entries, dayOf);
      var d := dayOf(e.timestamp);
      var f := Records.Field(d, Seqs.Filter(Grouping.Bucket(g, d), JournalCard.WithTemplate(templateId)));
      f in Sections(g, SortedDates(g, dateValue), templateId) && e in f.value
  {
    var g := ByDate(entries, dayOf);
    var d := dayOf(e.timestamp);
    var keep := JournalCard.WithTemplate(templateId);
    var i :| 0 <= i < |entries| && entries[i] == e;
    assert Grouping.Occurs(entries, DayKey(dayOf), d) by {
      assert DayKey(dayOf)(entries[i]) == d;
    }
    SortedDatesShape(entries, dayOf, dateValue, d);
    Grouping.ExactlyOneBucket(entries, DayKey(dayOf), e, d);
    Seqs.FilterMembership(Grouping.Bucket(g, d), keep, e);
    SectionsMembership(g, SortedDates(g, dateValue), templateId, Records.Field(d, Seqs.Filter(Grouping.Bucket(g, d), keep)));
  }

  /** The cards of all days together are as many as the displayed total,
      `state.entries.length`. */
  lemma CardsMatchTotal(entries: seq<Entry>, dayOf: int -> string)
    ensures Grouping.Total(ByDate(entries, dayOf)) == |entries|
  {
    Grouping.GroupedTotal(entries, DayKey(dayOf));
  }

  /** `confirmDeleteEntry`: deletes exactly the pending entry when there is
      a truthy one, then closes the dialog and clears it; otherwise nothing
      happens. */
  method ConfirmDeleteEntry(dialog: ConfirmDelete.Dialog, store: JournalStore.Store)
    modifies dialog, store
    ensures Text.Truthy(old(dialog.pending)) ==>
      && store.state == JournalStore.WithEntryDeleted(old(store.state), old(dialog.pending).value)
      && !dialog.isOpen && dialog.pending == None
    ensures !Text.Truthy(old(dialog.pending)) ==>
      && store.state == old(store.state)
      && dialog.isOpen == old(dialog.isOpen) && dialog.pending == old(dialog.pending)
    ensures store.user == old(store.user)
  {
    var target := dialog.Confirm();
    if target.Some? {
      store.DeleteEntry(target.value);
    }
  }
}
