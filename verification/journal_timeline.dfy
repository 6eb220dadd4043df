/** The timeline: entries grouped by month, each month's entries newest
    first, months ordered by their newest entry, and each entry shown with
    a tag-stripped preview of its first answer cut at 120 characters.
    `format(date, 'MMMM yyyy')` is the parameter `monthOf`. */
module JournalTimeline {
  import opened Optional
  import opened Types
  import Records
  import Seqs
  import Sorting
  import Grouping
  import JournalCard
  import Text

  function Stamp(e: Entry): int {
    e.timestamp
  }

  function MonthKey(monthOf: int -> string): Entry -> string {
    (e: Entry) => monthOf(e.timestamp)
  }

  /** The groups with every group's entries sorted newest first. */
  function SortEach(g: Records.Record<seq<Entry>>): (r: Records.Record<seq<Entry>>)
    ensures |r| == |g|
    ensures forall i :: 0 <= i < |g| ==> r[i] == Records.Field(g[i].key, Sorting.SortDesc(g[i].value, Stamp))
  {
    seq(|g|, i requires 0 <= i < |g| => Records.Field(g[i].key, Sorting.SortDesc(g[i].value, Stamp)))
  }

  /** The timestamp a group is ordered by: its first entry's. */
  function Newest(g: Records.Record<seq<Entry>>): string -> int {
    (k: string) => var b := Grouping.Bucket(g, k); if b == [] then 0 else b[0].timestamp
  }

  /** The groups and the order in which they are shown. */
  function Timeline(entries: seq<Entry>, monthOf: int -> string): (Records.Record<seq<Entry>>, seq<string>) {
    var g := SortEach(Grouping.Grouped(entries, MonthKey(monthOf)));
    (g, Sorting.SortDesc(Records.Keys(g), Newest(g)))
  }

  /** The component's computation: the reduce, the `forEach` that sorts
      each group in place, and the sort of the group keys. */
  method BuildTimeline(entries: seq<Entry>, monthOf: int -> string)
    returns (groups: Records.Record<seq<Entry>>, order: seq<string>)
    ensures (groups, order) == Timeline(entries, monthOf)
  {
    groups := Grouping.GroupBy(entries, MonthKey(monthOf));
    ghost var g0 := groups;
    Grouping.GroupedWellFormed(entries, MonthKey(monthOf));
    var keys := Records.Keys(groups);
    var i := 0;
    while i < |keys|
      invariant 0 <= i <= |keys| == |g0| == |groups|
      invariant Records.WellFormed(groups)
      invariant forall j :: 0 <= j < i ==> groups[j] == Records.Field(g0[j].key, Sorting.SortDesc(g0[j].value, Stamp))
      invariant forall j :: i <= j < |groups| ==> groups[j] == g0[j]
    {
      assert keys[i] == groups[i].key;
      Records.PutExisting(groups, i, Sorting.SortDesc(groups[i].value, Stamp));
      Records.GetAt(groups, i);
      groups := Records.Put(groups, keys[i], Sorting.SortDesc(Records.Get(groups, keys[i]).value, Stamp));
      i := i + 1;
    }
    assert groups == SortEach(g0);
    order := Sorting.SortDesc(Records.Keys(groups), Newest(groups));
  }

  /** Every entry is in exactly one month group, its own month's, and every
      group is newest first. */
  lemma TimelineGroups(entries: seq<Entry>, monthOf: int -> string, e: Entry, k: string)
    requires e in entries
    ensures var g := Timeline(entries, monthOf).0;
      && (e in Grouping.Bucket(g, k) <==> monthOf(e.timestamp) == k)
      && Sorting.SortedDesc(Grouping.Bucket(g, k), Stamp)
  {
    var g0 := Grouping.Grouped(entries, MonthKey(monthOf));
    var b0 := Grouping.Bucket(g0, k);
    Grouping.ExactlyOneBucket(entries, MonthKey(monthOf), e, k);
    SortEachBucket(g0, k);
    var b := Sorting.SortDesc(b0, Stamp);
    assert multiset(b) == multiset(b0);
    assert e in b <==> e in b0 by {
      assert e in b <==> e in multiset(b);
      assert e in b0 <==> e in multiset(b0);
    }
    Sorting.SortDescSorted(b0, Stamp);
  }

  /** The months are listed newest first, each month once. */
  lemma TimelineOrder(entries: seq<Entry>, monthOf: int -> string)
    ensures var (g, order) := Timeline(entries, monthOf);
      && Sorting.SortedDesc(order, Newest(g))
      && multiset(order) == multiset(Records.Keys(g))
  {
    var g := Timeline(entries, monthOf).0;
    Sorting.SortDescSorted(Records.Keys(g), Newest(g));
  }

  /** Sorting each group sorts the bucket found under each key. */
  lemma SortEachBucket(g: Records.Record<seq<Entry>>, k: string)
    ensures Grouping.Bucket(SortEach(g), k) == Sorting.SortDesc(Grouping.Bucket(g, k), Stamp)
  {
    SortEachGet(g, k);
  }

  /** Looking a key up after sorting every group finds the sorted group. */
  lemma {:induction false} SortEachGet(g: Records.Record<seq<Entry>>, k: string)
    ensures Records.Get(SortEach(g), k)
      == if Records.Get(g, k).Some? then Some(Sorting.SortDesc(Records.Get(g, k).value, Stamp)) else None
  {
    if g != [] {
      assert SortEach(g)[1..] == SortEach(g[1..]);
      SortEachGet(g[1..], k);
    }
  }

  /** No entries, no groups. */
  lemma EmptyTimeline(monthOf: int -> string)
    ensures Timeline([], monthOf) == ([], [])
  {
  }

  /** `value.replace(/<[^>]*>?/gm, '')`: each `<` is removed together with
      everything up to and including the next `>`, or up to the end when no
      `>` follows. */
  function StripTags(s: string): (r: string)
    ensures |r| <= |s|
    decreases |s|
  {
    if s == [] then []
    else if s[0] == '<' then StripTags(AfterTag(s[1..]))
    else [s[0]] + StripTags(s[1..])
  }

  /** What follows the first `>`, empty when there is none. */
  function AfterTag(s: string): (r: string)
    ensures |r| <= |s|
  {
    if s == [] then []
    else if s[0] == '>' then s[1..]
    else AfterTag(s[1..])
  }

  /** No `<` survives. */
  lemma {:induction false} StripTagsRemovesOpen(s: string)
    ensures '<' !in StripTags(s)
    decreases |s|
  {
    if s != [] {
      if s[0] == '<' {
        StripTagsRemovesOpen(AfterTag(s[1..]));
      } else {
        var t := StripTags(s[1..]);
        StripTagsRemovesOpen(s[1..]);
        assert StripTags(s) == [s[0]] + t;
      }
    }
  }

  /** Text without `<` is left alone. */
  lemma {:induction false} StripTagsPlain(s: string)
    requires '<' !in s
    ensures StripTags(s) == s
  {
    if s != [] {
      assert s[0] != '<' && '<' !in s[1..];
      StripTagsPlain(s[1..]);
      assert s == [s[0]] + s[1..];
    }
  }

  /** An unclosed `<` removes everything after it. */
  lemma {:induction false} UnclosedTagDropsRest(p: string, t: string)
    requires '<' !in p && '>' !in t
    ensures StripTags(p + ['<'] + t) == p
  {
    if p == [] {
      NoCloseAfterTag(t);
      assert [] + ['<'] + t == ['<'] + t;
    } else {
      assert (p + ['<'] + t)[1..] == p[1..] + ['<'] + t;
      UnclosedTagDropsRest(p[1..], t);
    }
  }

  lemma {:induction false} NoCloseAfterTag(t: string)
    requires '>' !in t
    ensures AfterTag(t) == []
  {
    if t != [] {
      NoCloseAfterTag(t[1..]);
    }
  }

  /** A tag closed by `>` ends just after that `>`. */
  lemma {:induction false} ClosedTagSkipped(t: string, rest: string)
    requires '>' !in t
    ensures AfterTag(t + ['>'] + rest) == rest
  {
    if t == [] {
      assert t + ['>'] + rest == ['>'] + rest;
    } else {
      assert (t + ['>'] + rest)[1..] == t[1..] + ['>'] + rest;
      ClosedTagSkipped(t[1..], rest);
    }
  }

  /** A closed tag `<...>` is removed, the text before it is kept as it is
      and the text after it is stripped in turn: `"a<b>c"` becomes `"ac"`. */
  lemma {:induction false} ClosedTagRemoved(p: string, t: string, rest: string)
    requires '<' !in p && '>' !in t
    ensures StripTags(p + ['<'] + t + ['>'] + rest) == p + StripTags(rest)
  {
    var s := p + ['<'] + t + ['>'] + rest;
    if p == [] {
      assert s == ['<'] + (t + ['>'] + rest);
      assert s[1..] == t + ['>'] + rest;
      ClosedTagSkipped(t, rest);
    } else {
      assert s[0] == p[0] && s[1..] == p[1..] + ['<'] + t + ['>'] + rest;
      ClosedTagRemoved(p[1..], t, rest);
      assert p == [p[0]] + p[1..];
    }
  }

  /** Stripping is idempotent. */
  lemma StripTagsIdempotent(s: string)
    ensures StripTags(StripTags(s)) == StripTags(s)
  {
    StripTagsRemovesOpen(s);
    StripTagsPlain(StripTags(s));
  }

  /** The preview line of an entry. */
  function Preview(e: Entry): string {
    Text.Truncate(StripTags(JournalCard.FirstAnswerValue(e.answers)), 120)
  }

  lemma PreviewShape(e: Entry)
    ensures var t, p := StripTags(JournalCard.FirstAnswerValue(e.answers)), Preview(e);
      && '<' !in (if |t| > 120 then p[..120] else p)
      && (|t| <= 120 ==> p == t)
      && (|t| > 120 ==> p == t[..120] + "...")
  {
    var t := StripTags(JournalCard.FirstAnswerValue(e.answers));
    StripTagsRemovesOpen(JournalCard.FirstAnswerValue(e.answers));
    if |t| > 120 {
      assert Preview(e)[..120] == t[..120];
    }
  }
}
