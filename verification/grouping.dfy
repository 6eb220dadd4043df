/** `entries.reduce((acc, e) => { if (!acc[k]) acc[k] = []; acc[k].push(e); return acc }, {})`
    as the timeline, the dashboard and the calendar write it: a record of
    buckets keyed by a date key. Each bucket holds exactly the items with
    its key, in their original order. */
module Grouping {
  import opened Optional
  import Records
  import Seqs

  /** The items whose key is `k`. */
  function HasKey<T>(keyOf: T -> string, k: string): T -> bool {
    (x: T) => keyOf(x) == k
  }

  /** Some item has key `k`. */
  predicate Occurs<T>(s: seq<T>, keyOf: T -> string, k: string) {
    exists i :: 0 <= i < |s| && keyOf(s[i]) == k
  }

  /** One reducer step: create the bucket when missing, then push. */
  function Pushed<T>(acc: Records.Record<seq<T>>, k: string, x: T): Records.Record<seq<T>> {
    Records.Put(acc, k, Records.Get(acc, k).GetOr([]) + [x])
  }

  /** The reduction over `s`. */
  function Grouped<T>(s: seq<T>, keyOf: T -> string): Records.Record<seq<T>> {
    if s == [] then [] else Pushed(Grouped(s[..|s| - 1], keyOf), keyOf(s[|s| - 1]), s[|s| - 1])
  }

  /** The reducer as a loop over the items. */
  method GroupBy<T>(s: seq<T>, keyOf: T -> string) returns (acc: Records.Record<seq<T>>)
    ensures acc == Grouped(s, keyOf)
  {
    acc := [];
    var i := 0;
    while i < |s|
      invariant 0 <= i <= |s|
      invariant acc == Grouped(s[..i], keyOf)
    {
      assert s[..i + 1][..i] == s[..i];
      var k := keyOf(s[i]);
      var bucket := Records.Get(acc, k).GetOr([]);
      acc := Records.Put(acc, k, bucket + [s[i]]);
      i := i + 1;
    }
    assert s[..i] == s;
  }

  /** The record of buckets has distinct keys. */
  lemma {:induction false} GroupedWellFormed<T>(s: seq<T>, keyOf: T -> string)
    ensures Records.WellFormed(Grouped(s, keyOf))
  {
    if s != [] {
      var init, x := s[..|s| - 1], s[|s| - 1];
      var g := Grouped(init, keyOf);
      GroupedWellFormed(init, keyOf);
      Records.PutWellFormed(g, keyOf(x), Records.Get(g, keyOf(x)).GetOr([]) + [x]);
    }
  }

  /** The bucket of `k` is exactly the items with key `k`, in order, and
      there is a bucket exactly when some item has that key. */
  lemma GroupedGet<T>(s: seq<T>, keyOf: T -> string, k: string)
    ensures Records.Get(Grouped(s, keyOf), k)
         == if Occurs(s, keyOf, k) then Some(Seqs.Filter(s, HasKey(keyOf, k))) else None
  {
    GroupedGetBy(s, keyOf, k, HasKey(keyOf, k));
  }

  lemma {:induction false} GroupedGetBy<T>(s: seq<T>, keyOf: T -> string, k: string, keep: T -> bool)
    requires forall x :: keep(x) == (keyOf(x) == k)
    ensures Records.Get(Grouped(s, keyOf), k)
         == if Occurs(s, keyOf, k) then Some(Seqs.Filter(s, keep)) else None
  {
    if s != [] {
      var init, x := s[..|s| - 1], s[|s| - 1];
      var g := Grouped(init, keyOf);
      GroupedGetBy(init, keyOf, k, keep);
      OccursLast(s, keyOf, k);
      assert Grouped(s, keyOf) == Pushed(g, keyOf(x), x);
      assert Seqs.Filter(s, keep) == Seqs.Filter(init, keep) + (if keep(x) then [x] else []);
      PushStep(g, init, x, keyOf, k, keep);
    }
  }

  /** The induction step of `GroupedGetBy`, with the recursive facts as
      hypotheses. */
  lemma PushStep<T>(g: Records.Record<seq<T>>, init: seq<T>, x: T, keyOf: T -> string, k: string, keep: T -> bool)
    requires forall y :: keep(y) == (keyOf(y) == k)
    requires Records.Get(g, k) == if Occurs(init, keyOf, k) then Some(Seqs.Filter(init, keep)) else None
    ensures Records.Get(Pushed(g, keyOf(x), x), k)
         == if Occurs(init, keyOf, k) || keyOf(x) == k
            then Some(Seqs.Filter(init, keep) + (if keep(x) then [x] else []))
            else None
  {
    GetAfterPush(g, keyOf(x), x, k);
    assert keep(x) == (keyOf(x) == k);
    if keyOf(x) == k {
      var before := Records.Get(g, k).GetOr([]);
      if !Occurs(init, keyOf, k) {
        forall i | 0 <= i < |init| ensures !keep(init[i]) {
          assert keyOf(init[i]) != k;
        }
        Seqs.FilterNonePass(init, keep);
      }
      assert before == Seqs.Filter(init, keep);
      assert Records.Get(Pushed(g, keyOf(x), x), k) == Some(before + [x]);
    } else {
      assert Seqs.Filter(init, keep) + [] == Seqs.Filter(init, keep);
    }
  }

  lemma OccursLast<T>(s: seq<T>, keyOf: T -> string, k: string)
    requires s != []
    ensures Occurs(s, keyOf, k) <==> Occurs(s[..|s| - 1], keyOf, k) || keyOf(s[|s| - 1]) == k
  {
    var init := s[..|s| - 1];
    if Occurs(s, keyOf, k) && keyOf(s[|s| - 1]) != k {
      var i :| 0 <= i < |s| && keyOf(s[i]) == k;
      assert init[i] == s[i];
    }
    if Occurs(init, keyOf, k) {
      var i :| 0 <= i < |init| && keyOf(init[i]) == k;
      assert s[i] == init[i];
    }
  }

  /** One reducer step changes only the bucket it pushes to. */
  lemma GetAfterPush<T>(g: Records.Record<seq<T>>, kx: string, x: T, k: string)
    ensures Records.Get(Pushed(g, kx, x), k)
         == if kx == k then Some(Records.Get(g, k).GetOr([]) + [x]) else Records.Get(g, k)
  {
    var bucket := Records.Get(g, kx).GetOr([]);
    if kx == k {
      Records.PutGet(g, k, bucket + [x]);
    } else {
      Records.PutOther(g, kx, bucket + [x], k);
    }
  }

  /** The bucket of `k`, empty when there is none (`acc[k] || []`). */
  function Bucket<T>(g: Records.Record<seq<T>>, k: string): seq<T> {
    Records.Get(g, k).GetOr([])
  }

  /** Every item lands in exactly one bucket, its own key's. */
  lemma ExactlyOneBucket<T>(s: seq<T>, keyOf: T -> string, x: T, k: string)
    requires x in s
    ensures x in Bucket(Grouped(s, keyOf), k) <==> keyOf(x) == k
  {
    GroupedGet(s, keyOf, k);
    Seqs.FilterMembership(s, HasKey(keyOf, k), x);
  }

  /** An item is in some bucket only if it was among the items. */
  lemma BucketItemsFromInput<T>(s: seq<T>, keyOf: T -> string, x: T, k: string)
    requires x in Bucket(Grouped(s, keyOf), k)
    ensures x in s && keyOf(x) == k
  {
    GroupedGet(s, keyOf, k);
    Seqs.FilterMembership(s, HasKey(keyOf, k), x);
  }

  /** The bucket keys are exactly the keys that occur. */
  lemma GroupedKeys<T>(s: seq<T>, keyOf: T -> string, k: string)
    ensures k in Records.Keys(Grouped(s, keyOf)) <==> Occurs(s, keyOf, k)
  {
    GroupedGet(s, keyOf, k);
  }

  /** No items, no buckets. */
  lemma GroupedEmpty<T>(keyOf: T -> string)
    ensures Grouped([], keyOf) == []
  {
  }

  /** The number of items held in all buckets together. */
  function Total<T>(g: Records.Record<seq<T>>): nat {
    if g == [] then 0 else |g[0].value| + Total(g[1..])
  }

  /** Totals add up over concatenation. */
  lemma {:induction false} TotalAppend<T>(a: Records.Record<seq<T>>, b: Records.Record<seq<T>>)
    ensures Total(a + b) == Total(a) + Total(b)
  {
    if a != [] {
      assert (a + b)[0] == a[0] && (a + b)[1..] == a[1..] + b;
      TotalAppend(a[1..], b);
    } else {
      assert a + b == b;
    }
  }

  /** Replacing the bucket of a key that occurs once changes the total by
      the difference of the two buckets. */
  lemma {:induction false} TotalReplace<T>(r: Records.Record<seq<T>>, k: string, v: seq<T>)
    requires Records.WellFormed(r) && k in Records.Keys(r)
    ensures Total(Records.Replace(r, k, v)) + |Records.Get(r, k).value| == Total(r) + |v|
  {
    var r' := Records.Replace(r, k, v);
    assert r'[1..] == Records.Replace(r[1..], k, v);
    assert Records.WellFormed(r[1..]) by {
      assert forall a, b :: 0 <= a < b < |r| - 1 ==> r[1..][a] == r[a + 1] && r[1..][b] == r[b + 1];
    }
    if r[0].key == k {
      forall i | 0 <= i < |r| - 1 ensures r[1..][i].key != k {
        assert r[i + 1].key != r[0].key;
      }
      assert Records.Replace(r[1..], k, v) == r[1..];
    } else {
      assert k in Records.Keys(r[1..]) by {
        var i :| 0 <= i < |r| && Records.Keys(r)[i] == k;
        assert Records.Keys(r[1..])[i - 1] == k;
      }
      TotalReplace(r[1..], k, v);
    }
  }

  /** Writing a bucket changes the total by the difference between the new
      bucket and the old one (empty when the key was absent). */
  lemma TotalPut<T>(r: Records.Record<seq<T>>, k: string, v: seq<T>)
    requires Records.WellFormed(r)
    ensures Total(Records.Put(r, k, v)) + |Records.Get(r, k).GetOr([])| == Total(r) + |v|
  {
    if k in Records.Keys(r) {
      TotalReplace(r, k, v);
    } else if Records.IsIndexKey(k) {
      var p := Records.InsertPos(r, k);
      TotalAppend(r[..p] + [Records.Field(k, v)], r[p..]);
      TotalAppend(r[..p], [Records.Field(k, v)]);
      TotalAppend(r[..p], r[p..]);
      assert r[..p] + r[p..] == r;
    } else {
      TotalAppend(r, [Records.Field(k, v)]);
    }
  }

  /** Grouping loses and duplicates nothing: the buckets hold as many items
      as the input. */
  lemma {:induction false} GroupedTotal<T>(s: seq<T>, keyOf: T -> string)
    ensures Total(Grouped(s, keyOf)) == |s|
  {
    if s != [] {
      var init, x := s[..|s| - 1], s[|s| - 1];
      var g := Grouped(init, keyOf);
      GroupedTotal(init, keyOf);
      GroupedWellFormed(init, keyOf);
      TotalPut(g, keyOf(x), Records.Get(g, keyOf(x)).GetOr([]) + [x]);
    }
  }
}
