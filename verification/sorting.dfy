/** `Array.prototype.sort` with a comparator of the form
    `(a, b) => key(b) - key(a)`, as the timeline and the dashboard use it:
    newest (largest key) first. ECMAScript requires `sort` to be stable
    (section 23.1.3.30 of ECMA-262), so the result is fully determined: it
    is the stable insertion sort below, which is proved sorted, a
    permutation of its input and stable. */
module Sorting {
  import Seqs

  /** Keys never increase from left to right. */
  ghost predicate SortedDesc<T>(s: seq<T>, key: T -> int) {
    forall i, j :: 0 <= i < j < |s| ==> key(s[i]) >= key(s[j])
  }

  /** The elements whose key is `v`. */
  function KeyIs<T>(key: T -> int, v: int): T -> bool {
    y => key(y) == v
  }

  /** Where `x` goes: after the last element whose key is at least `key(x)`. */
  function InsertPos<T>(s: seq<T>, x: T, key: T -> int): (p: nat)
    ensures p <= |s|
    ensures forall i :: p <= i < |s| ==> key(s[i]) < key(x)
    ensures p > 0 ==> key(s[p - 1]) >= key(x)
  {
    if s == [] then 0
    else if key(s[|s| - 1]) >= key(x) then |s|
    else InsertPos(s[..|s| - 1], x, key)
  }

  /** One step of insertion sort. */
  function InsertDesc<T>(s: seq<T>, x: T, key: T -> int): (r: seq<T>)
    ensures |r| == |s| + 1
    ensures multiset(r) == multiset(s) + multiset{x}
  {
    var p := InsertPos(s, x, key);
    assert s == s[..p] + s[p..];
    s[..p] + [x] + s[p..]
  }

  /** The result of sorting `s` newest first. */
  function SortDesc<T>(s: seq<T>, key: T -> int): (r: seq<T>)
    ensures |r| == |s|
    ensures multiset(r) == multiset(s)
  {
    if s == [] then []
    else
      var init := s[..|s| - 1];
      assert s == init + [s[|s| - 1]];
      InsertDesc(SortDesc(init, key), s[|s| - 1], key)
  }

  /** Inserting into a newest-first sequence keeps it newest first. */
  lemma InsertDescSorted<T>(s: seq<T>, x: T, key: T -> int)
    requires SortedDesc(s, key)
    ensures SortedDesc(InsertDesc(s, x, key), key)
  {
    var p := InsertPos(s, x, key);
    var a, b := s[..p], s[p..];
    assert forall i :: 0 <= i < |a| ==> key(a[i]) >= key(x) by {
      forall i | 0 <= i < |a| ensures key(a[i]) >= key(x) {
        assert key(s[i]) >= key(s[p - 1]);
      }
    }
    assert forall j :: 0 <= j < |b| ==> key(b[j]) < key(x);
    JoinSorted(a, x, b, key);
  }

  lemma JoinSorted<T>(a: seq<T>, x: T, b: seq<T>, key: T -> int)
    requires SortedDesc(a + b, key)
    requires forall i :: 0 <= i < |a| ==> key(a[i]) >= key(x)
    requires forall j :: 0 <= j < |b| ==> key(b[j]) <= key(x)
    ensures SortedDesc(a + [x] + b, key)
  {
    var r := a + [x] + b;
    forall i, j | 0 <= i < j < |r| ensures key(r[i]) >= key(r[j]) {
      if j < |a| {
        assert r[i] == (a + b)[i] && r[j] == (a + b)[j];
      } else if i > |a| {
        assert r[i] == (a + b)[i - 1] && r[j] == (a + b)[j - 1];
      } else if i < |a| && j == |a| {
      } else if i < |a| {
        assert r[j] == b[j - |a| - 1];
      } else {
        assert r[j] == b[j - |a| - 1];
      }
    }
  }

  /** The sorted result really is newest first. */
  lemma {:induction false} SortDescSorted<T>(s: seq<T>, key: T -> int)
    ensures SortedDesc(SortDesc(s, key), key)
  {
    if s != [] {
      SortDescSorted(s[..|s| - 1], key);
      InsertDescSorted(SortDesc(s[..|s| - 1], key), s[|s| - 1], key);
    }
  }

  /** Inserting `x` appends it to the run of elements that share its key:
      `same` is any filter that admits only elements with `x`'s key when it
      admits `x`. */
  lemma InsertDescStable<T>(s: seq<T>, x: T, key: T -> int, same: T -> bool)
    requires same(x) ==> forall y :: same(y) ==> key(y) == key(x)
    ensures Seqs.Filter(InsertDesc(s, x, key), same)
         == Seqs.Filter(s, same) + (if same(x) then [x] else [])
  {
    var p := InsertPos(s, x, key);
    var fa, fb := Seqs.Filter(s[..p], same), Seqs.Filter(s[p..], same);
    InsertDescParts(s, x, key, same);
    Seqs.FilterSplit(s, p, same);
    Seqs.FilterSingleton(x, same);
    if same(x) {
      assert fb == [] by {
        AfterInsertPosNone(s, x, key, same);
      }
      assert fa + [x] + fb == fa + fb + [x];
    } else {
      assert fa + [] + fb == fa + fb;
    }
  }

  /** Everything after the insertion point has a smaller key than `x`, so a
      filter that only admits `x`'s key admits none of it. */
  lemma AfterInsertPosNone<T>(s: seq<T>, x: T, key: T -> int, same: T -> bool)
    requires forall y :: same(y) ==> key(y) == key(x)
    ensures Seqs.Filter(s[InsertPos(s, x, key)..], same) == []
  {
    var p := InsertPos(s, x, key);
    var b := s[p..];
    forall i | 0 <= i < |b| ensures !same(b[i]) {
      assert b[i] == s[p + i];
    }
    Seqs.FilterNonePass(b, same);
  }

  /** `InsertDesc` splices `x` in at `InsertPos`, so a filter sees three parts. */
  lemma InsertDescParts<T>(s: seq<T>, x: T, key: T -> int, keep: T -> bool)
    ensures var p := InsertPos(s, x, key);
      Seqs.Filter(InsertDesc(s, x, key), keep)
      == Seqs.Filter(s[..p], keep) + Seqs.Filter([x], keep) + Seqs.Filter(s[p..], keep)
  {
    var p := InsertPos(s, x, key);
    FilterSplice(s[..p], x, s[p..], keep);
  }

  /** Filtering `a + [x] + b` filters the three parts separately. */
  lemma FilterSplice<T>(a: seq<T>, x: T, b: seq<T>, keep: T -> bool)
    ensures Seqs.Filter(a + [x] + b, keep)
         == Seqs.Filter(a, keep) + Seqs.Filter([x], keep) + Seqs.Filter(b, keep)
  {
    Seqs.FilterAppend(a + [x], b, keep);
    Seqs.FilterAppend(a, [x], keep);
  }

  /** Sorting is stable: the elements whose key is `v` come out in the
      order they went in. */
  lemma {:induction false} SortDescStable<T>(s: seq<T>, key: T -> int, v: int)
    ensures Seqs.Filter(SortDesc(s, key), KeyIs(key, v)) == Seqs.Filter(s, KeyIs(key, v))
  {
    if s != [] {
      var init, last := s[..|s| - 1], s[|s| - 1];
      var same := KeyIs(key, v);
      assert Seqs.Filter(s, same) == Seqs.Filter(init, same) + (if same(last) then [last] else []);
      SortDescStable(init, key, v);
      InsertDescStable(SortDesc(init, key), last, key, same);
    }
  }

  /** An already sorted sequence is left as it is. */
  lemma {:induction false} SortDescOfSorted<T>(s: seq<T>, key: T -> int)
    requires SortedDesc(s, key)
    ensures SortDesc(s, key) == s
  {
    if s != [] {
      var init := s[..|s| - 1];
      assert SortedDesc(init, key);
      SortDescOfSorted(init, key);
      assert s == init + [s[|s| - 1]];
    }
  }
}
