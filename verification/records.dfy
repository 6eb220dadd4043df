/** Plain JavaScript objects used as dictionaries (`Record<string, T>` in the
    source: the answers of an entry, the ratings of the entry form, the
    buckets of the timeline, dashboard and calendar).

    Such an object is modelled as the list of its own properties in
    enumeration order, the order `Object.keys`, `Object.values` and
    `Object.entries` report (section 10.1.11.1 of ECMA-262, OrdinaryOwnPropertyKeys):
    first the keys that are array indices, in ascending numeric order, then
    all other keys in the order they were first assigned. Assigning a key
    that is already present keeps its position. */
module Records {
  import Text
  import opened Optional

  datatype Field<V> = Field(key: string, value: V)

  type Record<V> = seq<Field<V>>

  /** A canonical numeral below 2^32 - 1: an array index. */
  predicate IsIndexKey(k: string) {
    && |k| > 0 && Text.AllDigits(k)
    && (|k| == 1 || k[0] != '0')
    && Text.DigitsValue(k) < 0xFFFF_FFFF
  }

  function IndexValue(k: string): nat
    requires IsIndexKey(k)
  {
    Text.DigitsValue(k)
  }

  /** The keys of a well-formed record are distinct, and its index keys come
      first, in ascending numeric order. */
  ghost predicate WellFormed<V>(r: Record<V>) {
    && (forall i, j :: 0 <= i < j < |r| ==> r[i].key != r[j].key)
    && (forall i, j :: 0 <= i < j < |r| && IsIndexKey(r[j].key) ==>
          IsIndexKey(r[i].key) && IndexValue(r[i].key) <= IndexValue(r[j].key))
  }

  /** `Object.keys(r)`. */
  function Keys<V>(r: Record<V>): (ks: seq<string>)
    ensures |ks| == |r| && forall i :: 0 <= i < |r| ==> ks[i] == r[i].key
  {
    seq(|r|, i requires 0 <= i < |r| => r[i].key)
  }

  /** `r[k]`, `undefined` when the key is absent. */
  function Get<V>(r: Record<V>, k: string): (o: Option<V>)
    ensures o.None? <==> k !in Keys(r)
  {
    if r == [] then None
    else if r[0].key == k then Some(r[0].value)
    else Get(r[1..], k)
  }

  /** Where a new index key goes: after every index key whose value is not
      larger, before the first larger one or the first non-index key. */
  function InsertPos<V>(r: Record<V>, k: string): (p: nat)
    requires IsIndexKey(k)
    ensures p <= |r|
    ensures forall i :: 0 <= i < p ==> IsIndexKey(r[i].key) && IndexValue(r[i].key) <= IndexValue(k)
    ensures p < |r| ==> !IsIndexKey(r[p].key) || IndexValue(r[p].key) > IndexValue(k)
  {
    if r == [] then 0
    else if !IsIndexKey(r[0].key) || IndexValue(r[0].key) > IndexValue(k) then 0
    else 1 + InsertPos(r[1..], k)
  }

  /** The value of the field with key `k` replaced in place. */
  function Replace<V>(r: Record<V>, k: string, v: V): (r': Record<V>)
    ensures |r'| == |r|
    ensures forall i :: 0 <= i < |r| ==> r'[i] == if r[i].key == k then Field(k, v) else r[i]
  {
    seq(|r|, i requires 0 <= i < |r| => if r[i].key == k then Field(k, v) else r[i])
  }

  /** `r[k] = v` (and `{...r, [k]: v}`, which enumerates the same way). */
  function Put<V>(r: Record<V>, k: string, v: V): Record<V> {
    if k in Keys(r) then Replace(r, k, v)
    else if IsIndexKey(k) then
      var p := InsertPos(r, k); r[..p] + [Field(k, v)] + r[p..]
    else
      r + [Field(k, v)]
  }

  /** In a well-formed record every stored field is what `Get` finds. */
  lemma {:induction false} GetAt<V>(r: Record<V>, i: nat)
    requires WellFormed(r) && i < |r|
    ensures Get(r, r[i].key) == Some(r[i].value)
  {
    if i > 0 {
      assert r[0].key != r[i].key;
      assert WellFormed(r[1..]) by {
        assert forall a, b :: 0 <= a < b < |r| - 1 ==> r[1..][a] == r[a + 1] && r[1..][b] == r[b + 1];
      }
      GetAt(r[1..], i - 1);
    }
  }

  /** `Get` finds the first field with the key. */
  lemma {:induction false} GetFirst<V>(r: Record<V>, i: nat)
    requires i < |r| && forall j :: 0 <= j < i ==> r[j].key != r[i].key
    ensures Get(r, r[i].key) == Some(r[i].value)
  {
    if i > 0 {
      GetFirst(r[1..], i - 1);
    }
  }

  /** Reading a key back after writing it gives the written value. */
  lemma PutGet<V>(r: Record<V>, k: string, v: V)
    ensures Get(Put(r, k, v), k) == Some(v)
  {
    var r' := Put(r, k, v);
    if k in Keys(r) {
      var i :| 0 <= i < |r| && Keys(r)[i] == k;
      var j := FirstWithKey(r, k, i);
      GetFirst(r', j);
    } else if IsIndexKey(k) {
      var p := InsertPos(r, k);
      assert r'[p] == Field(k, v);
      GetFirst(r', p);
    } else {
      GetFirst(r', |r|);
    }
  }

  /** The position of the first field with key `k`, given some field has it. */
  lemma {:induction false} FirstWithKey<V>(r: Record<V>, k: string, i: nat) returns (j: nat)
    requires i < |r| && r[i].key == k
    ensures j <= i && r[j].key == k && forall m :: 0 <= m < j ==> r[m].key != k
  {
    if i == 0 || forall m :: 0 <= m < i ==> r[m].key != k {
      j := i;
    } else {
      var m :| 0 <= m < i && r[m].key == k;
      j := FirstWithKey(r, k, m);
    }
  }

  /** Two records that agree wherever either has key `k` give the same `Get`. */
  lemma {:induction false} GetPointwise<V>(r: Record<V>, r': Record<V>, k: string)
    requires |r| == |r'|
    requires forall i :: 0 <= i < |r| && (r[i].key == k || r'[i].key == k) ==> r[i] == r'[i]
    ensures Get(r', k) == Get(r, k)
  {
    if r != [] && r[0].key != k && r'[0].key != k {
      GetPointwise(r[1..], r'[1..], k);
    }
  }

  /** Inserting a field with another key does not change what `Get` finds. */
  lemma {:induction false} GetInsert<V>(a: Record<V>, f: Field<V>, b: Record<V>, k: string)
    requires f.key != k
    ensures Get(a + [f] + b, k) == Get(a + b, k)
  {
    if a == [] {
      assert (a + [f] + b)[1..] == a + b;
    } else {
      assert (a + [f] + b)[1..] == a[1..] + [f] + b;
      assert (a + b)[1..] == a[1..] + b;
      GetInsert(a[1..], f, b, k);
    }
  }

  /** Writing one key leaves every other key's value as it was. */
  lemma PutOther<V>(r: Record<V>, k: string, v: V, k': string)
    requires k' != k
    ensures Get(Put(r, k, v), k') == Get(r, k')
  {
    if k in Keys(r) {
      GetPointwise(r, Replace(r, k, v), k');
    } else if IsIndexKey(k) {
      var p := InsertPos(r, k);
      GetInsert(r[..p], Field(k, v), r[p..], k');
      assert r[..p] + r[p..] == r;
    } else {
      GetInsert(r, Field(k, v), [], k');
      assert r + [Field(k, v)] + [] == r + [Field(k, v)];
      assert r + [] == r;
    }
  }

  /** Writing a key adds it to the key set and nothing else; the record grows
      by one field exactly when the key is new. */
  lemma PutKeys<V>(r: Record<V>, k: string, v: V)
    ensures multiset(Keys(Put(r, k, v))) == if k in Keys(r) then multiset(Keys(r)) else multiset(Keys(r)) + multiset{k}
    ensures |Put(r, k, v)| == if k in Keys(r) then |r| else |r| + 1
  {
    var r' := Put(r, k, v);
    if k in Keys(r) {
      assert Keys(r') == Keys(r);
    } else if IsIndexKey(k) {
      var p := InsertPos(r, k);
      assert r' == r[..p] + [Field(k, v)] + r[p..];
      assert Keys(r') == Keys(r)[..p] + [k] + Keys(r)[p..];
      assert Keys(r) == Keys(r)[..p] + Keys(r)[p..];
    } else {
      assert Keys(r') == Keys(r) + [k];
    }
  }

  /** In a well-formed record, assigning an existing key changes that one
      field in place and keeps the record well formed. */
  lemma PutExisting<V>(r: Record<V>, i: nat, v: V)
    requires WellFormed(r) && i < |r|
    ensures Put(r, r[i].key, v) == r[i := Field(r[i].key, v)]
    ensures WellFormed(r[i := Field(r[i].key, v)])
  {
    var k := r[i].key;
    assert Keys(r)[i] == k;
    var r' := r[i := Field(k, v)];
    assert forall j :: 0 <= j < |r| ==> r'[j].key == r[j].key;
  }

  /** A prefix of a well-formed record is well formed. */
  lemma PrefixWellFormed<V>(r: Record<V>, n: nat)
    requires WellFormed(r) && n <= |r|
    ensures WellFormed(r[..n])
  {
    var q := r[..n];
    assert forall i :: 0 <= i < n ==> q[i] == r[i];
  }

  /** Replacing a value in place keeps every key where it was. */
  lemma ReplaceWellFormed<V>(r: Record<V>, k: string, v: V)
    requires WellFormed(r)
    ensures WellFormed(Replace(r, k, v))
  {
    var r' := Replace(r, k, v);
    assert forall i :: 0 <= i < |r| ==> r'[i].key == r[i].key;
  }

  /** Inserting a new index key at `InsertPos` keeps the keys distinct. */
  lemma InsertDistinct<V>(r: Record<V>, p: nat, f: Field<V>)
    requires WellFormed(r) && p <= |r| && f.key !in Keys(r)
    ensures forall i, j :: 0 <= i < j < |r| + 1 ==> (r[..p] + [f] + r[p..])[i].key != (r[..p] + [f] + r[p..])[j].key
  {
    var r' := r[..p] + [f] + r[p..];
    assert forall i :: 0 <= i < |r'| ==> r'[i] == if i < p then r[i] else if i == p then f else r[i - 1];
    forall i | 0 <= i < |r| ensures r[i].key != f.key {
      assert Keys(r)[i] == r[i].key;
    }
  }

  /** Inserting a new index key at `InsertPos` keeps index keys first and ascending. */
  lemma InsertOrdered<V>(r: Record<V>, k: string, v: V)
    requires WellFormed(r) && IsIndexKey(k)
    ensures var p := InsertPos(r, k); var r' := r[..p] + [Field(k, v)] + r[p..];
      forall i, j :: 0 <= i < j < |r'| && IsIndexKey(r'[j].key) ==>
        IsIndexKey(r'[i].key) && IndexValue(r'[i].key) <= IndexValue(r'[j].key)
  {
    var p := InsertPos(r, k);
    var f := Field(k, v);
    var r' := r[..p] + [f] + r[p..];
    assert forall i :: 0 <= i < |r'| ==> r'[i] == if i < p then r[i] else if i == p then f else r[i - 1];
    forall i | p <= i < |r| && IsIndexKey(r[i].key) ensures IndexValue(r[i].key) > IndexValue(k) {
      assert IsIndexKey(r[p].key);
    }
  }

  /** Inserting a new index key at `InsertPos` keeps the record well formed. */
  lemma InsertWellFormed<V>(r: Record<V>, k: string, v: V)
    requires WellFormed(r) && IsIndexKey(k) && k !in Keys(r)
    ensures WellFormed(r[..InsertPos(r, k)] + [Field(k, v)] + r[InsertPos(r, k)..])
  {
    InsertDistinct(r, InsertPos(r, k), Field(k, v));
    InsertOrdered(r, k, v);
  }

  /** Appending a new key that is not an index keeps the order. */
  lemma AppendWellFormed<V>(r: Record<V>, k: string, v: V)
    requires WellFormed(r) && !IsIndexKey(k) && k !in Keys(r)
    ensures WellFormed(r + [Field(k, v)])
  {
    var r' := r + [Field(k, v)];
    assert forall i :: 0 <= i < |r| ==> r'[i] == r[i] && r[i].key != k by {
      forall i | 0 <= i < |r| ensures r'[i] == r[i] && r[i].key != k { assert Keys(r)[i] == r[i].key; }
    }
  }

  /** Writing keeps a record well formed: keys stay distinct and the index
      keys stay first and ascending. */
  lemma PutWellFormed<V>(r: Record<V>, k: string, v: V)
    requires WellFormed(r)
    ensures WellFormed(Put(r, k, v))
  {
    if k in Keys(r) {
      ReplaceWellFormed(r, k, v);
    } else if IsIndexKey(k) {
      InsertWellFormed(r, k, v);
    } else {
      AppendWellFormed(r, k, v);
    }
  }

  /** The record built by assigning the given fields one after another, as
      the source's `forEach` loops and `reduce` callbacks do. */
  function FromFields<V>(s: seq<Field<V>>): Record<V> {
    if s == [] then [] else Put(FromFields(s[..|s| - 1]), s[|s| - 1].key, s[|s| - 1].value)
  }

  /** The value of the last field in `s` with key `k`. */
  function LastValue<V>(s: seq<Field<V>>, k: string): Option<V> {
    if s == [] then None
    else if s[|s| - 1].key == k then Some(s[|s| - 1].value)
    else LastValue(s[..|s| - 1], k)
  }

  /** Building a record by successive assignment keeps it well formed, and
      a later field overwrites an earlier one with the same key. */
  lemma {:induction false} FromFieldsGet<V>(s: seq<Field<V>>, k: string)
    ensures WellFormed(FromFields(s))
    ensures Get(FromFields(s), k) == LastValue(s, k)
  {
    if s != [] {
      var init, last := s[..|s| - 1], s[|s| - 1];
      FromFieldsGet(init, k);
      PutWellFormed(FromFields(init), last.key, last.value);
      if last.key == k {
        PutGet(FromFields(init), k, last.value);
      } else {
        PutOther(FromFields(init), last.key, last.value, k);
      }
    }
  }

  /** Assigning the last field of a well-formed record to the rest of it
      puts the field back at the end. */
  lemma PutLast<V>(r: Record<V>)
    requires WellFormed(r) && r != []
    ensures Put(r[..|r| - 1], r[|r| - 1].key, r[|r| - 1].value) == r
  {
    var init, last := r[..|r| - 1], r[|r| - 1];
    assert last.key !in Keys(init) by {
      forall i | 0 <= i < |init| ensures Keys(init)[i] != last.key {
        assert init[i] == r[i];
      }
    }
    if IsIndexKey(last.key) {
      var p := InsertPos(init, last.key);
      assert p == |init|;
      assert init[p..] == [];
    }
    assert r == init + [last];
  }

  /** Listing a well-formed record's fields in enumeration order and
      assigning them one by one into an empty object rebuilds it exactly:
      `Object.entries` followed by the edit-load loop is the identity. */
  lemma {:induction false} FromFieldsRoundTrip<V>(r: Record<V>)
    requires WellFormed(r)
    ensures FromFields(r) == r
  {
    if r != [] {
      PrefixWellFormed(r, |r| - 1);
      FromFieldsRoundTrip(r[..|r| - 1]);
      PutLast(r);
    }
  }
}
