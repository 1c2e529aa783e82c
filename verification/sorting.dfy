/** Python's `sorted(xs, key=...)` on integer keys: a stable sort. Items
    carry their key alongside; equal keys keep their input order. */
module Sorting {
  import opened Seqs

  datatype Keyed<T> = Keyed(item: T, key: int)

  predicate SortedByKey<T>(s: seq<Keyed<T>>) {
    forall i, j :: 0 <= i < j < |s| ==> s[i].key <= s[j].key
  }

  /** The entries of `s` with key `k`, in order. */
  function WithKey<T>(s: seq<Keyed<T>>, k: int): (r: seq<Keyed<T>>)
    ensures |r| <= |s|
  {
    if s == [] then []
    else WithKey(s[..|s| - 1], k) + (if s[|s| - 1].key == k then [s[|s| - 1]] else [])
  }

  /** Places `x` after every entry of the sorted `t` whose key is not larger. */
  function Insert<T>(t: seq<Keyed<T>>, x: Keyed<T>): (r: seq<Keyed<T>>)
    requires SortedByKey(t)
    ensures SortedByKey(r)
    ensures multiset(r) == multiset(t) + multiset{x}
    ensures |r| == |t| + 1
    decreases |t|
  {
    if t == [] || t[|t| - 1].key <= x.key then t + [x]
    else
      var p := t[..|t| - 1];
      var last := t[|t| - 1];
      assert t == p + [last];
      var q := Insert(p, x);
      InsertBelow(p, x, last, q);
      q + [last]
  }

  /** Every entry of `q` has a key no larger than that of `last`, which
      follows `p` in a sorted sequence and has a key larger than `x`'s. */
  lemma InsertBelow<T>(p: seq<Keyed<T>>, x: Keyed<T>, last: Keyed<T>, q: seq<Keyed<T>>)
    requires SortedByKey(p + [last]) && x.key < last.key
    requires multiset(q) == multiset(p) + multiset{x}
    ensures forall i :: 0 <= i < |q| ==> q[i].key <= last.key
  {
    forall i | 0 <= i < |q|
      ensures q[i].key <= last.key
    {
      assert q[i] in multiset(q);
      if q[i] != x {
        assert q[i] in multiset(p);
        var j :| 0 <= j < |p| && p[j] == q[i];
        assert (p + [last])[j] == p[j];
        assert (p + [last])[|p|] == last;
      }
    }
  }

  /** Insertion sort, each new entry inserted after its equals. */
  function Sort<T>(s: seq<Keyed<T>>): (r: seq<Keyed<T>>)
    ensures SortedByKey(r)
    ensures multiset(r) == multiset(s)
    ensures |r| == |s|
  {
    if s == [] then []
    else
      assert s == s[..|s| - 1] + [s[|s| - 1]];
      Insert(Sort(s[..|s| - 1]), s[|s| - 1])
  }

  /** The entries with key `k` of a sequence grown by one entry. */
  lemma WithKeySnoc<T>(s: seq<Keyed<T>>, x: Keyed<T>, k: int)
    ensures x.key == k ==> WithKey(s + [x], k) == WithKey(s, k) + [x]
    ensures x.key != k ==> WithKey(s + [x], k) == WithKey(s, k)
  {
    assert (s + [x])[..|s|] == s;
  }

  /** Inserting one entry appends it to the entries with its key. */
  lemma {:induction false} InsertStable<T>(t: seq<Keyed<T>>, x: Keyed<T>, k: int)
    requires SortedByKey(t)
    ensures WithKey(Insert(t, x), k) == WithKey(t, k) + (if x.key == k then [x] else [])
    decreases |t|
  {
    if t == [] || t[|t| - 1].key <= x.key {
      assert Insert(t, x) == t + [x];
      WithKeySnoc(t, x, k);
    } else {
      var p := t[..|t| - 1];
      var last := t[|t| - 1];
      Snoc(t);
      InsertStable(p, x, k);
      assert Insert(t, x) == Insert(p, x) + [last];
      StableStep(p, x, last, Insert(p, x), k);
    }
  }

  /** Putting `last` after `q` adds it to the entries with its key; `x`
      and `last` cannot both carry key `k`. */
  lemma StableStep<T>(p: seq<Keyed<T>>, x: Keyed<T>, last: Keyed<T>, q: seq<Keyed<T>>, k: int)
    requires x.key < last.key
    requires WithKey(q, k) == WithKey(p, k) + (if x.key == k then [x] else [])
    ensures WithKey(q + [last], k) == WithKey(p + [last], k) + (if x.key == k then [x] else [])
  {
    if x.key == k {
      StableHit(p, x, last, q, k);
    } else {
      StableMiss(p, last, q, k);
    }
  }

  lemma StableHit<T>(p: seq<Keyed<T>>, x: Keyed<T>, last: Keyed<T>, q: seq<Keyed<T>>, k: int)
    requires last.key != k
    requires WithKey(q, k) == WithKey(p, k) + [x]
    ensures WithKey(q + [last], k) == WithKey(p + [last], k) + [x]
  {
    WithKeySnoc(q, last, k);
    WithKeySnoc(p, last, k);
  }

  lemma StableMiss<T>(p: seq<Keyed<T>>, last: Keyed<T>, q: seq<Keyed<T>>, k: int)
    requires WithKey(q, k) == WithKey(p, k)
    ensures WithKey(q + [last], k) == WithKey(p + [last], k)
  {
    WithKeySnoc(q, last, k);
    WithKeySnoc(p, last, k);
  }

  /** Sorting is stable: the entries sharing a key keep their input order. */
  lemma {:induction false} SortStable<T>(s: seq<Keyed<T>>, k: int)
    ensures WithKey(Sort(s), k) == WithKey(s, k)
    decreases |s|
  {
    if s != [] {
      var p := s[..|s| - 1];
      SortStable(p, k);
      InsertStable(Sort(p), s[|s| - 1], k);
    }
  }

  /** An input already in key order is returned unchanged. */
  lemma {:induction false} SortSorted<T>(s: seq<Keyed<T>>)
    requires SortedByKey(s)
    ensures Sort(s) == s
    decreases |s|
  {
    if s != [] {
      var p := s[..|s| - 1];
      var last := s[|s| - 1];
      assert SortedByKey(p);
      SortSorted(p);
      assert p == [] || p[|p| - 1].key <= last.key;
      assert Sort(s) == p + [last];
      Snoc(s);
    }
  }

  function Items<T>(s: seq<Keyed<T>>): (r: seq<T>)
    ensures |r| == |s|
    ensures forall i :: 0 <= i < |s| ==> r[i] == s[i].item
  {
    if s == [] then [] else [s[0].item] + Items(s[1..])
  }
}
