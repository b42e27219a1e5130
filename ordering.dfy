/**
 * The key order of `java.util.TreeMap`, whose copies the analyzer emits for the state, weather and
 * severity counters: `String.compareTo` for string keys, numeric order for `Integer` keys.
 */
module Ordering {

  /** `a.compareTo(b) < 0`: the first position where the strings differ decides; when one is a
    * prefix of the other, the shorter comes first. */
  predicate StrLess(a: string, b: string)
    decreases |a|
  {
    if a == [] then b != []
    else b != [] && (a[0] < b[0] || (a[0] == b[0] && StrLess(a[1..], b[1..])))
  }

  lemma {:induction false} StrLessIrreflexive(a: string)
    ensures !StrLess(a, a)
    decreases |a|
  {
    if a != [] {
      StrLessIrreflexive(a[1..]);
    }
  }

  lemma {:induction false} StrLessTransitive(a: string, b: string, c: string)
    requires StrLess(a, b) && StrLess(b, c)
    ensures StrLess(a, c)
    decreases |a|
  {
    if a != [] && a[0] == b[0] && b[0] == c[0] {
      StrLessTransitive(a[1..], b[1..], c[1..]);
    }
  }

  lemma {:induction false} StrLessTotal(a: string, b: string)
    ensures a == b || StrLess(a, b) || StrLess(b, a)
    decreases |a|
  {
    if a != [] && b != [] && a[0] == b[0] {
      StrLessTotal(a[1..], b[1..]);
      if a[1..] == b[1..] {
        assert a == [a[0]] + a[1..] && b == [b[0]] + b[1..];
      }
    }
  }

  /** The length of the longest common prefix: the index at which `compareTo` stops. */
  function CommonPrefix(a: string, b: string): (k: nat)
    ensures k <= |a| && k <= |b| && a[..k] == b[..k]
    ensures k < |a| && k < |b| ==> a[k] != b[k]
    decreases |a|
  {
    if a != [] && b != [] && a[0] == b[0] then
      var k := CommonPrefix(a[1..], b[1..]);
      assert a[..k + 1] == [a[0]] + a[1..][..k];
      assert b[..k + 1] == [b[0]] + b[1..][..k];
      k + 1
    else
      0
  }

  /** `compareTo` as `String` computes it: compare the characters at the first index where the
    * strings differ, or, when one is a prefix of the other, their lengths. */
  lemma {:induction false} StrLessIsCompareTo(a: string, b: string)
    ensures StrLess(a, b) <==>
              var k := CommonPrefix(a, b);
              if k < |a| && k < |b| then a[k] < b[k] else |a| < |b|
    decreases |a|
  {
    if a != [] && b != [] && a[0] == b[0] {
      StrLessIsCompareTo(a[1..], b[1..]);
    }
  }

  /** `less` is a strict total order. */
  ghost predicate StrictTotalOrder<K(!new)>(less: (K, K) -> bool) {
    && (forall a :: !less(a, a))
    && (forall a, b, c :: less(a, b) && less(b, c) ==> less(a, c))
    && (forall a, b :: a == b || less(a, b) || less(b, a))
  }

  lemma StrLessIsStrictTotalOrder()
    ensures StrictTotalOrder(StrLess)
  {
    forall a: string ensures !StrLess(a, a) {
      StrLessIrreflexive(a);
    }
    forall a: string, b: string, c: string | StrLess(a, b) && StrLess(b, c) ensures StrLess(a, c) {
      StrLessTransitive(a, b, c);
    }
    forall a: string, b: string ensures a == b || StrLess(a, b) || StrLess(b, a) {
      StrLessTotal(a, b);
    }
  }

  /** `Integer.compareTo`. */
  predicate IntLess(a: int, b: int) {
    a < b
  }

  lemma IntLessIsStrictTotalOrder()
    ensures StrictTotalOrder(IntLess)
  {
  }

  /** The keys of a sequence of entries. */
  function KeysOf<K, V>(entries: seq<(K, V)>): set<K> {
    set i | 0 <= i < |entries| :: entries[i].0
  }

  /** Keys strictly increasing along the sequence. */
  predicate StrictlyIncreasing<K, V>(entries: seq<(K, V)>, less: (K, K) -> bool) {
    forall i, j :: 0 <= i < j < |entries| ==> less(entries[i].0, entries[j].0)
  }

  /** `new TreeMap<>(m)` seen through its iteration order: entries of `m` by increasing key, as
    * many as `m` has keys. */
  predicate IsSortedCopy<K, V(==)>(entries: seq<(K, V)>, m: map<K, V>, less: (K, K) -> bool) {
    && StrictlyIncreasing(entries, less)
    && |entries| == |m.Keys|
    && forall i :: 0 <= i < |entries| ==> entries[i].0 in m && entries[i].1 == m[entries[i].0]
  }

  lemma KeysOfSnoc<K, V>(entries: seq<(K, V)>, e: (K, V))
    ensures KeysOf(entries + [e]) == KeysOf(entries) + {e.0}
  {
    var r := entries + [e];
    forall k | k in KeysOf(r) ensures k in KeysOf(entries) + {e.0} {
      var i :| 0 <= i < |r| && r[i].0 == k;
      if i < |entries| {
        assert entries[i].0 == k;
      }
    }
    forall k | k in KeysOf(entries) ensures k in KeysOf(r) {
      var i :| 0 <= i < |entries| && entries[i].0 == k;
      assert r[i].0 == k;
    }
    assert r[|entries|].0 == e.0;
  }

  /** Strictly increasing keys are pairwise distinct, so there are as many keys as entries. */
  lemma {:induction false} DistinctKeysCount<K(!new), V>(entries: seq<(K, V)>, less: (K, K) -> bool)
    requires forall a :: !less(a, a)
    requires StrictlyIncreasing(entries, less)
    ensures |KeysOf(entries)| == |entries|
    decreases |entries|
  {
    if entries != [] {
      var init := entries[..|entries| - 1];
      var e := entries[|entries| - 1];
      assert entries == init + [e];
      DistinctKeysCount(init, less);
      KeysOfSnoc(init, e);
      forall i | 0 <= i < |init| ensures init[i].0 != e.0 {
        assert less(entries[i].0, entries[|entries| - 1].0);
      }
    }
  }

  /** A subset as large as its superset is the superset. */
  lemma {:induction false} SubsetOfSameSize<K>(a: set<K>, b: set<K>)
    requires a <= b && |a| == |b|
    ensures a == b
    decreases |a|
  {
    if a != {} {
      var x :| x in a;
      SubsetOfSameSize(a - {x}, b - {x});
      assert a == (a - {x}) + {x} && b == (b - {x}) + {x};
    }
  }

  /** A sorted copy holds every key of the map, each once and in order. */
  lemma SortedCopyHasEveryKey<K(!new), V>(entries: seq<(K, V)>, m: map<K, V>, less: (K, K) -> bool)
    requires forall a :: !less(a, a)
    requires IsSortedCopy(entries, m, less)
    ensures KeysOf(entries) == m.Keys
  {
    DistinctKeysCount(entries, less);
    SubsetOfSameSize(KeysOf(entries), m.Keys);
  }

  /** `k` is the least element of `s`. */
  predicate IsLeast<K(!new)>(k: K, s: set<K>, less: (K, K) -> bool) {
    k in s && forall k' :: k' in s && k' != k ==> less(k, k')
  }

  /** A finite non-empty set of keys has a least element. */
  lemma {:induction false} MinimumExists<K(!new)>(s: set<K>, less: (K, K) -> bool)
    requires s != {} && StrictTotalOrder(less)
    ensures exists k :: IsLeast(k, s, less)
    decreases |s|
  {
    var x :| x in s;
    if s == {x} {
      assert IsLeast(x, s, less);
    } else {
      MinimumExists(s - {x}, less);
      var m :| IsLeast(m, s - {x}, less);
      if less(m, x) {
        assert IsLeast(m, s, less);
      } else {
        assert less(x, m);
        forall k' | k' in s && k' != x ensures less(x, k') {
          if k' != m {
            assert less(m, k');
          }
        }
        assert IsLeast(x, s, less);
      }
    }
  }

  /** `new TreeMap<>(m)`, built by taking the least remaining key each time. */
  method SortedCopy<K(!new), V(==)>(m: map<K, V>, less: (K, K) -> bool) returns (entries: seq<(K, V)>)
    requires StrictTotalOrder(less)
    ensures IsSortedCopy(entries, m, less)
  {
    var remaining := m.Keys;
    entries := [];
    while remaining != {}
      invariant remaining <= m.Keys
      invariant |entries| + |remaining| == |m.Keys|
      invariant StrictlyIncreasing(entries, less)
      invariant forall i, k :: 0 <= i < |entries| && k in remaining ==> less(entries[i].0, k)
      invariant forall i :: 0 <= i < |entries| ==> entries[i].0 in m && entries[i].1 == m[entries[i].0]
      decreases |remaining|
    {
      MinimumExists(remaining, less);
      var k :| IsLeast(k, remaining, less);
      var next := entries + [(k, m[k])];
      assert forall i :: 0 <= i < |entries| ==> next[i] == entries[i];
      forall i, k' | 0 <= i < |next| && k' in remaining - {k} ensures less(next[i].0, k') {
        if i == |entries| {
          assert next[i].0 == k;
        }
      }
      entries, remaining := next, remaining - {k};
    }
  }
}
