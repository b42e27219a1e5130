/**
 * The per-key counter maps of the analyzer and `incrementMapCount`: a `null` key is ignored,
 * any other key (the empty string included) has its count raised by one, starting from 1.
 */
module Counting {
  import opened Wrappers

  /** `map.compute(key, (k, v) -> v == null ? 1 : v + 1)`, skipped for a `null` key. */
  function IncrementCount<K>(m: map<K, nat>, key: Option<K>): (r: map<K, nat>)
    ensures key.None? ==> r == m
    ensures key.Some? ==> r.Keys == m.Keys + {key.value}
    ensures key.Some? ==> r[key.value] == if key.value in m then m[key.value] + 1 else 1
    ensures key.Some? ==> forall k :: k in m && k != key.value ==> r[k] == m[k]
  {
    if key.None? then m else m[key.value := if key.value in m then m[key.value] + 1 else 1]
  }

  /** Some element of a non-empty set. */
  ghost function Pick<K>(s: set<K>): K
    requires s != {}
  {
    var k :| k in s; k
  }

  /** The sum of all counts of a map. */
  ghost function MapSum<K>(m: map<K, nat>): nat
    decreases |m.Keys|
  {
    if m.Keys == {} then 0
    else
      var k := Pick(m.Keys);
      assert (m - {k}).Keys == m.Keys - {k};
      m[k] + MapSum(m - {k})
  }

  /** The sum may be split at any key, not only at the one `MapSum` picks. */
  lemma {:induction false} MapSumRemove<K>(m: map<K, nat>, k: K)
    requires k in m
    ensures MapSum(m) == m[k] + MapSum(m - {k})
    decreases |m.Keys|
  {
    var p := Pick(m.Keys);
    if p != k {
      var withoutP := m - {p};
      var withoutK := m - {k};
      assert withoutP.Keys == m.Keys - {p} && k in withoutP && withoutP[k] == m[k];
      assert withoutK.Keys == m.Keys - {k} && p in withoutK && withoutK[p] == m[p];
      assert MapSum(m) == m[p] + MapSum(withoutP);
      MapSumRemove(withoutP, k);
      MapSumRemove(withoutK, p);
      assert withoutP - {k} == withoutK - {p};
    }
  }

  /** Counting a key raises the sum by exactly one; a `null` key leaves it as it was. */
  lemma MapSumIncrement<K>(m: map<K, nat>, key: Option<K>)
    ensures MapSum(IncrementCount(m, key)) == MapSum(m) + (if key.Some? then 1 else 0)
  {
    if key.Some? {
      var k := key.value;
      var r := IncrementCount(m, key);
      MapSumRemove(r, k);
      assert r - {k} == m - {k};
      if k in m {
        MapSumRemove(m, k);
      } else {
        assert m - {k} == m;
      }
    }
  }

  /** Every single count is bounded by the sum of all counts. */
  lemma CountWithinSum<K>(m: map<K, nat>, k: K)
    requires k in m
    ensures MapSum(m) >= m[k]
  {
    MapSumRemove(m, k);
  }
}
