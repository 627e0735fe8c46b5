/** Totals over finite maps. */
module Sums {
  /** The sum of `f` over all entries. */
  ghost function Sum<K(!new), V(!new)>(m: map<K, V>, f: (K, V) -> int): int {
    if m == map[] then 0
    else
      var k :| k in m;
      f(k, m[k]) + Sum(m - {k}, f)
  }

  function Get<K>(m: map<K, int>, k: K): int {
    if k in m then m[k] else 0
  }

  /** Amounts held in one asset, by holder and asset. */
  ghost function InAsset(a: nat): ((nat, nat), nat) -> int {
    (k: (nat, nat), v: nat) => if k.1 == a then v else 0
  }

  ghost function Amount(): (nat, nat) -> int {
    (k: nat, v: nat) => v
  }

  /** Any entry can be taken out first. */
  lemma {:induction false} SumRemove<K(!new), V(!new)>(m: map<K, V>, k: K, f: (K, V) -> int)
    requires k in m
    ensures Sum(m, f) == f(k, m[k]) + Sum(m - {k}, f)
    decreases |m|
  {
    var k0 :| k0 in m && Sum(m, f) == f(k0, m[k0]) + Sum(m - {k0}, f);
    if k0 != k {
      SumRemove(m - {k0}, k, f);
      SumRemove(m - {k}, k0, f);
      assert m - {k0} - {k} == m - {k} - {k0};
    }
  }

  /** Setting one entry changes the sum by that entry only. */
  lemma SumUpdate<K(!new), V(!new)>(m: map<K, V>, k: K, v: V, f: (K, V) -> int)
    ensures Sum(m[k := v], f) == Sum(m, f) + f(k, v) - if k in m then f(k, m[k]) else 0
  {
    SumRemove(m[k := v], k, f);
    assert m[k := v] - {k} == m - {k};
    if k in m { SumRemove(m, k, f); } else { assert m - {k} == m; }
  }

  lemma {:induction false} SumBounds<K(!new), V(!new)>(m: map<K, V>, f: (K, V) -> int)
    requires forall k :: k in m ==> f(k, m[k]) >= 0
    ensures Sum(m, f) >= 0
    ensures forall k :: k in m ==> f(k, m[k]) <= Sum(m, f)
    decreases |m|
  {
    forall k | k in m ensures 0 <= f(k, m[k]) <= Sum(m, f) {
      SumRemove(m, k, f);
      SumBounds(m - {k}, f);
    }
  }

  lemma {:induction false} SumOfNothing<K(!new), V(!new)>(m: map<K, V>, f: (K, V) -> int)
    requires forall k :: k in m ==> f(k, m[k]) == 0
    ensures Sum(m, f) == 0
    decreases |m|
  {
    if m != map[] {
      var k :| k in m;
      SumRemove(m, k, f);
      SumOfNothing(m - {k}, f);
    }
  }
}
