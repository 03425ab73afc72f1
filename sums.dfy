/**
 * Sums of map values over a finite set of keys.  Python's
 * `sum(d.values())` visits the keys in insertion order; these sums pick
 * keys in an unspecified order, and SumOverRemove shows that the order
 * does not matter.
 */
module Sums {

  /** Some element of a non-empty set (the same one for the same set). */
  ghost function Pick<K>(ks: set<K>): (k: K)
    requires ks != {}
    ensures k in ks
  {
    var k :| k in ks; k
  }

  /** The sum of `m[k]` over the keys `k` in `ks`. */
  ghost function SumOver<K>(m: map<K, nat>, ks: set<K>): nat
    requires ks <= m.Keys
    decreases ks
  {
    if ks == {} then 0 else var k := Pick(ks); m[k] + SumOver(m, ks - {k})
  }

  /** The sum of the real values `m[k]` over the keys `k` in `ks`. */
  ghost function RealSumOver<K>(m: map<K, real>, ks: set<K>): real
    requires ks <= m.Keys
    decreases ks
  {
    if ks == {} then 0.0 else var k := Pick(ks); m[k] + RealSumOver(m, ks - {k})
  }

  /** A sum only depends on the values at the keys summed over. */
  lemma {:induction false} SumOverAgree<K>(m1: map<K, nat>, m2: map<K, nat>, ks: set<K>)
    requires ks <= m1.Keys && ks <= m2.Keys
    requires forall k :: k in ks ==> m1[k] == m2[k]
    ensures SumOver(m1, ks) == SumOver(m2, ks)
    decreases ks
  {
    if ks != {} {
      SumOverAgree(m1, m2, ks - {Pick(ks)});
    }
  }

  /** Any key, not only the one Pick chooses, can be split off a sum. */
  lemma {:induction false} SumOverRemove<K>(m: map<K, nat>, ks: set<K>, k: K)
    requires ks <= m.Keys && k in ks
    ensures SumOver(m, ks) == m[k] + SumOver(m, ks - {k})
    decreases ks
  {
    var j := Pick(ks);
    if j != k {
      SumOverRemove(m, ks - {j}, k);
      SumOverRemove(m, ks - {k}, j);
      assert ks - {j} - {k} == ks - {k} - {j};
    }
  }

  /** Adding a new key adds its value to the sum. */
  lemma SumOverInsert<K>(m: map<K, nat>, ks: set<K>, k: K)
    requires ks <= m.Keys && k in m && k !in ks
    ensures SumOver(m, ks + {k}) == m[k] + SumOver(m, ks)
  {
    SumOverRemove(m, ks + {k}, k);
    assert ks + {k} - {k} == ks;
  }

  /** Replacing the value at one summed key changes the sum by the difference. */
  lemma SumOverUpdate<K>(m: map<K, nat>, ks: set<K>, k: K, v: nat)
    requires ks <= m.Keys && k in ks
    ensures SumOver(m[k := v], ks) + m[k] == SumOver(m, ks) + v
  {
    SumOverRemove(m, ks, k);
    SumOverRemove(m[k := v], ks, k);
    SumOverAgree(m, m[k := v], ks - {k});
  }

  /** Raising the value at one summed key, and no other, raises the sum by as much. */
  lemma SumOverBump<K>(before: map<K, nat>, after: map<K, nat>, ks: set<K>, k: K, d: nat)
    requires ks <= before.Keys && ks <= after.Keys && k in ks
    requires after[k] == before[k] + d
    requires forall j :: j in ks && j != k ==> after[j] == before[j]
    ensures SumOver(after, ks) == SumOver(before, ks) + d
  {
    SumOverRemove(after, ks, k);
    SumOverRemove(before, ks, k);
    SumOverAgree(before, after, ks - {k});
  }

  /** Adding a new key with value `d`, other values unchanged, raises the sum by `d`. */
  lemma SumOverExtend<K>(before: map<K, nat>, after: map<K, nat>, ks: set<K>, k: K, d: nat)
    requires ks <= before.Keys && ks <= after.Keys && k in after && k !in ks
    requires after[k] == d
    requires forall j :: j in ks ==> after[j] == before[j]
    ensures SumOver(after, ks + {k}) == SumOver(before, ks) + d
  {
    SumOverInsert(after, ks, k);
    SumOverAgree(before, after, ks);
  }

  /** A sum of zeros is zero. */
  lemma {:induction false} ZeroSum<K>(m: map<K, nat>, ks: set<K>)
    requires ks <= m.Keys && forall k :: k in ks ==> m[k] == 0
    ensures SumOver(m, ks) == 0
    decreases ks
  {
    if ks != {} {
      ZeroSum(m, ks - {Pick(ks)});
    }
  }
}
