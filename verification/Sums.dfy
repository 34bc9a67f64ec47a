/** Sums over finite maps and over listings of their keys. */
module Sums {

  ghost function Sum<K>(m: map<K, nat>): nat
    decreases |m|
  {
    if m == map[] then 0
    else
      var k :| k in m;
      m[k] + Sum(m - {k})
  }

  lemma {:induction false} SumRemove<K>(m: map<K, nat>, k: K)
    requires k in m
    ensures Sum(m) == m[k] + Sum(m - {k})
    decreases |m|
  {
    var j :| j in m && Sum(m) == m[j] + Sum(m - {j});
    if j != k {
      SumRemove(m - {j}, k);
      SumRemove(m - {k}, j);
      assert (m - {j}) - {k} == (m - {k}) - {j};
    }
  }

  lemma SumPut<K>(m: map<K, nat>, k: K, v: nat)
    ensures Sum(m[k := v]) + (if k in m then m[k] else 0) == Sum(m) + v
  {
    SumRemove(m[k := v], k);
    if k in m {
      SumRemove(m, k);
      assert m[k := v] - {k} == m - {k};
    } else {
      assert m[k := v] - {k} == m;
    }
  }

  function Amounts<K>(m: map<K, nat>, ks: seq<K>): nat
    requires forall k :: k in ks ==> k in m
  {
    if |ks| == 0 then 0 else Amounts(m, ks[..|ks| - 1]) + m[ks[|ks| - 1]]
  }

  predicate Unique<K(==)>(ks: seq<K>) {
    forall i, j :: 0 <= i < j < |ks| ==> ks[i] != ks[j]
  }

  lemma {:induction false} SumZero<K>(m: map<K, nat>)
    requires forall k :: k in m ==> m[k] == 0
    ensures Sum(m) == 0
    decreases |m|
  {
    if m != map[] {
      var k :| k in m && Sum(m) == m[k] + Sum(m - {k});
      SumZero(m - {k});
    }
  }

  lemma {:induction false} AmountsFrame<K>(m: map<K, nat>, ks: seq<K>, k: K)
    requires k !in ks && forall l :: l in ks ==> l in m
    ensures Amounts(m - {k}, ks) == Amounts(m, ks)
  {
    if |ks| > 0 {
      AmountsFrame(m, ks[..|ks| - 1], k);
    }
  }

  /** Adding up a listing of the keys that carry something gives the sum of the map. */
  lemma {:induction false} ListingSum<K>(m: map<K, nat>, ks: seq<K>)
    requires Unique(ks) && (forall k :: k in ks ==> k in m) && forall k :: k in m && k !in ks ==> m[k] == 0
    ensures Amounts(m, ks) == Sum(m)
    decreases |ks|
  {
    if |ks| == 0 {
      SumZero(m);
    } else {
      var init, k := ks[..|ks| - 1], ks[|ks| - 1];
      assert ks == init + [k] && k !in init;
      SumRemove(m, k);
      AmountsFrame(m, init, k);
      ListingSum(m - {k}, init);
    }
  }
}
