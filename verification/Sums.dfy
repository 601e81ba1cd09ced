/** Sums over the rows of a keyed table. */
module Sums {

  ghost function SumBy<K(!new), V>(m: map<K, V>, f: V -> int): int
    decreases |m|
  {
    if m.Keys == {} then 0
    else
      var k :| k in m.Keys;
      Fewer(m, k);
      f(m[k]) + SumBy(m - {k}, f)
  }

  lemma Fewer<K, V>(m: map<K, V>, k: K)
    requires k in m
    ensures |m - {k}| < |m|
  {
    assert (m - {k}).Keys == m.Keys - {k};
    assert |m.Keys - {k}| == |m.Keys| - 1;
  }

  lemma SameRest<K, V>(m: map<K, V>, j: K, k: K)
    ensures m - {j} - {k} == m - {k} - {j}
  {
  }

  lemma {:induction false} SumSplit<K(!new), V>(m: map<K, V>, k: K, f: V -> int)
    requires k in m
    ensures SumBy(m, f) == f(m[k]) + SumBy(m - {k}, f)
    decreases |m|
  {
    var j :| j in m.Keys && SumBy(m, f) == f(m[j]) + SumBy(m - {j}, f);
    if j != k {
      var a, b := m - {j}, m - {k};
      Fewer(m, j);
      Fewer(m, k);
      SumSplit(a, k, f);
      SumSplit(b, j, f);
      SameRest(m, j, k);
    }
  }

  /** Writing one row changes the sum by that row alone. */
  lemma SumPut<K(!new), V>(m: map<K, V>, k: K, v: V, f: V -> int)
    ensures SumBy(m[k := v], f) == SumBy(m, f) + f(v) - (if k in m then f(m[k]) else 0)
  {
    SumSplit(m[k := v], k, f);
    if k in m {
      SumSplit(m, k, f);
      assert m[k := v] - {k} == m - {k};
    } else {
      assert m[k := v] - {k} == m;
    }
  }

  lemma {:induction false} SumSame<K(!new), V>(m: map<K, V>, f: V -> int, g: V -> int)
    requires forall k :: k in m ==> f(m[k]) == g(m[k])
    ensures SumBy(m, f) == SumBy(m, g)
    decreases |m|
  {
    if m.Keys != {} {
      var k :| k in m.Keys;
      Fewer(m, k);
      SumSplit(m, k, f);
      SumSplit(m, k, g);
      SumSame(m - {k}, f, g);
    }
  }

  lemma {:induction false} SumZero<K(!new), V>(m: map<K, V>, f: V -> int)
    requires forall k :: k in m ==> f(m[k]) == 0
    ensures SumBy(m, f) == 0
    decreases |m|
  {
    if m.Keys != {} {
      var k :| k in m.Keys;
      Fewer(m, k);
      SumSplit(m, k, f);
      SumZero(m - {k}, f);
    }
  }

  lemma {:induction false} SumNonNegative<K(!new), V>(m: map<K, V>, f: V -> int)
    requires forall k :: k in m ==> f(m[k]) >= 0
    ensures SumBy(m, f) >= 0
    decreases |m|
  {
    if m.Keys != {} {
      var k :| k in m.Keys;
      Fewer(m, k);
      SumSplit(m, k, f);
      SumNonNegative(m - {k}, f);
    }
  }
}
