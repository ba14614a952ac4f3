/** Sums over the values of a finite map. */
module MapSums {
  ghost function Sum<K, V>(m: map<K, V>, f: V -> int): int
    decreases |m|
  {
    if m == map[] then 0 else f(m[Pick(m)]) + Sum(m - {Pick(m)}, f)
  }

  ghost function Pick<K, V>(m: map<K, V>): (k: K)
    requires m != map[]
    ensures k in m
  {
    assert m.Keys != {};
    var k :| k in m.Keys; k
  }

  lemma {:induction false} SumRemove<K, V>(m: map<K, V>, k: K, f: V -> int)
    requires k in m
    ensures Sum(m, f) == f(m[k]) + Sum(m - {k}, f)
    decreases |m|
  {
    var j := Pick(m);
    if k == j {
    } else {
      SumRemove(m - {j}, k, f);
      SumRemove(m - {k}, j, f);
      assert m - {j} - {k} == m - {k} - {j};
    }
  }

  lemma SumUpdate<K, V>(m: map<K, V>, k: K, v: V, f: V -> int)
    ensures Sum(m[k := v], f) == Sum(m, f) - (if k in m then f(m[k]) else 0) + f(v)
  {
    var n := m[k := v];
    SumRemove(n, k, f);
    if k in m {
      SumRemove(m, k, f);
      assert n - {k} == m - {k};
    } else {
      assert n - {k} == m;
    }
  }

  lemma {:induction false} SumNonNegative<K, V>(m: map<K, V>, f: V -> int)
    requires forall k <- m :: f(m[k]) >= 0
    ensures Sum(m, f) >= 0
    decreases |m|
  {
    if m == map[] {
    } else {
      SumNonNegative(m - {Pick(m)}, f);
    }
  }

  function Restrict<K, V>(m: map<K, V>, ks: set<K>): map<K, V> { map k | k in ks && k in m :: m[k] }

  /** Removing a set of keys splits the sum. */
  lemma {:induction false} SumSplit<K, V>(m: map<K, V>, ks: set<K>, f: V -> int)
    requires ks <= m.Keys
    ensures Sum(m, f) == Sum(m - ks, f) + Sum(Restrict(m, ks), f)
    decreases |ks|
  {
    if ks != {} {
      var k :| k in ks;
      var rest := ks - {k};
      SumSplit(m, rest, f);
      SumRemove(m - rest, k, f);
      assert m - rest - {k} == m - ks;
      SumRemove(Restrict(m, ks), k, f);
      assert Restrict(m, ks) - {k} == Restrict(m, rest);
    } else {
      assert m - ks == m;
      assert Restrict(m, ks) == map[];
    }
  }
}
