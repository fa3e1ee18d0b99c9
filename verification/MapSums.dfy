/** Sums of a measure over the values of a finite map. */
module MapSums {

  ghost function Sum<K, V(!new)>(m: map<K, V>, f: V -> nat): nat
    decreases |m|
  {
    if m == map[] then 0 else
      var k :| k in m;
      assert (m - {k}).Keys == m.Keys - {k};
      f(m[k]) + Sum(m - {k}, f)
  }

  /** The order in which entries are summed does not matter. */
  lemma {:induction false} SumSplit<K, V(!new)>(m: map<K, V>, f: V -> nat, k: K)
    requires k in m
    ensures Sum(m, f) == f(m[k]) + Sum(m - {k}, f)
    decreases |m|
  {
    var first :| first in m && Sum(m, f) == f(m[first]) + Sum(m - {first}, f);
    if first != k {
      var rest := m - {first};
      assert rest.Keys == m.Keys - {first};
      SumSplit(rest, f, k);
      assert (m - {k}).Keys == m.Keys - {k};
      SumSplit(m - {k}, f, first);
      assert rest - {k} == m - {k} - {first};
    }
  }

  lemma SumUpdate<K, V(!new)>(m: map<K, V>, f: V -> nat, k: K, v: V)
    ensures k in m ==> Sum(m[k := v], f) == Sum(m, f) - f(m[k]) + f(v)
    ensures k !in m ==> Sum(m[k := v], f) == Sum(m, f) + f(v)
  {
    SumSplit(m[k := v], f, k);
    assert m[k := v] - {k} == m - {k};
    if k in m {
      SumSplit(m, f, k);
    } else {
      assert m - {k} == m;
    }
  }

  lemma SumRemove<K, V(!new)>(m: map<K, V>, f: V -> nat, k: K)
    requires k in m
    ensures Sum(m - {k}, f) == Sum(m, f) - f(m[k])
    ensures f(m[k]) <= Sum(m, f)
  {
    SumSplit(m, f, k);
  }
}
