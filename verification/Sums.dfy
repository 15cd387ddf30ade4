/** Sums of the values of a finite map, in no particular order. */
module Sums {

  ghost function Sum<K(!new)>(m: map<K, real>): real
    decreases |m|
  {
    if m == map[] then 0.0
    else
      var k :| k in m;
      m[k] + Sum(m - {k})
  }

  lemma {:induction false} SumTakesOut<K(!new)>(m: map<K, real>, k: K)
    requires k in m
    ensures Sum(m) == m[k] + Sum(m - {k})
    decreases |m|
  {
    var first :| first in m && Sum(m) == m[first] + Sum(m - {first});
    if first != k {
      SumTakesOut(m - {first}, k);
      SumTakesOut(m - {k}, first);
      assert m - {first} - {k} == m - {k} - {first};
    }
  }

  lemma SumUpdate<K(!new)>(m: map<K, real>, k: K, v: real)
    ensures Sum(m[k := v]) == Sum(m) + v - (if k in m then m[k] else 0.0)
  {
    SumTakesOut(m[k := v], k);
    if k in m {
      SumTakesOut(m, k);
      assert m[k := v] - {k} == m - {k};
    } else {
      assert m[k := v] - {k} == m;
    }
  }

  lemma {:induction false} SumDifference<K(!new)>(m: map<K, real>, a: map<K, real>, b: map<K, real>)
    requires m.Keys == a.Keys == b.Keys && forall k :: k in m ==> m[k] == a[k] - b[k]
    ensures Sum(m) == Sum(a) - Sum(b)
    decreases |m|
  {
    if m == map[] {
      assert a == map[] && b == map[];
    } else {
      var k :| k in m;
      SumTakesOut(m, k);
      SumTakesOut(a, k);
      SumTakesOut(b, k);
      SumDifference(m - {k}, a - {k}, b - {k});
    }
  }

  function Times(f: real, x: real): real {
    f * x
  }

  lemma TimesAdds(f: real, x: real, y: real)
    ensures Times(f, x + y) == Times(f, x) + Times(f, y)
  {
  }

  lemma {:induction false} SumScales<K(!new)>(m: map<K, real>, scaled: map<K, real>, f: real)
    requires m.Keys == scaled.Keys && forall k :: k in m ==> scaled[k] == Times(f, m[k])
    ensures Sum(scaled) == Times(f, Sum(m))
    decreases |m|
  {
    if m == map[] {
      assert scaled == map[];
    } else {
      var k :| k in m;
      SumTakesOut(m, k);
      SumTakesOut(scaled, k);
      SumScales(m - {k}, scaled - {k}, f);
      TimesAdds(f, m[k], Sum(m - {k}));
      assert Sum(scaled) == Times(f, m[k]) + Times(f, Sum(m - {k}));
    }
  }
}
