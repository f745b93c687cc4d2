/**
 * Adding up the values of a finite map.
 */
module MapSum {

  ghost function Sum<K(!new)>(m: map<K, real>): real
    decreases |m|
  {
    if m == map[] then 0.0
    else
      var k :| k in m;
      m[k] + Sum(m - {k})
  }

  /** The total does not depend on the order in which keys are taken. */
  lemma {:induction false} SumTake<K(!new)>(m: map<K, real>, k: K)
    requires k in m
    ensures Sum(m) == m[k] + Sum(m - {k})
    decreases |m|
  {
    var j :| j in m && Sum(m) == m[j] + Sum(m - {j});
    if j != k {
      SumTake(m - {j}, k);
      SumTake(m - {k}, j);
      assert m - {j} - {k} == m - {k} - {j};
    }
  }

  function At<K>(m: map<K, real>, k: K): real {
    if k in m then m[k] else 0.0
  }

  lemma SumUpdate<K(!new)>(m: map<K, real>, k: K, v: real)
    ensures Sum(m[k := v]) == Sum(m) - At(m, k) + v
  {
    SumTake(m[k := v], k);
    assert m[k := v] - {k} == m - {k};
    if k in m {
      SumTake(m, k);
    } else {
      assert m - {k} == m;
    }
  }

  lemma {:induction false} SumNonNegative<K(!new)>(m: map<K, real>)
    requires forall k :: k in m ==> m[k] >= 0.0
    ensures Sum(m) >= 0.0
    decreases |m|
  {
    if m != map[] {
      var k :| k in m;
      SumTake(m, k);
      SumNonNegative(m - {k});
    }
  }

  function Scale(factor: real, x: real): real {
    factor * x
  }

  lemma ScaleSum(factor: real, x: real, y: real)
    ensures Scale(factor, x + y) == Scale(factor, x) + Scale(factor, y) && Scale(factor, 0.0) == 0.0
  {
  }

  /** Scaling every value scales the total. */
  lemma {:induction false} SumScaled<K(!new)>(m: map<K, real>, scaled: map<K, real>, factor: real)
    requires scaled.Keys == m.Keys && forall k :: k in m ==> scaled[k] == Scale(factor, m[k])
    ensures Sum(scaled) == Scale(factor, Sum(m))
    decreases |m|
  {
    hide Scale;
    ScaleSum(factor, 0.0, 0.0);
    if m != map[] {
      var k :| k in m;
      SumTake(m, k);
      SumTake(scaled, k);
      SumScaled(m - {k}, scaled - {k}, factor);
      ScaleSum(factor, m[k], Sum(m - {k}));
    } else {
      assert scaled == map[];
    }
  }
}
