/** Sums over the values of a finite map. */
module FiniteSum {
  ghost function Sum<K, V>(m: map<K, V>, f: V -> int): int
    decreases |m|
  {
    if m == map[] then 0
    else
      var k :| k in m;
      f(m[k]) + Sum(m - {k}, f)
  }

  /** The sum does not depend on the order in which keys are taken. */
  lemma {:induction false} SumTake<K, V>(m: map<K, V>, k: K, f: V -> int)
    requires k in m
    ensures Sum(m, f) == f(m[k]) + Sum(m - {k}, f)
    decreases |m|
  {
    var k0 :| k0 in m && Sum(m, f) == f(m[k0]) + Sum(m - {k0}, f);
    if k0 != k {
      SumTake(m - {k0}, k, f);
      SumTake(m - {k}, k0, f);
      assert m - {k0} - {k} == m - {k} - {k0};
    }
  }

  lemma SumPut<K, V>(m: map<K, V>, k: K, v: V, f: V -> int)
    ensures Sum(m[k := v], f) == (if k in m then Sum(m, f) - f(m[k]) else Sum(m, f)) + f(v)
  {
    SumTake(m[k := v], k, f);
    if k in m {
      SumTake(m, k, f);
      assert m[k := v] - {k} == m - {k};
    } else {
      assert m[k := v] - {k} == m;
    }
  }

  /** A sum of natural numbers is at least each of them, and zero only if all are. */
  lemma {:induction false} SumBounds<K, V>(m: map<K, V>, f: V -> int)
    requires forall k | k in m :: f(m[k]) >= 0
    ensures Sum(m, f) >= 0
    ensures forall k | k in m :: f(m[k]) <= Sum(m, f)
    decreases |m|
  {
    if m != map[] {
      var k0 :| k0 in m && Sum(m, f) == f(m[k0]) + Sum(m - {k0}, f);
      SumBounds(m - {k0}, f);
      forall k | k in m
        ensures f(m[k]) <= Sum(m, f)
      {
        if k != k0 {
          assert k in m - {k0} && (m - {k0})[k] == m[k];
        }
      }
    }
  }

  lemma {:induction false} SumZero<K, V>(m: map<K, V>, f: V -> int)
    requires forall k | k in m :: f(m[k]) == 0
    ensures Sum(m, f) == 0
    decreases |m|
  {
    if m != map[] {
      var k0 :| k0 in m && Sum(m, f) == f(m[k0]) + Sum(m - {k0}, f);
      SumZero(m - {k0}, f);
    }
  }
}
