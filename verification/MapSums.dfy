/** Sums over the values of a finite map. */
module MapSums {

  ghost function Sum<K(!new)>(m: map<K, nat>): nat {
    if m == map[] then 0
    else
      var k :| k in m;
      m[k] + Sum(m - {k})
  }

  lemma {:induction false} SumRemove<K(!new)>(m: map<K, nat>, k: K)
    requires k in m
    ensures Sum(m) == m[k] + Sum(m - {k})
    decreases m.Keys
  {
    var j :| j in m && Sum(m) == m[j] + Sum(m - {j});
    if j != k {
      SumRemove(m - {j}, k);
      SumRemove(m - {k}, j);
      assert m - {j} - {k} == m - {k} - {j};
    }
  }

  /** Changing one value changes the sum by the difference. */
  lemma SumUpdate<K(!new)>(m: map<K, nat>, k: K, v: nat)
    ensures Sum(m[k := v]) == Sum(m) + v - (if k in m then m[k] else 0)
  {
    SumRemove(m[k := v], k);
    if k in m {
      SumRemove(m, k);
      assert m[k := v] - {k} == m - {k};
    } else {
      assert m[k := v] - {k} == m;
    }
  }

  lemma {:induction false} SumMonotone<K(!new)>(a: map<K, nat>, b: map<K, nat>)
    requires a.Keys == b.Keys && forall k :: k in a ==> a[k] <= b[k]
    ensures Sum(a) <= Sum(b)
    decreases a.Keys
  {
    if a != map[] {
      var k :| k in a;
      SumRemove(a, k);
      SumRemove(b, k);
      SumMonotone(a - {k}, b - {k});
    } else {
      assert b == map[];
    }
  }

  /** Pointwise smaller and strictly smaller somewhere. */
  lemma SumStrictlyMonotone<K(!new)>(a: map<K, nat>, b: map<K, nat>, k: K)
    requires a.Keys == b.Keys && forall i :: i in a ==> a[i] <= b[i]
    requires k in a && a[k] < b[k]
    ensures Sum(a) < Sum(b)
  {
    SumRemove(a, k);
    SumRemove(b, k);
    SumMonotone(a - {k}, b - {k});
  }

  lemma {:induction false} SumZero<K(!new)>(m: map<K, nat>)
    requires forall k :: k in m ==> m[k] == 0
    ensures Sum(m) == 0
    decreases m.Keys
  {
    if m != map[] {
      var k :| k in m && Sum(m) == m[k] + Sum(m - {k});
      SumZero(m - {k});
    }
  }

  /** Zeros can be left out of a sum. */
  lemma {:induction false} SumWithoutZeros<K(!new)>(a: map<K, nat>, b: map<K, nat>)
    requires b.Keys <= a.Keys && forall k :: k in a ==> a[k] == if k in b then b[k] else 0
    ensures Sum(a) == Sum(b)
    decreases a.Keys
  {
    if a == map[] {
      assert b == map[];
    } else {
      var k :| k in a;
      SumRemove(a, k);
      if k in b {
        SumRemove(b, k);
        SumWithoutZeros(a - {k}, b - {k});
      } else {
        SumWithoutZeros(a - {k}, b);
      }
    }
  }

  lemma SumAtLeast<K(!new)>(m: map<K, nat>, k: K)
    requires k in m
    ensures m[k] <= Sum(m)
  {
    SumRemove(m, k);
  }
}
