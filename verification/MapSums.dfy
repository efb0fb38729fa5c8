/** Sums over the values of a finite map. */
module MapSums {
  ghost function Sum<K>(m: map<K, int>): int {
    if m == map[] then 0 else var k :| k in m; m[k] + Sum(m - {k})
  }

  /** Any key may be taken out first. */
  lemma {:induction false} SumWithout<K>(m: map<K, int>, k: K)
    requires k in m
    ensures Sum(m) == m[k] + Sum(m - {k})
    decreases |m|
  {
    var x :| x in m && Sum(m) == m[x] + Sum(m - {x});
    if x != k {
      SumWithout(m - {x}, k);
      SumWithout(m - {k}, x);
      assert m - {x} - {k} == m - {k} - {x};
    }
  }

  lemma SumUpdate<K>(m: map<K, int>, k: K, v: int)
    ensures Sum(m[k := v]) == Sum(m) - (if k in m then m[k] else 0) + v
  {
    SumWithout(m[k := v], k);
    assert m[k := v] - {k} == m - {k};
    if k in m {
      SumWithout(m, k);
    } else {
      assert m - {k} == m;
    }
  }

  /** Fewer keys, or smaller values, never add up to more. */
  lemma {:induction false} SumLess<K>(less: map<K, int>, m: map<K, int>)
    requires less.Keys <= m.Keys && (forall x :: x in less ==> less[x] <= m[x]) && forall x :: x in m ==> m[x] >= 0
    ensures Sum(less) <= Sum(m)
    decreases |m|
  {
    if m == map[] {
      assert less == map[];
    } else {
      var k :| k in m;
      SumWithout(m, k);
      if k in less {
        SumWithout(less, k);
      } else {
        assert less - {k} == less;
      }
      SumLess(less - {k}, m - {k});
    }
  }

  /** A sum changes by as much as the sum of those keys that change. */
  lemma {:induction false} SumChange<K>(m: map<K, int>, m': map<K, int>, part: map<K, int>, part': map<K, int>)
    requires m'.Keys == m.Keys && part'.Keys == part.Keys
    requires forall x :: x in part ==> x in m && part[x] == m[x] && part'[x] == m'[x]
    requires forall x :: x in m && x !in part ==> m'[x] == m[x]
    ensures Sum(m') - Sum(m) == Sum(part') - Sum(part)
    decreases |part|
  {
    if part == map[] {
      assert part' == map[] && m' == m;
    } else {
      var k :| k in part;
      SumWithout(m, k);
      SumWithout(m', k);
      SumWithout(part, k);
      SumWithout(part', k);
      SumChange(m - {k}, m' - {k}, part - {k}, part' - {k});
    }
  }

  lemma {:induction false} SumAtLeast<K>(m: map<K, int>, k: K)
    requires k in m && forall x :: x in m ==> m[x] >= 0
    ensures Sum(m) >= m[k]
    decreases |m|
  {
    SumWithout(m, k);
    SumNonNegative(m - {k});
  }

  lemma {:induction false} SumNonNegative<K>(m: map<K, int>)
    requires forall x :: x in m ==> m[x] >= 0
    ensures Sum(m) >= 0
    decreases |m|
  {
    if m != map[] {
      var x :| x in m && Sum(m) == m[x] + Sum(m - {x});
      SumNonNegative(m - {x});
    }
  }

  lemma {:induction false} SumZero<K>(m: map<K, int>)
    requires forall x :: x in m ==> m[x] == 0
    ensures Sum(m) == 0
    decreases |m|
  {
    if m != map[] {
      var x :| x in m && Sum(m) == m[x] + Sum(m - {x});
      SumZero(m - {x});
    }
  }
}
