/** Sums over the rows of a table.  A table is a finite map, so a sum over its
    rows must not depend on the order in which the database returns them. */
module Sums {

  /** The sum of all values of `m`. */
  ghost function Total<K>(m: map<K, real>): real
    decreases |m|
  {
    if m == map[] then 0.0
    else
      var k :| k in m;
      m[k] + Total(m - {k})
  }

  /** Any row may be taken out first. */
  lemma {:induction false} TotalTakeOut<K>(m: map<K, real>, k: K)
    requires k in m
    ensures Total(m) == m[k] + Total(m - {k})
    decreases |m|
  {
    var c :| c in m && Total(m) == m[c] + Total(m - {c});
    if c != k {
      TotalTakeOut(m - {c}, k);
      TotalTakeOut(m - {k}, c);
      assert m - {c} - {k} == m - {k} - {c};
    }
  }

  /** Adding a row under a new key adds its value. */
  lemma TotalPutIn<K>(m: map<K, real>, k: K, v: real)
    requires k !in m
    ensures Total(m[k := v]) == Total(m) + v
  {
    TotalTakeOut(m[k := v], k);
    assert m[k := v] - {k} == m;
  }

  lemma TakenOutOfJoin<K>(m: map<K, real>, n: map<K, real>, k: K)
    requires m.Keys !! n.Keys && k in m
    ensures k in m + n && (m + n)[k] == m[k]
    ensures (m + n) - {k} == (m - {k}) + n
  {
  }

  /** The sum over two disjoint tables. */
  lemma {:induction false} TotalDisjoint<K>(m: map<K, real>, n: map<K, real>)
    requires m.Keys !! n.Keys
    ensures Total(m + n) == Total(m) + Total(n)
    decreases |m|
  {
    if m == map[] {
      assert m + n == n;
    } else {
      var k :| k in m;
      hide Total;
      TakenOutOfJoin(m, n, k);
      TotalTakeOut(m + n, k);
      TotalDisjoint(m - {k}, n);
      TotalTakeOut(m, k);
    }
  }

  /** The sum is additive row by row. */
  lemma {:induction false} TotalPointwise<K>(m: map<K, real>, n: map<K, real>, s: map<K, real>)
    requires m.Keys == n.Keys == s.Keys
    requires forall k :: k in s ==> s[k] == m[k] + n[k]
    ensures Total(s) == Total(m) + Total(n)
    decreases |s|
  {
    if s == map[] {
      assert m == map[] && n == map[];
    } else {
      var k :| k in s;
      TotalTakeOut(m, k);
      TotalTakeOut(n, k);
      TotalTakeOut(s, k);
      TotalPointwise(m - {k}, n - {k}, s - {k});
    }
  }

  /** A table of non-negative values has a non-negative sum. */
  lemma {:induction false} TotalNonNegative<K>(m: map<K, real>)
    requires forall k :: k in m ==> m[k] >= 0.0
    ensures Total(m) >= 0.0
    decreases |m|
  {
    if m != map[] {
      var k :| k in m;
      TotalTakeOut(m, k);
      TotalNonNegative(m - {k});
    }
  }
}
