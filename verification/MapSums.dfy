/** Sums over the values of a finite map, in whatever order the keys are visited. */
module MapSums {

  ghost function Total<K>(m: map<K, real>): real
    decreases |m|
  {
    if m == map[] then 0.0
    else
      var k :| k in m;
      m[k] + Total(m - {k})
  }

  lemma TotalEmpty<K>(m: map<K, real>)
    requires m == map[]
    ensures Total(m) == 0.0
  {}

  /** Any key can be the first one visited. */
  lemma {:induction false} TotalRemove<K>(m: map<K, real>, k: K)
    requires k in m
    ensures Total(m) == m[k] + Total(m - {k})
    decreases |m|
  {
    var j :| j in m && Total(m) == m[j] + Total(m - {j});
    if j != k {
      TotalRemove(m - {j}, k);
      TotalRemove(m - {k}, j);
      assert m - {j} - {k} == m - {k} - {j};
    }
  }

  lemma TotalPut<K>(m: map<K, real>, k: K, v: real)
    ensures Total(m[k := v]) == v + Total(m - {k})
  {
    TotalRemove(m[k := v], k);
    assert m[k := v] - {k} == m - {k};
  }

  lemma {:induction false} TotalLinear<K>(a: real, f: map<K, real>, b: real, g: map<K, real>, h: map<K, real>)
    requires f.Keys == g.Keys == h.Keys
    requires forall k | k in h :: h[k] == a * f[k] + b * g[k]
    ensures Total(h) == a * Total(f) + b * Total(g)
    decreases |h|
  {
    hide Total;
    if h == map[] {
      TotalEmpty(f);
      TotalEmpty(g);
      TotalEmpty(h);
    } else {
      var k :| k in h;
      TotalRemove(f, k);
      TotalRemove(g, k);
      TotalRemove(h, k);
      TotalLinear(a, f - {k}, b, g - {k}, h - {k});
      Regroup(a, f[k], Total(f - {k}), Total(f));
      Regroup(b, g[k], Total(g - {k}), Total(g));
    }
  }

  lemma Regroup(a: real, x: real, y: real, z: real)
    requires z == x + y
    ensures a * z == a * x + a * y
  {}

  /** Extra keys that carry zero leave the total unchanged. */
  lemma {:induction false} TotalZeros<K>(f: map<K, real>, g: map<K, real>)
    requires f.Keys <= g.Keys
    requires forall k | k in f :: g[k] == f[k]
    requires forall k | k in g && k !in f :: g[k] == 0.0
    ensures Total(g) == Total(f)
    decreases |g|
  {
    hide Total;
    if g == map[] {
      TotalEmpty(f);
      TotalEmpty(g);
    } else {
      var k :| k in g;
      TotalRemove(g, k);
      if k in f {
        TotalRemove(f, k);
        TotalZeros(f - {k}, g - {k});
      } else {
        TotalZeros(f, g - {k});
      }
    }
  }

  /** A total of non-negative values is non-negative, and zero only when every value is zero. */
  lemma {:induction false} TotalNonNegative<K>(m: map<K, real>)
    requires forall k | k in m :: m[k] >= 0.0
    ensures Total(m) >= 0.0
    ensures Total(m) == 0.0 ==> forall k | k in m :: m[k] == 0.0
    decreases |m|
  {
    hide Total;
    if m == map[] {
      TotalEmpty(m);
    } else {
      var k :| k in m;
      TotalRemove(m, k);
      TotalNonNegative(m - {k});
      forall j | Total(m) == 0.0 && j in m
        ensures m[j] == 0.0
      {
        assert j == k || j in m - {k};
      }
    }
  }

  /** ... and bounds each of the values. */
  lemma TotalBounds<K>(m: map<K, real>, k: K)
    requires k in m && forall j | j in m :: m[j] >= 0.0
    ensures 0.0 <= m[k] <= Total(m)
  {
    TotalRemove(m, k);
    TotalNonNegative(m - {k});
  }
}
