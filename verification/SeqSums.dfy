/** Sums over a sequence, and their independence of order. */
module SeqSums {
  function SumOf<T>(xs: seq<T>, f: T -> real): real {
    if xs == [] then 0.0 else SumOf(xs[..|xs| - 1], f) + f(xs[|xs| - 1])
  }

  lemma {:induction false} SumOfConcat<T>(xs: seq<T>, ys: seq<T>, f: T -> real)
    ensures SumOf(xs + ys, f) == SumOf(xs, f) + SumOf(ys, f)
  {
    if ys == [] {
      assert xs + ys == xs;
    } else {
      SumOfConcat(xs, ys[..|ys| - 1], f);
      assert (xs + ys)[..|xs + ys| - 1] == xs + ys[..|ys| - 1];
    }
  }

  lemma SumOfAppend<T>(xs: seq<T>, x: T, f: T -> real)
    ensures SumOf(xs + [x], f) == SumOf(xs, f) + f(x)
  {
    assert (xs + [x])[..|xs|] == xs;
  }

  lemma SumOfRemove<T>(xs: seq<T>, k: nat, f: T -> real)
    requires k < |xs|
    ensures SumOf(xs, f) == SumOf(xs[..k] + xs[k + 1..], f) + f(xs[k])
  {
    assert xs == xs[..k] + ([xs[k]] + xs[k + 1..]);
    SumOfConcat(xs[..k], [xs[k]] + xs[k + 1..], f);
    SumOfConcat([xs[k]], xs[k + 1..], f);
    SumOfConcat(xs[..k], xs[k + 1..], f);
    assert SumOf([xs[k]], f) == f(xs[k]) by { SumOfAppend([], xs[k], f); assert [] + [xs[k]] == [xs[k]]; }
  }

  /** Two arrangements of the same elements have the same sum. */
  lemma {:induction false} SumOfPermutation<T>(xs: seq<T>, ys: seq<T>, f: T -> real)
    requires multiset(xs) == multiset(ys)
    ensures SumOf(xs, f) == SumOf(ys, f)
    decreases |xs|
  {
    if xs == [] {
      assert |multiset(ys)| == 0;
    } else {
      var n := |xs| - 1;
      var x := xs[n];
      assert x in multiset(ys);
      var k :| 0 <= k < |ys| && ys[k] == x;
      assert xs == xs[..n] + [x];
      assert ys == ys[..k] + [x] + ys[k + 1..];
      assert multiset(xs) == multiset(xs[..n]) + multiset{x};
      assert multiset(ys) == multiset(ys[..k] + ys[k + 1..]) + multiset{x};
      assert multiset(xs[..n]) == multiset(xs) - multiset{x};
      assert multiset(ys[..k] + ys[k + 1..]) == multiset(ys) - multiset{x};
      SumOfPermutation(xs[..n], ys[..k] + ys[k + 1..], f);
      SumOfRemove(ys, k, f);
    }
  }

  lemma {:induction false} SumOfEqual<T>(xs: seq<T>, f: T -> real, g: T -> real)
    requires forall i | 0 <= i < |xs| :: f(xs[i]) == g(xs[i])
    ensures SumOf(xs, f) == SumOf(xs, g)
  {
    if xs != [] { SumOfEqual(xs[..|xs| - 1], f, g); }
  }

  lemma {:induction false} SumOfAdd<T>(xs: seq<T>, f: T -> real, g: T -> real, h: T -> real)
    requires forall i | 0 <= i < |xs| :: h(xs[i]) == f(xs[i]) + g(xs[i])
    ensures SumOf(xs, h) == SumOf(xs, f) + SumOf(xs, g)
  {
    if xs != [] { SumOfAdd(xs[..|xs| - 1], f, g, h); }
  }

  lemma {:induction false} SumOfZero<T>(xs: seq<T>, f: T -> real)
    requires forall i | 0 <= i < |xs| :: f(xs[i]) == 0.0
    ensures SumOf(xs, f) == 0.0
  {
    if xs != [] { SumOfZero(xs[..|xs| - 1], f); }
  }
}
