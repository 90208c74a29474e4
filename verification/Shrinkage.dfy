/** Shrinkage of a covariance matrix toward its constant-correlation target, at any intensity. */
module Shrinkage {
  import opened Reals
  import opened Correlation
  import Frontier

  function Sd(sqrt: real -> real, s: Matrix, i: int): real { sqrt(s(i, i)) }

  function Outer(sqrt: real -> real, s: Matrix, i: int, j: int): real { Sd(sqrt, s, i) * Sd(sqrt, s, j) }

  function Ratio(x: real, outer: real): real { if outer > 0.0 then x / outer else 0.0 }

  /** The correlations of S; a pair with a zero variance counts as uncorrelated. */
  function Corr(sqrt: real -> real, s: Matrix): Matrix { (i, j) => Ratio(s(i, j), Outer(sqrt, s, i, j)) }

  function MeanCorr(sqrt: real -> real, n: nat, s: Matrix): real { MeanOffDiagonal(n, Corr(sqrt, s)) }

  /** f_ii = s_ii, f_ij = mean correlation times sqrt(s_ii s_jj). */
  function Target(sqrt: real -> real, n: nat, s: Matrix): Matrix {
    (i, j) => if i == j then s(i, i) else MeanCorr(sqrt, n, s) * Outer(sqrt, s, i, j)
  }

  function Shrunk(sqrt: real -> real, n: nat, s: Matrix, delta: real): Matrix {
    (i, j) => (1.0 - delta) * s(i, j) + delta * Target(sqrt, n, s)(i, j)
  }

  lemma CorrIs(sqrt: real -> real, s: Matrix, i: int, j: int)
    ensures Corr(sqrt, s)(i, j) == Ratio(s(i, j), Outer(sqrt, s, i, j))
  {}

  lemma ShrunkIs(sqrt: real -> real, n: nat, s: Matrix, delta: real, i: int, j: int)
    ensures Shrunk(sqrt, n, s, delta)(i, j) == (1.0 - delta) * s(i, j) + delta * Target(sqrt, n, s)(i, j)
    ensures Target(sqrt, n, s)(i, j) == if i == j then s(i, i) else MeanCorr(sqrt, n, s) * Outer(sqrt, s, i, j)
    ensures i == j ==> Shrunk(sqrt, n, s, delta)(i, j) == s(i, i)
  {}

  ghost predicate Covariance(n: nat, s: Matrix) {
    && Psd(n, s)
    && (forall i, j | 0 <= i < n && 0 <= j < n :: s(i, j) == s(j, i))
  }

  /** Every variance is kept at every intensity. */
  lemma VariancesKept(sqrt: real -> real, n: nat, s: Matrix, delta: real, i: int)
    ensures Shrunk(sqrt, n, s, delta)(i, i) == s(i, i)
    ensures Sd(sqrt, Shrunk(sqrt, n, s, delta), i) == Sd(sqrt, s, i)
  {}

  // ----------------------------------------------------- semidefiniteness

  lemma {:induction false} QuadUnit(n: nat, k: int, m: Matrix)
    requires 0 <= k < n
    ensures Quad(n, Unit(k), m) == m(k, k)
  {
    forall i | 0 <= i < n ensures Unit(k)(i) * Row(n, m, Unit(k), i) == if i == k then m(k, k) else 0.0 {
      RowUnit(n, k, m, i);
      hide Row;
    }
    OneTerm(n, k, i => Unit(k)(i) * Row(n, m, Unit(k), i), m(k, k));
  }

  function Unit(k: int): Vector { i => if i == k then 1.0 else 0.0 }

  lemma RowUnit(n: nat, k: int, m: Matrix, i: int)
    requires 0 <= k < n
    ensures Row(n, m, Unit(k), i) == m(i, k)
  {
    OneTerm(n, k, j => m(i, j) * Unit(k)(j), m(i, k));
  }

  function Apart(a: int, b: int): Vector { i => Unit(a)(i) - Unit(b)(i) }

  lemma RowApart(n: nat, a: int, b: int, m: Matrix, i: int)
    requires 0 <= a < n && 0 <= b < n
    ensures Row(n, m, Apart(a, b), i) == m(i, a) - m(i, b)
  {
    RowUnit(n, a, m, i);
    RowUnit(n, b, m, i);
    SumLinear(n, 1.0, j => m(i, j) * Unit(a)(j), -1.0, j => m(i, j) * Unit(b)(j), j => m(i, j) * Apart(a, b)(j));
  }

  function Spike(k: int, x: real): Vector { i => if i == k then x else 0.0 }

  lemma SpikeSum(n: nat, k: int, x: real)
    requires 0 <= k < n
    ensures SumTo(n, Spike(k, x)) == x
  {
    OneTerm(n, k, Spike(k, x), x);
  }

  lemma ApartTerm(n: nat, a: int, b: int, m: Matrix, i: int)
    requires 0 <= a < n && 0 <= b < n
    ensures QuadTerm(n, Apart(a, b), m, i)
         == 1.0 * Spike(a, m(a, a) - m(a, b))(i) + -1.0 * Spike(b, m(b, a) - m(b, b))(i)
  {
    RowApart(n, a, b, m, i);
    assert Unit(a)(i) == (if i == a then 1.0 else 0.0) && Unit(b)(i) == (if i == b then 1.0 else 0.0);
    assert Apart(a, b)(i) == Unit(a)(i) - Unit(b)(i);
    assert Apart(a, b)(i) == (if i == a then 1.0 else 0.0) - (if i == b then 1.0 else 0.0);
    hide Row, Apart;
  }

  /** The variance of a long-short pair. */
  lemma QuadApart(n: nat, a: int, b: int, m: Matrix)
    requires 0 <= a < n && 0 <= b < n
    ensures Quad(n, Apart(a, b), m) == m(a, a) - m(a, b) - m(b, a) + m(b, b)
  {
    hide *;
    var x, y := m(a, a) - m(a, b), m(b, a) - m(b, b);
    forall i | 0 <= i < n ensures QuadTerm(n, Apart(a, b), m, i) == 1.0 * Spike(a, x)(i) + -1.0 * Spike(b, y)(i) {
      ApartTerm(n, a, b, m, i);
    }
    QuadTerms(n, Apart(a, b), m);
    SumLinear(n, 1.0, Spike(a, x), -1.0, Spike(b, y), i => QuadTerm(n, Apart(a, b), m, i));
    SpikeSum(n, a, x);
    SpikeSum(n, b, y);
  }

  lemma VarianceSign(n: nat, s: Matrix, i: int)
    requires Psd(n, s) && 0 <= i < n
    ensures s(i, i) >= 0.0
  {
    QuadUnit(n, i, s);
    assert Quad(n, Unit(i), s) >= 0.0;
  }

  function Inverse(x: real): real { if x > 0.0 then 1.0 / x else 0.0 }

  function Idle(x: real): real { if x > 0.0 then 0.0 else 1.0 }

  lemma IdleSign(x: real)
    ensures 0.0 <= Idle(x) <= 1.0
  {}

  /** The correlations with the diagonal set to one. */
  function FullCorr(sqrt: real -> real, s: Matrix): Matrix {
    (i, j) => if i == j then 1.0 else Corr(sqrt, s)(i, j)
  }

  function Rescaled(sqrt: real -> real, s: Matrix): Matrix {
    (i, j) => Inverse(Sd(sqrt, s, i)) * s(i, j) * Inverse(Sd(sqrt, s, j))
  }

  function IdleDiagonal(sqrt: real -> real, s: Matrix): Vector { i => Idle(Sd(sqrt, s, i)) }

  lemma RatioIs(x: real, a: real, b: real)
    requires a >= 0.0 && b >= 0.0
    ensures Ratio(x, a * b) == Inverse(a) * x * Inverse(b)
  {
    var outer := a * b;
    if a > 0.0 && b > 0.0 {
      Positive(a, b, outer);
      var p, q := 1.0 / a, 1.0 / b;
      Quotient(1.0, a, p);
      Quotient(1.0, b, q);
      Quotient(x, outer, p * x * q);
      assert p * x * q * outer == x * (p * a) * (q * b);
    } else {
      assert outer == 0.0;
    }
  }

  lemma SelfRatio(x: real, a: real)
    requires a >= 0.0 && x == Square(a)
    ensures Inverse(a) * x * Inverse(a) + Idle(a) == 1.0
  {
    if a > 0.0 {
      var p := 1.0 / a;
      assert p * a == 1.0;
      assert p * x * p == (p * a) * (p * a);
    }
  }

  lemma SdFacts(sqrt: real -> real, n: nat, s: Matrix, i: int)
    requires IsSqrt(sqrt) && Psd(n, s) && 0 <= i < n
    ensures Sd(sqrt, s, i) >= 0.0 && Square(Sd(sqrt, s, i)) == s(i, i)
  {
    VarianceSign(n, s, i);
  }

  lemma FullCorrBlend(sqrt: real -> real, n: nat, s: Matrix, i: int, j: int)
    requires IsSqrt(sqrt) && Psd(n, s) && 0 <= i < n && 0 <= j < n
    ensures FullCorr(sqrt, s)(i, j)
         == 1.0 * Rescaled(sqrt, s)(i, j) + 1.0 * Diagonal(IdleDiagonal(sqrt, s))(i, j)
  {
    SdFacts(sqrt, n, s, i);
    SdFacts(sqrt, n, s, j);
    EntriesAre(sqrt, s, i, j);
    hide *;
    if i == j {
      SelfRatio(s(i, i), Sd(sqrt, s, i));
    } else {
      RatioIs(s(i, j), Sd(sqrt, s, i), Sd(sqrt, s, j));
    }
  }

  lemma EntriesAre(sqrt: real -> real, s: Matrix, i: int, j: int)
    ensures FullCorr(sqrt, s)(i, j) == if i == j then 1.0 else Ratio(s(i, j), Outer(sqrt, s, i, j))
    ensures Rescaled(sqrt, s)(i, j) == Inverse(Sd(sqrt, s, i)) * s(i, j) * Inverse(Sd(sqrt, s, j))
    ensures Diagonal(IdleDiagonal(sqrt, s))(i, j) == if i == j then Idle(Sd(sqrt, s, i)) else 0.0
  {
    CorrIs(sqrt, s, i, j);
  }

  function Inverses(sqrt: real -> real, s: Matrix): Vector { i => Inverse(Sd(sqrt, s, i)) }

  lemma RescaledPsd(sqrt: real -> real, n: nat, s: Matrix)
    requires Psd(n, s)
    ensures Psd(n, Rescaled(sqrt, s))
  {
    CongruentPsd(n, Inverses(sqrt, s), s, Rescaled(sqrt, s));
  }

  lemma FullCorrPsd(sqrt: real -> real, n: nat, s: Matrix)
    requires IsSqrt(sqrt) && Psd(n, s)
    ensures Psd(n, FullCorr(sqrt, s))
  {
    RescaledPsd(sqrt, n, s);
    forall i | 0 <= i < n ensures IdleDiagonal(sqrt, s)(i) >= 0.0 { IdleSign(Sd(sqrt, s, i)); }
    DiagonalPsd(n, IdleDiagonal(sqrt, s));
    forall i, j | 0 <= i < n && 0 <= j < n
      ensures FullCorr(sqrt, s)(i, j)
           == 1.0 * Rescaled(sqrt, s)(i, j) + 1.0 * Diagonal(IdleDiagonal(sqrt, s))(i, j)
    {
      FullCorrBlend(sqrt, n, s, i, j);
    }
    hide *;
    BlendPsd(n, 1.0, Rescaled(sqrt, s), 1.0, Diagonal(IdleDiagonal(sqrt, s)), FullCorr(sqrt, s));
  }

  lemma CorrAtMostOne(sqrt: real -> real, n: nat, s: Matrix, i: int, j: int)
    requires IsSqrt(sqrt) && Covariance(n, s) && 0 <= i < n && 0 <= j < n && i != j
    ensures Corr(sqrt, s)(i, j) <= 1.0
  {
    FullCorrPsd(sqrt, n, s);
    var c := FullCorr(sqrt, s);
    QuadApart(n, i, j, c);
    assert Quad(n, Apart(i, j), c) >= 0.0;
    assert s(i, j) == s(j, i);
    hide Quad, Psd, IsSqrt;
    assert Outer(sqrt, s, i, j) == Outer(sqrt, s, j, i);
    assert Corr(sqrt, s)(i, j) == Corr(sqrt, s)(j, i);
  }

  lemma MeanSame(n: nat, c: Matrix, k: Matrix)
    requires forall i, j | 0 <= i < n && 0 <= j < n && i != j :: c(i, j) == k(i, j)
    ensures MeanOffDiagonal(n, c) == MeanOffDiagonal(n, k)
  {
    var f: Vector := i => RowTotal(n, OffDiagonal(c), i);
    var g: Vector := i => RowTotal(n, OffDiagonal(k), i);
    forall i | 0 <= i < n ensures f(i) == g(i) {
      var x: Vector := j => OffDiagonal(c)(i, j);
      var y: Vector := j => OffDiagonal(k)(i, j);
      forall j | 0 <= j < n ensures x(j) == y(j) {
        OffDiagonalIs(c, i, j);
        OffDiagonalIs(k, i, j);
      }
      SumEqual(n, x, y);
    }
    SumEqual(n, f, g);
  }

  /** The mean correlation of a covariance matrix lies between the floor and one. */
  lemma MeanCorrBounds(sqrt: real -> real, n: nat, s: Matrix)
    requires IsSqrt(sqrt) && Covariance(n, s) && n >= 2
    ensures Frontier.PsdFloor(n) <= MeanCorr(sqrt, n, s) <= 1.0
  {
    var c := FullCorr(sqrt, s);
    FullCorrPsd(sqrt, n, s);
    assert UnitDiagonal(n, c);
    AverageFloor(sqrt, n, c);
    MeanSame(n, c, Corr(sqrt, s));
    forall i, j | 0 <= i < n && 0 <= j < n && i != j ensures Corr(sqrt, s)(i, j) <= 1.0 {
      CorrAtMostOne(sqrt, n, s, i, j);
    }
    MeanBelow(n, Corr(sqrt, s));
  }

  lemma MeanBelow(n: nat, c: Matrix)
    requires n >= 2 && (forall i, j | 0 <= i < n && 0 <= j < n && i != j :: c(i, j) <= 1.0)
    ensures MeanOffDiagonal(n, c) <= 1.0
  {
    var one := OffDiagonal(Equicorrelated(1.0));
    var gap: Matrix := (i, j) => if i == j then 0.0 else 1.0 - c(i, j);
    forall i, j | 0 <= i < n && 0 <= j < n
      ensures gap(i, j) >= 0.0 && gap(i, j) == 1.0 * one(i, j) + -1.0 * OffDiagonal(c)(i, j)
    {}
    var b := n as real * (n as real - 1.0);
    Positive(n as real, n as real - 1.0, b);
    MeanIs(n, c);
    MeanIs(n, Equicorrelated(1.0));
    hide *;
    EquicorrelatedMean(n, 1.0);
    TotalNonNegative(n, gap);
    TotalLinear(n, 1.0, one, -1.0, OffDiagonal(c), gap);
    DividedOrder(GrandTotal(n, OffDiagonal(c)), GrandTotal(n, one), b);
  }

  lemma DividedOrder(x: real, y: real, b: real)
    requires b > 0.0 && x <= y
    ensures x / b <= y / b
  {
    var p, q := x / b, y / b;
    Quotient(x, b, p);
    Quotient(y, b, q);
    if q < p { StrictlyScaled(b, q, p, b * q, b * p); }
  }

  function Sds(sqrt: real -> real, s: Matrix): Vector { i => Sd(sqrt, s, i) }

  lemma TargetCongruent(sqrt: real -> real, n: nat, s: Matrix, mean: real, i: int, j: int)
    requires IsSqrt(sqrt) && Psd(n, s) && 0 <= i < n && 0 <= j < n && mean == MeanCorr(sqrt, n, s)
    ensures Congruent(Sds(sqrt, s), Equicorrelated(mean))(i, j) == Target(sqrt, n, s)(i, j)
  {
    var a, b, e := Sd(sqrt, s, i), Sd(sqrt, s, j), if i == j then 1.0 else mean;
    CongruentIs(sqrt, s, mean, i, j);
    assert Outer(sqrt, s, i, j) == a * b;
    hide *;
    SdFacts(sqrt, n, s, i);
    ShrunkIs(sqrt, n, s, 0.0, i, j);
    SameOrTimes(a, b, e, mean, s(i, i), i == j);
  }

  lemma CongruentIs(sqrt: real -> real, s: Matrix, mean: real, i: int, j: int)
    ensures Congruent(Sds(sqrt, s), Equicorrelated(mean))(i, j)
         == Sd(sqrt, s, i) * (if i == j then 1.0 else mean) * Sd(sqrt, s, j)
  {
    assert Sds(sqrt, s)(i) == Sd(sqrt, s, i) && Sds(sqrt, s)(j) == Sd(sqrt, s, j);
    hide Sd;
  }

  lemma SameOrTimes(a: real, b: real, e: real, mean: real, variance: real, same: bool)
    requires same ==> a == b && Square(a) == variance
    requires e == if same then 1.0 else mean
    ensures a * e * b == if same then variance else mean * (a * b)
  {}

  lemma TargetPsd(sqrt: real -> real, n: nat, s: Matrix)
    requires IsSqrt(sqrt) && Covariance(n, s) && n >= 2
    ensures Psd(n, Target(sqrt, n, s))
  {
    var mean := MeanCorr(sqrt, n, s);
    var k := Congruent(Sds(sqrt, s), Equicorrelated(mean));
    assert Psd(n, s);
    hide *;
    MeanCorrBounds(sqrt, n, s);
    EquicorrelatedPsd(n, mean);
    CongruentKeepsPsd(n, Sds(sqrt, s), Equicorrelated(mean));
    forall i, j | 0 <= i < n && 0 <= j < n ensures k(i, j) == Target(sqrt, n, s)(i, j) {
      TargetCongruent(sqrt, n, s, mean, i, j);
    }
    PsdSame(n, k, Target(sqrt, n, s));
  }

  lemma ShrunkSymmetric(sqrt: real -> real, n: nat, s: Matrix, delta: real, i: int, j: int)
    requires s(i, j) == s(j, i)
    ensures Shrunk(sqrt, n, s, delta)(i, j) == Shrunk(sqrt, n, s, delta)(j, i)
  {
    ShrunkIs(sqrt, n, s, delta, i, j);
    ShrunkIs(sqrt, n, s, delta, j, i);
    assert Outer(sqrt, s, i, j) == Outer(sqrt, s, j, i);
    hide *;
  }

  /** Shrinking keeps a covariance matrix a covariance matrix, zero variances included. */
  lemma ShrunkIsCovariance(sqrt: real -> real, n: nat, s: Matrix, delta: real)
    requires IsSqrt(sqrt) && Covariance(n, s) && n >= 2 && 0.0 <= delta <= 1.0
    ensures Covariance(n, Shrunk(sqrt, n, s, delta))
  {
    hide Psd, Shrunk, Target, IsSqrt;
    TargetPsd(sqrt, n, s);
    forall i, j | 0 <= i < n && 0 <= j < n
      ensures Shrunk(sqrt, n, s, delta)(i, j) == Shrunk(sqrt, n, s, delta)(j, i)
      ensures Shrunk(sqrt, n, s, delta)(i, j) == (1.0 - delta) * s(i, j) + delta * Target(sqrt, n, s)(i, j)
    {
      ShrunkSymmetric(sqrt, n, s, delta, i, j);
      ShrunkIs(sqrt, n, s, delta, i, j);
    }
    BlendPsd(n, 1.0 - delta, s, delta, Target(sqrt, n, s), Shrunk(sqrt, n, s, delta));
  }

  // -------------------------------------------------- the mean correlation

  /** One off the diagonal where both variances are positive. */
  function Live(sqrt: real -> real, s: Matrix): Matrix {
    (i, j) => if Outer(sqrt, s, i, j) > 0.0 then 1.0 else 0.0
  }

  ghost predicate VariancesPositive(n: nat, s: Matrix) { forall i | 0 <= i < n :: s(i, i) > 0.0 }

  lemma ShrunkCorr(sqrt: real -> real, n: nat, s: Matrix, delta: real, i: int, j: int)
    requires i != j
    ensures Corr(sqrt, Shrunk(sqrt, n, s, delta))(i, j)
         == (1.0 - delta) * Corr(sqrt, s)(i, j) + delta * MeanCorr(sqrt, n, s) * Live(sqrt, s)(i, j)
  {
    var outer := Outer(sqrt, s, i, j);
    ShrunkIs(sqrt, n, s, delta, i, i);
    ShrunkIs(sqrt, n, s, delta, j, j);
    ShrunkIs(sqrt, n, s, delta, i, j);
    assert Outer(sqrt, Shrunk(sqrt, n, s, delta), i, j) == outer;
    CorrIs(sqrt, s, i, j);
    CorrIs(sqrt, Shrunk(sqrt, n, s, delta), i, j);
    assert Live(sqrt, s)(i, j) == if outer > 0.0 then 1.0 else 0.0;
    hide *;
    ShrunkRatio(s(i, j), outer, delta, MeanCorr(sqrt, n, s));
  }

  lemma ShrunkRatio(x: real, outer: real, delta: real, mean: real)
    ensures Ratio((1.0 - delta) * x + delta * (mean * outer), outer)
         == (1.0 - delta) * Ratio(x, outer) + delta * mean * (if outer > 0.0 then 1.0 else 0.0)
  {
    if outer > 0.0 {
      var q := x / outer;
      Quotient(x, outer, q);
      Quotient((1.0 - delta) * x + delta * (mean * outer), outer, (1.0 - delta) * q + delta * mean);
    }
  }

  lemma LiveEverywhere(sqrt: real -> real, n: nat, s: Matrix)
    requires IsSqrt(sqrt) && Psd(n, s) && n >= 2
    ensures VariancesPositive(n, s) <==>
      forall i, j | 0 <= i < n && 0 <= j < n && i != j :: Live(sqrt, s)(i, j) == 1.0
  {
    forall i | 0 <= i < n
      ensures Sd(sqrt, s, i) >= 0.0 && (s(i, i) > 0.0 <==> Sd(sqrt, s, i) > 0.0)
    {
      SdFacts(sqrt, n, s, i);
      SquareSign(Sd(sqrt, s, i));
    }
    hide Sd, Psd, IsSqrt;
    if VariancesPositive(n, s) {
      forall i, j | 0 <= i < n && 0 <= j < n && i != j ensures Live(sqrt, s)(i, j) == 1.0 {
        Positive(Sd(sqrt, s, i), Sd(sqrt, s, j), Sd(sqrt, s, i) * Sd(sqrt, s, j));
      }
    } else {
      var i :| 0 <= i < n && !(s(i, i) > 0.0);
      var j := if i == 0 then 1 else 0;
      assert Sd(sqrt, s, i) == 0.0;
      assert Live(sqrt, s)(i, j) == 0.0;
    }
  }

  /** The mean correlation is kept exactly when nothing is shrunk, when it is zero, or when every
      variance is positive, as the production estimator demands. */
  lemma MeanCorrKept(sqrt: real -> real, n: nat, s: Matrix, delta: real)
    requires IsSqrt(sqrt) && Psd(n, s) && n >= 2
    ensures MeanCorr(sqrt, n, Shrunk(sqrt, n, s, delta)) == MeanCorr(sqrt, n, s)
       <==> delta == 0.0 || MeanCorr(sqrt, n, s) == 0.0 || VariancesPositive(n, s)
  {
    hide *;
    var mean := MeanCorr(sqrt, n, s);
    var after, before := Corr(sqrt, Shrunk(sqrt, n, s, delta)), Corr(sqrt, s);
    ShrunkTotal(sqrt, n, s, delta, mean);
    var full, dead := LiveTotal(sqrt, n, s);
    var b := n as real * (n as real - 1.0);
    Positive(n as real, n as real - 1.0, b);
    MeanIs(n, before);
    MeanIs(n, after);
    MeanCorrIs(sqrt, n, s);
    MeanCorrIs(sqrt, n, Shrunk(sqrt, n, s, delta));
    MeanShift(b, delta, mean, GrandTotal(n, OffDiagonal(before)), GrandTotal(n, OffDiagonal(after)),
      GrandTotal(n, OffDiagonal(Live(sqrt, s))), full, dead);
  }

  lemma ShrunkTotal(sqrt: real -> real, n: nat, s: Matrix, delta: real, mean: real)
    requires mean == MeanCorr(sqrt, n, s)
    ensures GrandTotal(n, OffDiagonal(Corr(sqrt, Shrunk(sqrt, n, s, delta))))
         == (1.0 - delta) * GrandTotal(n, OffDiagonal(Corr(sqrt, s)))
            + delta * mean * GrandTotal(n, OffDiagonal(Live(sqrt, s)))
  {
    hide *;
    var after, before, live := Corr(sqrt, Shrunk(sqrt, n, s, delta)), Corr(sqrt, s), Live(sqrt, s);
    forall i, j | 0 <= i < n && 0 <= j < n
      ensures OffDiagonal(after)(i, j)
           == (1.0 - delta) * OffDiagonal(before)(i, j) + delta * mean * OffDiagonal(live)(i, j)
    {
      OffDiagonalIs(after, i, j);
      OffDiagonalIs(before, i, j);
      OffDiagonalIs(live, i, j);
      if i != j { ShrunkCorr(sqrt, n, s, delta, i, j); }
    }
    TotalLinear(n, 1.0 - delta, OffDiagonal(before), delta * mean, OffDiagonal(live), OffDiagonal(after));
  }

  /** The number of off-diagonal pairs, and how many of them have a zero variance. */
  lemma LiveTotal(sqrt: real -> real, n: nat, s: Matrix) returns (full: real, dead: real)
    requires IsSqrt(sqrt) && Psd(n, s) && n >= 2
    ensures full / (n as real * (n as real - 1.0)) == 1.0
    ensures dead == 1.0 * full + -1.0 * GrandTotal(n, OffDiagonal(Live(sqrt, s)))
    ensures dead == 0.0 <==> VariancesPositive(n, s)
  {
    hide *;
    var all, live := OffDiagonal(Equicorrelated(1.0)), OffDiagonal(Live(sqrt, s));
    var rest: Matrix := (i, j) => 1.0 * all(i, j) + -1.0 * live(i, j);
    full, dead := GrandTotal(n, all), GrandTotal(n, rest);
    TotalLinear(n, 1.0, all, -1.0, live, rest);
    DeadEntries(sqrt, n, s, rest);
    EquicorrelatedMean(n, 1.0);
    MeanIs(n, Equicorrelated(1.0));
  }

  lemma MeanCorrIs(sqrt: real -> real, n: nat, s: Matrix)
    ensures MeanCorr(sqrt, n, s) == MeanOffDiagonal(n, Corr(sqrt, s))
  {}

  lemma DeadEntries(sqrt: real -> real, n: nat, s: Matrix, dead: Matrix)
    requires IsSqrt(sqrt) && Psd(n, s) && n >= 2
    requires forall i, j | 0 <= i < n && 0 <= j < n ::
      dead(i, j) == 1.0 * OffDiagonal(Equicorrelated(1.0))(i, j) + -1.0 * OffDiagonal(Live(sqrt, s))(i, j)
    ensures GrandTotal(n, dead) == 0.0 <==> VariancesPositive(n, s)
  {
    LiveEverywhere(sqrt, n, s);
    hide Psd, IsSqrt, GrandTotal;
    forall i, j | 0 <= i < n && 0 <= j < n
      ensures dead(i, j) >= 0.0
      ensures dead(i, j) == 0.0 <==> i == j || Live(sqrt, s)(i, j) == 1.0
    {}
    TotalNonNegative(n, dead);
  }

  lemma MeanShift(b: real, delta: real, mean: real, t: real, u: real, live: real, full: real, dead: real)
    requires b > 0.0 && mean == t / b && full / b == 1.0
    requires u == (1.0 - delta) * t + delta * mean * live && dead == 1.0 * full + -1.0 * live
    ensures u / b == mean <==> delta == 0.0 || mean == 0.0 || dead == 0.0
  {
    Quotient(t, b, mean);
    Quotient(full, b, 1.0);
    Quotient(u, b, mean);
    var dm := delta * mean;
    assert u - mean * b == -dm * dead by {
      assert delta * t == dm * b;
      assert u == t - dm * b + dm * live;
    }
    ZeroProduct(delta, mean, dm);
    ZeroProduct(dm, dead, dm * dead);
  }

  lemma ZeroProduct(x: real, y: real, p: real)
    requires p == x * y
    ensures p == 0.0 <==> x == 0.0 || y == 0.0
  {
    if x > 0.0 && y > 0.0 { Positive(x, y, p); }
    if x > 0.0 && y < 0.0 { Mixed(x, y, p); }
    if x < 0.0 && y > 0.0 { Mixed(y, x, p); }
    if x < 0.0 && y < 0.0 { Negatives(x, y, p); }
  }

  /** Weights read from the variances alone are the same after shrinking. */
  lemma DiagonalWeightsKept(sqrt: real -> real, n: nat, s: Matrix, delta: real, w: Vector -> Vector)
    requires forall x: Vector, y: Vector | forall i | 0 <= i < n :: x(i) == y(i) ::
      forall i | 0 <= i < n :: w(x)(i) == w(y)(i)
    ensures forall i | 0 <= i < n :: w(Variances(Shrunk(sqrt, n, s, delta)))(i) == w(Variances(s))(i)
  {
    forall i | 0 <= i < n ensures Variances(Shrunk(sqrt, n, s, delta))(i) == Variances(s)(i) {
      VariancesKept(sqrt, n, s, delta, i);
    }
  }

  function Variances(s: Matrix): Vector { i => s(i, i) }
}
