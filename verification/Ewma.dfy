/** The windowed covariance estimator: the closed-form row weights, the seeded recursion they
    stand for, and what they say about memory and effective sample. `lam` is the decay
    0.5^(1/halflife) of the scripts, any number strictly between zero and one. */
module Ewma {
  import opened Reals

  ghost predicate Shape(lam: real, window: nat, seed: nat) {
    0.0 < lam < 1.0 && 1 <= seed <= window
  }

  /** The weight of row i, row 0 being the oldest. */
  function Weight(lam: real, window: nat, seed: nat, i: int): real
    requires 1 <= seed <= window
  {
    if 0 <= i < seed then Pow(lam, window - seed) / seed as real
    else if seed <= i < window then (1.0 - lam) * Pow(lam, window - 1 - i)
    else 0.0
  }

  /** The two slices are filled in place. */
  method ProductionWeights(lam: real, window: nat, seed: nat) returns (w: array<real>)
    requires Shape(lam, window, seed)
    ensures fresh(w) && w.Length == window
    ensures forall i | 0 <= i < window :: w[i] == Weight(lam, window, seed, i)
  {
    hide Pow;
    var k := window - seed;
    w := new real[window];
    var i := 0;
    while i < seed
      invariant 0 <= i <= seed
      invariant forall h | 0 <= h < i :: w[h] == Weight(lam, window, seed, h)
    {
      w[i] := Pow(lam, k) / seed as real;
      i := i + 1;
    }
    var j := 0;
    while j < k
      invariant 0 <= j <= k
      invariant forall h | 0 <= h < seed + j :: w[h] == Weight(lam, window, seed, h)
    {
      w[seed + j] := (1.0 - lam) * Pow(lam, k - 1 - j);
      j := j + 1;
    }
  }

  // ------------------------------------------------------ the recursion

  /** S starts from the equal-weight mean of the seed rows and takes one exponential step a row. */
  function Seeded(lam: real, seed: nat, x: Vector, n: nat): real
    requires 1 <= seed <= n
    decreases n
  {
    if n == seed then SumTo(seed, x) / seed as real
    else lam * Seeded(lam, seed, x, n - 1) + (1.0 - lam) * x(n - 1)
  }

  function Weighted(lam: real, window: nat, seed: nat, x: Vector): real
    requires 1 <= seed <= window
  {
    SumTo(window, i => Weight(lam, window, seed, i) * x(i))
  }

  /** One more row scales every earlier weight by lam. */
  lemma WeightDecays(lam: real, window: nat, seed: nat, i: int)
    requires Shape(lam, window, seed) && 0 <= i < window
    ensures Weight(lam, window + 1, seed, i) == lam * Weight(lam, window, seed, i)
  {
    if i < seed {
      assert Pow(lam, window + 1 - seed) == lam * Pow(lam, window - seed);
      hide Pow;
      assert lam * Pow(lam, window - seed) / seed as real == lam * (Pow(lam, window - seed) / seed as real);
    } else {
      assert Pow(lam, window - i) == lam * Pow(lam, window - 1 - i);
    }
  }

  lemma WeightedAtSeed(lam: real, seed: nat, x: Vector)
    requires Shape(lam, seed, seed)
    ensures Weighted(lam, seed, seed, x) == SumTo(seed, x) / seed as real
  {
    var c := 1.0 / seed as real;
    var f: Vector := i => Weight(lam, seed, seed, i) * x(i);
    forall i | 0 <= i < seed ensures f(i) == c * x(i) {
      assert Pow(lam, 0) == 1.0;
    }
    SumScale(seed, c, x, f);
    hide SumTo, Weight;
    assert c * SumTo(seed, x) == SumTo(seed, x) / seed as real;
  }

  lemma LastWeight(lam: real, m: nat, seed: nat)
    requires Shape(lam, m, seed)
    ensures Weight(lam, m + 1, seed, m) == 1.0 - lam
  {
    assert Pow(lam, 0) == 1.0;
  }

  lemma TermsDecay(lam: real, m: nat, seed: nat, x: Vector)
    requires Shape(lam, m, seed)
    ensures forall i | 0 <= i < m ::
      Weight(lam, m + 1, seed, i) * x(i) == lam * (Weight(lam, m, seed, i) * x(i))
  {
    hide Weight;
    forall i | 0 <= i < m
      ensures Weight(lam, m + 1, seed, i) * x(i) == lam * (Weight(lam, m, seed, i) * x(i))
    {
      WeightDecays(lam, m, seed, i);
      Associate3(lam, Weight(lam, m, seed, i), x(i), Weight(lam, m + 1, seed, i),
        Weight(lam, m + 1, seed, i) * x(i), Weight(lam, m, seed, i) * x(i));
    }
  }

  lemma WeightedIs(lam: real, window: nat, seed: nat, x: Vector)
    requires 1 <= seed <= window
    ensures Weighted(lam, window, seed, x) == SumTo(window, i => Weight(lam, window, seed, i) * x(i))
  {}

  lemma WeightedSplit(lam: real, m: nat, seed: nat, x: Vector)
    requires Shape(lam, m, seed)
    ensures Weighted(lam, m + 1, seed, x)
         == SumTo(m, i => Weight(lam, m + 1, seed, i) * x(i)) + Weight(lam, m + 1, seed, m) * x(m)
  {
    hide Weight;
  }

  lemma WeightedStep(lam: real, m: nat, seed: nat, x: Vector)
    requires Shape(lam, m, seed)
    ensures Weighted(lam, m + 1, seed, x) == lam * Weighted(lam, m, seed, x) + (1.0 - lam) * x(m)
  {
    hide Weighted, SumTo, Weight, Pow;
    WeightedIs(lam, m, seed, x);
    WeightedSplit(lam, m, seed, x);
    TermsDecay(lam, m, seed, x);
    SumScale(m, lam, i => Weight(lam, m, seed, i) * x(i), i => Weight(lam, m + 1, seed, i) * x(i));
    LastWeight(lam, m, seed);
  }

  /** The closed-form weights reproduce the seeded recursion, for every row sequence. */
  lemma {:induction false} WeightsAreRecursion(lam: real, window: nat, seed: nat, x: Vector)
    requires Shape(lam, window, seed)
    ensures Weighted(lam, window, seed, x) == Seeded(lam, seed, x, window)
    decreases window
  {
    hide Weighted, SumTo;
    if window == seed {
      WeightedAtSeed(lam, seed, x);
    } else {
      WeightsAreRecursion(lam, window - 1, seed, x);
      WeightedStep(lam, window - 1, seed, x);
    }
  }

  lemma Associate3(a: real, b: real, c: real, ab: real, f: real, g: real)
    requires ab == a * b && f == ab * c && g == b * c
    ensures f == a * g
  {}

  lemma {:induction false} SeededOfOnes(lam: real, seed: nat, x: Vector, n: nat)
    requires 1 <= seed <= n
    requires forall i | 0 <= i < n :: x(i) == 1.0
    ensures Seeded(lam, seed, x, n) == 1.0
    decreases n
  {
    if n == seed {
      SumConstant(seed, 1.0, x);
    } else {
      SeededOfOnes(lam, seed, x, n - 1);
    }
  }

  /** The weights are a distribution: each positive, all adding up to one. */
  lemma WeightsAreDistribution(lam: real, window: nat, seed: nat)
    requires Shape(lam, window, seed)
    ensures forall i | 0 <= i < window :: 0.0 < Weight(lam, window, seed, i) <= 1.0
    ensures SumTo(window, i => Weight(lam, window, seed, i)) == 1.0
  {
    var one: Vector := i => 1.0;
    var w: Vector := i => Weight(lam, window, seed, i);
    SeededOfOnes(lam, seed, one, window);
    WeightsAreRecursion(lam, window, seed, one);
    SumEqual(window, i => Weight(lam, window, seed, i) * one(i), w);
    forall i | 0 <= i < window ensures w(i) > 0.0 {
      WeightPositive(lam, window, seed, i);
    }
    SumNonNegative(window, w);
    forall i | 0 <= i < window ensures 0.0 < Weight(lam, window, seed, i) <= 1.0 {
      assert w(i) <= SumTo(window, w);
    }
  }

  lemma WeightPositive(lam: real, window: nat, seed: nat, i: int)
    requires Shape(lam, window, seed) && 0 <= i < window
    ensures Weight(lam, window, seed, i) > 0.0
  {
    if i < seed {
      PowRange(lam, window - seed);
      hide Pow;
      PositiveQuotient(Pow(lam, window - seed), seed as real);
    } else {
      PowRange(lam, window - 1 - i);
      Positive(1.0 - lam, Pow(lam, window - 1 - i), Weight(lam, window, seed, i));
    }
  }

  /** The seed block carries lam^(window - seed) at every halflife: it is never fully forgotten. */
  lemma SeedBlockWeight(lam: real, window: nat, seed: nat)
    requires Shape(lam, window, seed)
    ensures SumTo(seed, i => Weight(lam, window, seed, i)) == Pow(lam, window - seed) > 0.0
  {
    var p, s := Pow(lam, window - seed), seed as real;
    var c := p / s;
    SumConstant(seed, c, i => Weight(lam, window, seed, i));
    PowRange(lam, window - seed);
    Quotient(p, s, c);
  }

  /** A unit impulse in one row makes the recursion return that row's weight. */
  lemma ImpulseIsWeight(lam: real, window: nat, seed: nat, row: int)
    requires Shape(lam, window, seed) && 0 <= row < window
    ensures Seeded(lam, seed, i => if i == row then 1.0 else 0.0, window) == Weight(lam, window, seed, row)
  {
    var x: Vector := i => if i == row then 1.0 else 0.0;
    WeightsAreRecursion(lam, window, seed, x);
    OneTerm(window, row, i => Weight(lam, window, seed, i) * x(i), Weight(lam, window, seed, row));
  }

  lemma SameWeighted(lam: real, window: nat, seed: nat, x: Vector, y: Vector)
    requires 1 <= seed <= window && forall k: nat | k < window :: x(k) == y(k)
    ensures Weighted(lam, window, seed, x) == Weighted(lam, window, seed, y)
  {
    hide Weight;
    forall i | 0 <= i < window ensures x(i) == y(i) {
      var k: nat := i;
      assert x(k) == y(k);
    }
    SumEqual(window, i => Weight(lam, window, seed, i) * x(i), i => Weight(lam, window, seed, i) * y(i));
  }

  // ------------------------------------------------ the covariance matrix

  type Rows = int -> Vector

  /** The weighted Gram matrix of the rows. */
  function Gram(lam: real, window: nat, seed: nat, rows: Rows): Matrix
    requires 1 <= seed <= window
  {
    (a, b) => Weighted(lam, window, seed, t => rows(t)(a) * rows(t)(b))
  }

  /** Entry by entry it is the seeded recursion on the products of returns, and so symmetric. */
  lemma GramIsRecursion(lam: real, window: nat, seed: nat, rows: Rows, a: int, b: int)
    requires Shape(lam, window, seed)
    ensures Gram(lam, window, seed, rows)(a, b) == Seeded(lam, seed, t => rows(t)(a) * rows(t)(b), window)
    ensures Gram(lam, window, seed, rows)(a, b) == Gram(lam, window, seed, rows)(b, a)
  {
    WeightsAreRecursion(lam, window, seed, t => rows(t)(a) * rows(t)(b));
    SumEqual(window, i => Weight(lam, window, seed, i) * (t => rows(t)(a) * rows(t)(b))(i),
      i => Weight(lam, window, seed, i) * (t => rows(t)(b) * rows(t)(a))(i));
  }

  /** The squared portfolio return of each row. */
  function SquaredReturns(n: nat, v: Vector, rows: Rows): Vector {
    t => Square(Dot(n, v, rows(t)))
  }

  function Partial(lam: real, seed: nat, window: nat, rows: Rows, upTo: nat): Matrix
    requires 1 <= seed <= window
  {
    (a, b) => SumTo(upTo, t => Weight(lam, window, seed, t) * (rows(t)(a) * rows(t)(b)))
  }

  lemma PartialStep(lam: real, seed: nat, window: nat, rows: Rows, m: nat, i: int, j: int)
    requires 1 <= seed <= window
    ensures Partial(lam, seed, window, rows, m + 1)(i, j)
         == 1.0 * Partial(lam, seed, window, rows, m)(i, j) + Weight(lam, window, seed, m) * (rows(m)(i) * rows(m)(j))
  {
    hide Weight;
  }

  lemma SquaredReturnIs(n: nat, v: Vector, rows: Rows, t: int)
    ensures SquaredReturns(n, v, rows)(t) == Dot(n, v, rows(t)) * Dot(n, v, rows(t))
  {}

  lemma QuadPartialStep(n: nat, v: Vector, lam: real, seed: nat, window: nat, rows: Rows, m: nat)
    requires 1 <= seed <= window
    ensures Quad(n, v, Partial(lam, seed, window, rows, m + 1))
         == Quad(n, v, Partial(lam, seed, window, rows, m))
            + Weight(lam, window, seed, m) * SquaredReturns(n, v, rows)(m)
  {
    hide *;
    SquaredReturnIs(n, v, rows, m);
    var now, before := Partial(lam, seed, window, rows, m + 1), Partial(lam, seed, window, rows, m);
    forall i, j | 0 <= i < n && 0 <= j < n
      ensures now(i, j) == 1.0 * before(i, j) + Weight(lam, window, seed, m) * (rows(m)(i) * rows(m)(j))
    {
      PartialStep(lam, seed, window, rows, m, i, j);
    }
    QuadBlend(n, v, 1.0, before, Weight(lam, window, seed, m), rows(m), now);
  }

  lemma QuadNothing(n: nat, v: Vector, lam: real, seed: nat, window: nat, rows: Rows)
    requires 1 <= seed <= window
    ensures Quad(n, v, Partial(lam, seed, window, rows, 0)) == 0.0
  {
    var z: Matrix := (a, b) => 0.0;
    var p := Partial(lam, seed, window, rows, 0);
    assert forall i, j | 0 <= i < n && 0 <= j < n :: p(i, j) == 0.0 * z(i, j) + 0.0 * z(i, j);
    hide *;
    QuadLinear(n, v, 0.0, z, 0.0, z, p);
  }

  lemma {:induction false} QuadPartial(n: nat, v: Vector, lam: real, seed: nat, window: nat, rows: Rows, upTo: nat)
    requires 1 <= seed <= window
    ensures Quad(n, v, Partial(lam, seed, window, rows, upTo))
         == SumTo(upTo, t => Weight(lam, window, seed, t) * SquaredReturns(n, v, rows)(t))
  {
    hide Quad, Partial, Weight, SquaredReturns;
    if upTo == 0 {
      QuadNothing(n, v, lam, seed, window, rows);
    } else {
      QuadPartial(n, v, lam, seed, window, rows, upTo - 1);
      QuadPartialStep(n, v, lam, seed, window, rows, upTo - 1);
    }
  }

  /** EWMA is linear: v' EWMA(r r') v is the same EWMA of the squared portfolio returns (v.r)^2. */
  lemma QuadOfGram(n: nat, v: Vector, lam: real, window: nat, seed: nat, rows: Rows)
    requires Shape(lam, window, seed)
    ensures Quad(n, v, Gram(lam, window, seed, rows)) == Seeded(lam, seed, SquaredReturns(n, v, rows), window)
  {
    hide *;
    ShapeIs(lam, window, seed);
    var p, g := Partial(lam, seed, window, rows, window), Gram(lam, window, seed, rows);
    forall i, j | 0 <= i < n && 0 <= j < n ensures g(i, j) == 1.0 * p(i, j) + 0.0 * p(i, j) {
      GramIsPartial(lam, window, seed, rows, i, j);
    }
    QuadLinear(n, v, 1.0, p, 0.0, p, g);
    QuadPartial(n, v, lam, seed, window, rows, window);
    WeightsAreRecursion(lam, window, seed, SquaredReturns(n, v, rows));
    WeightedIs(lam, window, seed, SquaredReturns(n, v, rows));
  }

  lemma ShapeIs(lam: real, window: nat, seed: nat)
    requires Shape(lam, window, seed)
    ensures 0.0 < lam < 1.0 && 1 <= seed <= window
  {}

  lemma GramIsPartial(lam: real, window: nat, seed: nat, rows: Rows, i: int, j: int)
    requires 1 <= seed <= window
    ensures Gram(lam, window, seed, rows)(i, j) == Partial(lam, seed, window, rows, window)(i, j)
  {
    hide Weight;
    SumEqual(window, t => Weight(lam, window, seed, t) * (rows(t)(i) * rows(t)(j)),
      k => Weight(lam, window, seed, k) * (t => rows(t)(i) * rows(t)(j))(k));
  }

  /** The estimate is positive semidefinite, so its variance never needs clipping at zero. */
  lemma GramIsPsd(n: nat, lam: real, window: nat, seed: nat, rows: Rows)
    requires Shape(lam, window, seed)
    ensures Psd(n, Gram(lam, window, seed, rows))
  {
    ShapeIs(lam, window, seed);
    hide Quad, Gram, Shape;
    forall v: Vector ensures Quad(n, v, Gram(lam, window, seed, rows)) >= 0.0 {
      GramVariance(n, v, lam, window, seed, rows);
    }
  }

  lemma GramVariance(n: nat, v: Vector, lam: real, window: nat, seed: nat, rows: Rows)
    requires Shape(lam, window, seed)
    ensures Quad(n, v, Gram(lam, window, seed, rows)) >= 0.0
  {
    hide *;
    ShapeIs(lam, window, seed);
    var x := SquaredReturns(n, v, rows);
    QuadOfGram(n, v, lam, window, seed, rows);
    WeightsAreRecursion(lam, window, seed, x);
    WeightedIs(lam, window, seed, x);
    forall i | 0 <= i < window ensures Weight(lam, window, seed, i) * x(i) >= 0.0 {
      WeightPositive(lam, window, seed, i);
      SquaredReturnIs(n, v, rows, i);
      NonNegativeTerm(Weight(lam, window, seed, i), x(i), Dot(n, v, rows(i)));
    }
    SumNonNegative(window, i => Weight(lam, window, seed, i) * x(i));
  }

  lemma NonNegativeTerm(w: real, x: real, d: real)
    requires w > 0.0 && x == d * d
    ensures w * x >= 0.0
  {
    SquareSign(d);
    NonNegative(w, x, w * x);
  }

  // ------------------------------------------------------ effective sample

  function WeightVector(lam: real, window: nat, seed: nat): Vector
    requires 1 <= seed <= window
  {
    i => Weight(lam, window, seed, i)
  }

  /** Kish's effective sample size of the weights. */
  function EffectiveSample(lam: real, window: nat, seed: nat): real
    requires Shape(lam, window, seed)
  {
    SquaresBetween(lam, window, seed);
    1.0 / SumOfSquares(window, WeightVector(lam, window, seed))
  }

  method ComputeEffectiveSample(lam: real, window: nat, seed: nat) returns (n: real)
    requires Shape(lam, window, seed)
    ensures n == EffectiveSample(lam, window, seed)
    ensures n * SumOfSquares(window, WeightVector(lam, window, seed)) == 1.0
  {
    hide Weight, Pow;
    SquaresBetween(lam, window, seed);
    var w := ProductionWeights(lam, window, seed);
    var sum := 0.0;
    var i := 0;
    while i < window
      invariant 0 <= i <= window
      invariant sum == SumTo(i, i => Square(WeightVector(lam, window, seed)(i)))
    {
      sum := sum + Square(w[i]);
      i := i + 1;
    }
    n := 1.0 / sum;
  }

  lemma WeightsAverage(lam: real, window: nat, seed: nat)
    requires Shape(lam, window, seed)
    ensures SumTo(window, WeightVector(lam, window, seed)) == 1.0
    ensures IsMean(window, WeightVector(lam, window, seed), 1.0 / window as real)
  {
    WeightsAreDistribution(lam, window, seed);
    SumEqual(window, WeightVector(lam, window, seed), i => Weight(lam, window, seed, i));
    hide SumTo, Weight;
    Quotient(1.0, window as real, 1.0 / window as real);
  }

  /** The sum of squared weights lies between 1/window and one; it is 1/window only when the
      weights are all equal. */
  lemma SquaresBetween(lam: real, window: nat, seed: nat)
    requires Shape(lam, window, seed)
    ensures var q := SumOfSquares(window, WeightVector(lam, window, seed));
      && 0.0 < q <= 1.0 <= window as real * q
      && (window as real * q == 1.0 ==> EqualWeights(lam, window, seed))
  {
    var w := WeightVector(lam, window, seed);
    WeightsSpread(lam, window, seed);
    hide *;
    QuotientOfOne(window as real, SumOfSquares(window, w));
  }

  lemma QuotientOfOne(n: real, q: real)
    requires n > 0.0 && 1.0 <= n * q
    ensures q > 0.0
  {
    if q <= 0.0 { NonNegative(n, -q, n * -q); }
  }

  lemma UnitSpread(n: nat, w: Vector, mean: real)
    requires n > 0 && IsMean(n, w, mean) && SumTo(n, w) == 1.0
    ensures 1.0 <= n as real * SumOfSquares(n, w)
    ensures n as real * SumOfSquares(n, w) == 1.0 ==> forall i | 0 <= i < n :: w(i) == mean
  {
    assert Square(1.0) == 1.0;
    hide *;
    SumSquared(n, w, mean);
  }

  lemma WeightsSpread(lam: real, window: nat, seed: nat)
    requires Shape(lam, window, seed)
    ensures window > 0
    ensures var q := SumOfSquares(window, WeightVector(lam, window, seed));
      && q <= 1.0 <= window as real * q
      && (window as real * q == 1.0 ==> EqualWeights(lam, window, seed))
  {
    hide *;
    ShapeIs(lam, window, seed);
    var w := WeightVector(lam, window, seed);
    WeightsInRange(lam, window, seed);
    WeightsAverage(lam, window, seed);
    UnitSpread(window, w, 1.0 / window as real);
    SmallSquares(window, w);
    if window as real * SumOfSquares(window, w) == 1.0 { AllAtMean(lam, window, seed); }
  }

  lemma WeightsInRange(lam: real, window: nat, seed: nat)
    requires Shape(lam, window, seed)
    ensures forall i | 0 <= i < window :: 0.0 < WeightVector(lam, window, seed)(i) <= 1.0
  {
    WeightsAreDistribution(lam, window, seed);
    hide Weight;
  }

  lemma AllAtMean(lam: real, window: nat, seed: nat)
    requires 1 <= seed <= window
    requires forall i | 0 <= i < window :: WeightVector(lam, window, seed)(i) == 1.0 / window as real
    ensures EqualWeights(lam, window, seed)
  {
    forall i | 0 <= i < window ensures Weight(lam, window, seed, i) == 1.0 / window as real {
      assert WeightVector(lam, window, seed)(i) == Weight(lam, window, seed, i);
    }
  }

  lemma SmallSquares(n: nat, w: Vector)
    requires forall i | 0 <= i < n :: 0.0 < w(i) <= 1.0
    ensures SumOfSquares(n, w) <= SumTo(n, w)
  {
    forall i | 0 <= i < n ensures Square(w(i)) <= w(i) {
      Scaled(w(i), w(i), 1.0, Square(w(i)), w(i));
    }
    SumMonotone(n, i => Square(w(i)), w);
  }

  /** The effective sample is at least one row and never more than the window; it is the whole
      window exactly when every row weighs the same. */
  lemma EffectiveSampleBounds(lam: real, window: nat, seed: nat)
    requires Shape(lam, window, seed)
    ensures 1.0 <= EffectiveSample(lam, window, seed) <= window as real
    ensures EffectiveSample(lam, window, seed) == window as real <==>
      EqualWeights(lam, window, seed)
  {
    SquaresBetween(lam, window, seed);
    var q, n := SumOfSquares(window, WeightVector(lam, window, seed)), EffectiveSample(lam, window, seed);
    assert n == 1.0 / q;
    if EqualWeights(lam, window, seed) {
      EqualSquares(lam, window, seed);
    }
    hide SumOfSquares, Weight, WeightVector, EffectiveSample;
    ReciprocalBetween(q, n, window as real);
  }

  lemma ReciprocalBetween(q: real, n: real, w: real)
    requires 0.0 < q <= 1.0 <= w * q && n == 1.0 / q && w > 0.0
    ensures 1.0 <= n <= w
    ensures n == w <==> w * q == 1.0
  {
    Quotient(1.0, q, n);
    var low, high := (n - 1.0) * q, (w - n) * q;
    assert low == 1.0 - q && high == w * q - 1.0;
    if n < 1.0 { Mixed(q, n - 1.0, low); }
    if w < n { Mixed(q, w - n, high); }
    if w > n { Positive(w - n, q, high); }
  }

  lemma {:induction false} ConstantSquares(n: nat, w: Vector, c: real)
    requires forall i | 0 <= i < n :: w(i) == c
    ensures SumOfSquares(n, w) == n as real * Square(c)
  {
    SumConstant(n, Square(c), i => Square(w(i)));
  }

  lemma EqualSquares(lam: real, window: nat, seed: nat)
    requires Shape(lam, window, seed) && EqualWeights(lam, window, seed)
    ensures window as real * SumOfSquares(window, WeightVector(lam, window, seed)) == 1.0
  {
    var c, w := 1.0 / window as real, WeightVector(lam, window, seed);
    assert forall i | 0 <= i < window :: w(i) == c;
    Quotient(1.0, window as real, c);
    hide *;
    ConstantSquares(window, w, c);
    SquareOfReciprocal(window as real, c, SumOfSquares(window, w));
  }

  lemma SquareOfReciprocal(n: real, c: real, q: real)
    requires n * c == 1.0 && q == n * Square(c)
    ensures n * q == 1.0
  {
    assert n * q == (n * c) * (n * c);
  }

  ghost predicate EqualWeights(lam: real, window: nat, seed: nat)
    requires 1 <= seed <= window
  {
    forall i | 0 <= i < window :: Weight(lam, window, seed, i) == 1.0 / window as real
  }

  predicate EqualShares(lam: real, window: nat, seed: nat) {
    window == seed || (window == seed + 1 && (1.0 - lam) * window as real == 1.0)
  }

  lemma OneRowAfterSeed(lam: real, seed: nat, i: int)
    requires Shape(lam, seed + 1, seed) && 0 <= i <= seed
    ensures Weight(lam, seed + 1, seed, i) == if i < seed then lam / seed as real else 1.0 - lam
  {
    assert Pow(lam, 0) == 1.0 && Pow(lam, 1) == lam * Pow(lam, 0);
  }

  lemma NoRowAfterSeed(lam: real, seed: nat, i: int)
    requires Shape(lam, seed, seed) && 0 <= i < seed
    ensures Weight(lam, seed, seed, i) == 1.0 / seed as real
  {
    assert Pow(lam, 0) == 1.0;
  }

  lemma Share(lam: real, s: real, w: real)
    requires s > 0.0 && w == s + 1.0 && (1.0 - lam) * w == 1.0
    ensures lam / s == 1.0 / w == 1.0 - lam
  {
    Quotient(1.0, w, 1.0 - lam);
    Quotient(lam, s, 1.0 - lam);
  }

  /** Every row weighs the same exactly when no row follows the seed, or one does and it carries
      the share of one row. */
  lemma EqualWeightsExactly(lam: real, window: nat, seed: nat)
    requires Shape(lam, window, seed)
    ensures EqualWeights(lam, window, seed) <==> EqualShares(lam, window, seed)
  {
    hide Weight, Pow;
    if window == seed {
      forall i | 0 <= i < window ensures Weight(lam, window, seed, i) == 1.0 / window as real {
        NoRowAfterSeed(lam, seed, i);
      }
    } else if window == seed + 1 {
      OneRowAfterSeed(lam, seed, seed);
      Quotient(1.0, window as real, 1.0 - lam);
      if EqualShares(lam, window, seed) {
        forall i | 0 <= i < window ensures Weight(lam, window, seed, i) == 1.0 / window as real {
          OneRowAfterSeed(lam, seed, i);
          Share(lam, seed as real, window as real);
        }
      }
    } else {
      LastWeight(lam, window - 1, seed);
      LastWeight(lam, window - 2, seed);
      WeightDecays(lam, window - 1, seed, window - 2);
      var last := 1.0 - lam;
      StrictlyScaled(last, lam, 1.0, last * lam, last);
    }
  }

  // -------------------------------------------- the shrinkage intensity

  /** The intensity rescaled to an effective sample, clipped at one. */
  function RescaledIntensity(delta: real, rows: real, effective: real): real
    requires effective != 0.0
  {
    Min(1.0, delta * rows / effective)
  }

  /** With the whole window passed, rescaling to the effective sample never lowers the intensity;
      the coded one is conservative exactly when it is zero, is one, or every row weighs the same. */
  lemma NeverConservative(delta: real, lam: real, window: nat, seed: nat)
    requires Shape(lam, window, seed) && 0.0 <= delta <= 1.0
    ensures EffectiveSample(lam, window, seed) >= 1.0
    ensures var rescaled := RescaledIntensity(delta, window as real, EffectiveSample(lam, window, seed));
      && delta <= rescaled <= 1.0
      && (delta >= rescaled <==> delta == 0.0 || delta == 1.0 || EqualShares(lam, window, seed))
  {
    EffectiveSampleBounds(lam, window, seed);
    EqualWeightsExactly(lam, window, seed);
    var n := EffectiveSample(lam, window, seed);
    hide EffectiveSample, Weight, EqualWeights, EqualShares;
    RescaledGrows(delta, window as real, n, delta * window as real / n);
  }

  lemma RescaledGrows(delta: real, w: real, n: real, x: real)
    requires 0.0 <= delta && 0.0 < n <= w && x == delta * w / n
    ensures x >= delta
    ensures x == delta <==> delta == 0.0 || n == w
  {
    var p := delta * w;
    Quotient(p, n, x);
    var gap, extra := (x - delta) * n, delta * (w - n);
    assert gap == extra;
    NonNegative(delta, w - n, extra);
    if x < delta { Mixed(n, x - delta, gap); }
    if x > delta { Positive(x - delta, n, gap); }
    if delta > 0.0 && w > n { Positive(delta, w - n, extra); }
  }

  /** The rescaled intensity is the coded one times rows over the effective sample, or one if that is
      less. */
  lemma RescaledExactly(delta: real, rows: real, effective: real)
    requires effective > 0.0
    ensures var r := RescaledIntensity(delta, rows, effective);
      && r <= 1.0 && r * effective <= delta * rows
      && (r == 1.0 || r * effective == delta * rows)
  {
    var p := delta * rows;
    var q := p / effective;
    Quotient(p, effective, q);
    if 1.0 <= q { Scaled(effective, 1.0, q, effective, effective * q); }
  }

  // ------------------------------------------------------------- memory

  /** The total weight of the newest j rows. */
  function Newest(lam: real, window: nat, seed: nat, j: nat): real
    requires 1 <= seed <= window
  {
    SumTo(j, i => Weight(lam, window, seed, window - 1 - i))
  }

  /** Up to the seed block, the newest j rows carry 1 - lam^j. */
  lemma {:induction false} NewestWeight(lam: real, window: nat, seed: nat, j: nat)
    requires Shape(lam, window, seed) && j <= window - seed
    ensures Newest(lam, window, seed, j) == 1.0 - Pow(lam, j)
  {
    if j > 0 {
      NewestWeight(lam, window, seed, j - 1);
      assert Weight(lam, window, seed, window - j) == (1.0 - lam) * Pow(lam, j - 1);
      assert Pow(lam, j) == lam * Pow(lam, j - 1);
    }
  }

  lemma {:induction false} SumFirst(n: nat, f: Vector)
    requires n > 0
    ensures SumTo(n, f) == f(0) + SumTo(n - 1, i => f(i + 1))
  {
    if n > 1 { SumFirst(n - 1, f); }
  }

  lemma {:induction false} SumReversed(n: nat, f: Vector)
    ensures SumTo(n, i => f(n - 1 - i)) == SumTo(n, f)
  {
    if n > 0 {
      SumReversed(n - 1, f);
      var r: Vector := i => f(n - 1 - i);
      SumFirst(n, r);
      SumEqual(n - 1, i => r(i + 1), i => f(n - 1 - 1 - i));
    }
  }

  lemma NewestAll(lam: real, window: nat, seed: nat)
    requires Shape(lam, window, seed)
    ensures Newest(lam, window, seed, window) == 1.0
  {
    WeightsAverage(lam, window, seed);
    SumReversed(window, WeightVector(lam, window, seed));
    hide Weight;
    SumEqual(window, i => WeightVector(lam, window, seed)(window - 1 - i),
      i => Weight(lam, window, seed, window - 1 - i));
  }

  ghost predicate IsMedianAge(lam: real, window: nat, seed: nat, age: int)
    requires 1 <= seed <= window
  {
    && 0 <= age < window
    && Newest(lam, window, seed, age + 1) >= 0.5
    && forall j: nat | 1 <= j <= age :: Newest(lam, window, seed, j) < 0.5
  }

  /** The age, newest first, at which the accumulated weight first reaches one half; some row in
      the window always does, so the final clamp never binds. */
  method MedianAge(lam: real, window: nat, seed: nat) returns (age: int)
    requires Shape(lam, window, seed)
    ensures IsMedianAge(lam, window, seed, age)
  {
    hide Weight, Pow;
    NewestAll(lam, window, seed);
    var w := ProductionWeights(lam, window, seed);
    var cumulative := w[window - 1];
    age := 0;
    assert Newest(lam, window, seed, 1) == cumulative by {
      assert Newest(lam, window, seed, 0) == 0.0;
    }
    while cumulative < 0.5 && age < window - 1
      invariant 0 <= age < window
      invariant cumulative == Newest(lam, window, seed, age + 1)
      invariant forall j: nat | 1 <= j <= age :: Newest(lam, window, seed, j) < 0.5
      decreases window - age
    {
      age := age + 1;
      cumulative := cumulative + w[window - 1 - age];
    }
  }

  /** Inside the seed block every further row adds the same weight. */
  lemma {:induction false} NewestInSeed(lam: real, window: nat, seed: nat, m: nat)
    requires Shape(lam, window, seed) && m <= seed
    ensures var p := Pow(lam, window - seed);
      Newest(lam, window, seed, window - seed + m) == 1.0 - p + m as real * (p / seed as real)
  {
    var k := window - seed;
    var p := Pow(lam, k);
    if m == 0 {
      NewestWeight(lam, window, seed, k);
    } else {
      NewestInSeed(lam, window, seed, m - 1);
      assert Weight(lam, window, seed, window - 1 - (k + m - 1)) == p / seed as real;
      assert Newest(lam, window, seed, k + m) == Newest(lam, window, seed, k + m - 1) + p / seed as real;
      OneMore(m - 1, p / seed as real);
    }
  }

  lemma OneMore(m: nat, x: real)
    ensures (m + 1) as real * x == m as real * x + x
  {}

  lemma SeedShare(p: real, s: real, m: real)
    requires s > 0.0
    ensures 1.0 - p + m * (p / s) >= 0.5 <==> m * p >= s * (p - 0.5)
  {
    var x := p / s;
    Quotient(p, s, x);
    var gap, d := m * p - s * (p - 0.5), 1.0 - p + m * x - 0.5;
    assert gap == s * d by { assert s * (m * x) == m * p; }
    if d < 0.0 { Mixed(s, d, s * d); }
    NonNegativeIf(s, d, gap);
  }

  lemma NonNegativeIf(s: real, d: real, p: real)
    requires s > 0.0 && p == s * d
    ensures d >= 0.0 ==> p >= 0.0
  {
    if d >= 0.0 { NonNegative(s, d, p); }
  }

  /** The newest rows before the median age stay below one half, the age's own row reaches it. */
  lemma AroundMedian(lam: real, window: nat, seed: nat, age: int)
    requires Shape(lam, window, seed) && IsMedianAge(lam, window, seed, age)
    ensures 0 <= age < window
    ensures Newest(lam, window, seed, age) < 0.5 <= Newest(lam, window, seed, age + 1)
    ensures forall j: nat | 1 <= j && Newest(lam, window, seed, j) >= 0.5 :: age < j
  {
    assert Newest(lam, window, seed, 0) == 0.0;
  }

  /** The median age of every halflife, whole or not. Where the rows after the seed block carry half
      the weight, it is one less than the first power of lam at or below one half; otherwise it lies in
      the seed block, at the first row whose flat share completes the half. */
  lemma MedianAgeExactly(lam: real, window: nat, seed: nat, age: int)
    requires Shape(lam, window, seed) && IsMedianAge(lam, window, seed, age)
    ensures 0 <= age < window
    ensures Pow(lam, window - seed) <= 0.5 ==> age < window - seed && Pow(lam, age + 1) <= 0.5 < Pow(lam, age)
    ensures Pow(lam, window - seed) > 0.5 ==>
      age >= window - seed &&
      var p, m := Pow(lam, window - seed), age - (window - seed);
      m as real * p < seed as real * (p - 0.5) <= (m + 1) as real * p
  {
    var k := window - seed;
    var p := Pow(lam, k);
    assert Pow(lam, 0) == 1.0;
    hide Newest, Weight, Pow;
    AroundMedian(lam, window, seed, age);
    NewestWeight(lam, window, seed, k);
    if p <= 0.5 {
      NewestWeight(lam, window, seed, age + 1);
      NewestWeight(lam, window, seed, age);
    } else {
      if age < k {
        NewestWeight(lam, window, seed, age + 1);
        PowAntitone(lam, age + 1, k);
      }
      NewestInSeed(lam, window, seed, age - k);
      NewestInSeed(lam, window, seed, age + 1 - k);
      SeedShare(p, seed as real, (age - k) as real);
      SeedShare(p, seed as real, (age + 1 - k) as real);
    }
  }

  /** A whole halflife h that fits after the seed block has the median age h - 1, one bar less than
      requested. */
  lemma MedianAgeOfHalflife(lam: real, window: nat, seed: nat, h: nat, age: int)
    requires Shape(lam, window, seed) && h > 0 && Pow(lam, h) == 0.5
    requires IsMedianAge(lam, window, seed, age)
    ensures h <= window - seed ==> age == h - 1
    ensures h > window - seed ==> age >= window - seed
  {
    hide Newest, Pow, Weight;
    MedianAgeExactly(lam, window, seed, age);
    if h <= window - seed {
      PowAntitone(lam, h, window - seed);
      if age + 1 < h { PowStrictlyAntitone(lam, age + 1, h); }
      if h < age + 1 { PowAntitone(lam, h, age); }
    } else {
      PowStrictlyAntitone(lam, window - seed, h);
    }
  }
}
