/** What a run of the drawdown study adds up to, day by day: its returns, its estimators, its turnover
    and its counter, in the sleeve returns and the scales traded alone. */
module StudyPaths {
  import opened Reals
  import opened Smoothing
  import opened Study

  // ------------------------------------------------- without the overlay

  /** The fixed leverage: within the ceiling, at most the target over the calm book's volatility, and
      one of the two. */
  ghost predicate CalmLevered(c: Config, k: real)
    requires Inputs(c)
  {
    && 0.0 < k <= c.sMax && k * CalmVol(c) <= 0.1
    && (k == c.sMax || k * CalmVol(c) == 0.1)
  }

  lemma BaseIsCalm(c: Config)
    requires Inputs(c)
    ensures CalmLevered(c, BaseLeverage(c))
  {
    CalmVolPositive(c);
    var sigma, q := CalmVol(c), 0.1 / CalmVol(c);
    PositiveQuotient(0.1, sigma);
    Quotient(0.1, sigma, q);
    assert BaseLeverage(c) == Min(q, c.sMax) && c.sMax > 0.0;
    hide CalmVol, BaseLeverage;
    if c.sMax <= q { Scaled(sigma, c.sMax, q, sigma * c.sMax, sigma * q); }
  }

  /** Without the overlay every day trades the calm leverage, and the run starts at its gross. */
  lemma CalmLeverageHeld(c: Config, rows: seq<Vector>, t: nat)
    requires Inputs(c) && t <= |rows|
    ensures !c.overlay ==> CalmLevered(c, ScaleOn(c, rows, t))
    ensures CalmLevered(c, Before(c, rows, 0).gross)
    ensures !c.overlay ==> Before(c, rows, 0).gross == ScaleOn(c, rows, t)
    ensures Square(CalmVol(c)) * c.n as real == 1.0 + (c.n as real - 1.0) * c.rhoCalm && CalmVol(c) > 0.0
  {
    BaseIsCalm(c);
    BookGrossIsOne(c);
    CalmVolPositive(c);
    hide CalmLevered, BaseLeverage, BookGross, CalmVol;
  }

  // ------------------------------------------------------------ returns

  /** The mean of the sleeve returns of a day. */
  function MeanReturn(c: Config, x: Vector): real
    requires c.n >= 1
  {
    SumTo(c.n, x) / c.n as real
  }

  lemma DotIsMean(c: Config, x: Vector)
    requires c.n >= 1
    ensures Dot(c.n, Weights(c), x) == MeanReturn(c, x)
  {
    var w := 1.0 / c.n as real;
    SumScale(c.n, w, x, i => Weights(c)(i) * x(i));
    hide SumTo;
    assert SumTo(c.n, x) / c.n as real == w * SumTo(c.n, x);
  }

  lemma EarnedIs(c: Config, k: real, x: Vector)
    requires c.n >= 1
    ensures Earned(c, k, x) == k * MeanReturn(c, x)
  {
    DotIsMean(c, x);
    hide MeanReturn, Dot, Weights;
  }

  lemma ReturnOn(c: Config, rows: seq<Vector>, t: nat)
    requires Inputs(c) && t < |rows|
    ensures BookReturn(c, Before(c, rows, t), rows[t]) == ScaleOn(c, rows, t) * MeanReturn(c, rows[t])
  {
    hide *;
    HasSleeves(c);
    ReturnIsEarned(c, rows, t);
    EarnedIs(c, ScaleOn(c, rows, t), rows[t]);
  }

  lemma HasSleeves(c: Config)
    requires Inputs(c)
    ensures c.n >= 1
  {}

  lemma ReturnIsEarned(c: Config, rows: seq<Vector>, t: nat)
    requires Inputs(c) && t < |rows|
    ensures BookReturn(c, Before(c, rows, t), rows[t]) == Earned(c, ScaleOn(c, rows, t), rows[t])
  {
    hide AppliedScale, Before, Earned;
  }

  lemma ReturnsGrow(c: Config, rows: seq<Vector>, t: nat)
    requires Inputs(c) && t < |rows|
    ensures Returns(c, rows, 0) == []
    ensures Returns(c, rows, t + 1) == Returns(c, rows, t) + [BookReturn(c, Before(c, rows, t), rows[t])]
  {
    hide BookReturn, Before;
  }

  /** The book earns the scale times the mean of the sleeve returns. */
  lemma {:induction false} ReturnsAre(c: Config, rows: seq<Vector>, t: nat)
    requires Inputs(c) && t <= |rows|
    ensures forall d | 0 <= d < t :: Returns(c, rows, t)[d] == ScaleOn(c, rows, d) * MeanReturn(c, rows[d])
  {
    hide *;
    if t > 0 {
      ReturnsAre(c, rows, t - 1);
      ReturnsGrow(c, rows, t - 1);
      ReturnOn(c, rows, t - 1);
    }
  }

  // ---------------------------------------------------------- estimators

  /** What the realized leg sees of a day that traded scale k: the account's return when levered, else
      the return of the sleeves, shrunk where the scale is under the guard. */
  function Seen(c: Config, x: Vector, k: real): real
    requires c.n >= 1
  {
    if c.leg == Levered then k * MeanReturn(c, x)
    else if k >= 0.000000000001 then MeanReturn(c, x)
    else k * MeanReturn(c, x) / 0.000000000001
  }

  lemma ObservedIsSeen(c: Config, x: Vector, k: real)
    requires c.n >= 1
    ensures Observed(c.leg, Earned(c, k, x), k) == Seen(c, x, k)
  {
    EarnedIs(c, k, x);
    var m := MeanReturn(c, x);
    hide MeanReturn, Earned;
    if c.leg != Levered && k >= 0.000000000001 {
      assert k * m / k == m;
    }
  }

  /** The annualised square of what the realized leg sees of day d. */
  function SeenSquares(c: Config, rows: seq<Vector>): Vector
    requires Inputs(c)
  {
    (d: int) => if 0 <= d < |rows| then Square(Seen(c, rows[d], ScaleOn(c, rows, d))) * 252.0 else 0.0
  }

  lemma DayLeaves(c: Config, rows: seq<Vector>, t: nat)
    requires Inputs(c) && t < |rows|
    ensures var k, s, u := ScaleOn(c, rows, t), Before(c, rows, t), Before(c, rows, t + 1);
      && u.realizedVar == VarStep(c.lamRv, s.realizedVar, Observed(c.leg, Earned(c, k, rows[t]), k))
      && u.cov == CovStep(c.lamCov, s.cov, rows[t])
  {
    hide AppliedScale, Earned, Observed, VarStep, CovStep;
  }

  lemma VarStepIs(lam: real, v: real, observed: real, y: real)
    requires y == Square(observed) * 252.0
    ensures VarStep(lam, v, observed) == lam * v + (1.0 - lam) * y
  {
    hide Square;
  }

  lemma SeenOn(c: Config, rows: seq<Vector>, t: nat)
    requires Inputs(c) && t < |rows|
    ensures SeenSquares(c, rows)(t) == Square(Seen(c, rows[t], ScaleOn(c, rows, t))) * 252.0
  {
    hide Seen, ScaleOn;
  }

  lemma DayVariance(c: Config, rows: seq<Vector>, t: nat)
    requires Inputs(c) && t < |rows|
    ensures Before(c, rows, t + 1).realizedVar
         == c.lamRv * Before(c, rows, t).realizedVar + (1.0 - c.lamRv) * SeenSquares(c, rows)(t)
  {
    hide *;
    HasSleeves(c);
    var k := ScaleOn(c, rows, t);
    DayLeaves(c, rows, t);
    ObservedIsSeen(c, rows[t], k);
    SeenOn(c, rows, t);
    VarStepIs(c.lamRv, Before(c, rows, t).realizedVar, Seen(c, rows[t], k), SeenSquares(c, rows)(t));
  }

  lemma CalmStart(c: Config, rows: seq<Vector>, i: int, j: int)
    requires Inputs(c)
    ensures Before(c, rows, 0).realizedVar == Square(CalmVol(c))
    ensures Before(c, rows, 0).cov(i, j) == if i == j then 1.0 + (c.n as real - 1.0) * c.rhoCalm else 0.0
  {
    CalmVolPositive(c);
    hide CalmVol, Square, GrossAt;
  }

  /** The realized variance is the calm variance faded, plus every day's annualised square faded since. */
  lemma {:induction false} RealizedAddsUp(c: Config, rows: seq<Vector>, t: nat)
    requires Inputs(c) && t <= |rows|
    ensures Before(c, rows, t).realizedVar == Faded(c.lamRv, Square(CalmVol(c)), SeenSquares(c, rows), t)
  {
    hide *;
    if t == 0 {
      CalmStart(c, rows, 0, 0);
      FadedStart(c.lamRv, Square(CalmVol(c)), SeenSquares(c, rows));
    } else {
      RealizedAddsUp(c, rows, t - 1);
      DayVariance(c, rows, t - 1);
      FadedStep(c.lamRv, Square(CalmVol(c)), SeenSquares(c, rows), t - 1);
    }
  }

  /** The annualised product of two sleeves' returns on day d. */
  function Products(rows: seq<Vector>, i: int, j: int): Vector {
    (d: int) => if 0 <= d < |rows| then rows[d](i) * rows[d](j) * 252.0 else 0.0
  }

  lemma CovStepIs(lam: real, cov: Matrix, rows: seq<Vector>, t: nat, i: int, j: int)
    requires t < |rows|
    ensures CovStep(lam, cov, rows[t])(i, j) == lam * cov(i, j) + (1.0 - lam) * Products(rows, i, j)(t)
  {}

  /** An entry of the covariance is the calm book's own, faded, plus every day's product faded since. */
  lemma {:induction false} CovarianceAddsUp(c: Config, rows: seq<Vector>, t: nat, i: int, j: int)
    requires Inputs(c) && t <= |rows|
    ensures var start := if i == j then 1.0 + (c.n as real - 1.0) * c.rhoCalm else 0.0;
      Before(c, rows, t).cov(i, j) == Faded(c.lamCov, start, Products(rows, i, j), t)
  {
    hide *;
    var start := if i == j then 1.0 + (c.n as real - 1.0) * c.rhoCalm else 0.0;
    if t == 0 {
      CalmStart(c, rows, i, j);
      FadedStart(c.lamCov, start, Products(rows, i, j));
    } else {
      CovarianceAddsUp(c, rows, t - 1, i, j);
      DayLeaves(c, rows, t - 1);
      CovStepIs(c.lamCov, Before(c, rows, t - 1).cov, rows, t - 1, i, j);
      FadedStep(c.lamCov, start, Products(rows, i, j), t - 1);
    }
  }

  // --------------------------------------------------- turnover and counter

  /** The move of the scale on day d, from the calm leverage on the first. */
  function Move(c: Config, rows: seq<Vector>, d: int): real
    requires Inputs(c)
  {
    if d == 0 then Abs(ScaleOn(c, rows, 0) - Before(c, rows, 0).gross)
    else if 0 < d <= |rows| then Abs(ScaleOn(c, rows, d) - ScaleOn(c, rows, d - 1))
    else 0.0
  }

  /** The turnover is the sum of the moves of the scale, and the gross held is the last scale. */
  lemma {:induction false} TurnoverAddsUp(c: Config, rows: seq<Vector>, t: nat)
    requires Inputs(c) && t <= |rows|
    ensures Before(c, rows, t).turnover == SumTo(t, (d: int) => Move(c, rows, d))
    ensures t > 0 ==> Before(c, rows, t).gross == ScaleOn(c, rows, t - 1)
  {
    if t > 0 {
      TurnoverAddsUp(c, rows, t - 1);
      BookGrossIsOne(c);
      hide AppliedScale, BookGross, Earned, CovStep, VarStep, Abs;
    }
  }

  /** The days whose realized leg, after the day's update, exceeds the ex-ante leg of before it. */
  function Overtaken(c: Config, rows: seq<Vector>, t: nat): nat
    requires Inputs(c) && t <= |rows|
  {
    if t == 0 then 0
    else
      Overtaken(c, rows, t - 1)
      + if RealizedVol(c, Before(c, rows, t).realizedVar) > ExAnte(c, Before(c, rows, t - 1).cov) then 1 else 0
  }

  lemma {:induction false} CounterAddsUp(c: Config, rows: seq<Vector>, t: nat)
    requires Inputs(c) && t <= |rows|
    ensures Before(c, rows, t).bound == if c.overlay then Overtaken(c, rows, t) else 0
  {
    if t > 0 {
      CounterAddsUp(c, rows, t - 1);
      hide AppliedScale, Earned, CovStep, VarStep, RealizedVol, ExAnte;
    }
  }
}
