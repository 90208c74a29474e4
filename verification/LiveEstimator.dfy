/** The live overlay study, one path of it: the book is sized on the windowed, seed-anchored
    covariance of the newest rows instead of on a recursion. */
module LiveEstimator {
  import opened Reals
  import opened Overlay
  import opened Smoothing
  import Drawdown
  import Ewma
  import Study
  import StudyPaths

  /** The book of the drawdown study, with an unlevered realized leg, and the estimator's window. */
  datatype Setup = Setup(book: Study.Config, window: nat, seed: nat)

  ghost predicate Inputs(c: Setup) {
    && Study.Inputs(c.book) && c.book.overlay && c.book.leg == Study.Unlevered
    && Ewma.Shape(c.book.lamCov, c.window, c.seed)
  }

  function AsRows(h: seq<Vector>): Ewma.Rows { k => if 0 <= k < |h| then h[k] else (i: int) => 0.0 }

  /** The annualised weighted Gram matrix of a window of rows. */
  function Covariance(c: Setup, history: seq<Vector>): Matrix
    requires Inputs(c)
  {
    (a, b) => Ewma.Gram(c.book.lamCov, c.window, c.seed, AsRows(history))(a, b) * Study.TRADING_DAYS
  }

  function ExAnte(c: Setup, variance: real): real { c.book.sqrt(Max(variance, 0.0)) }

  function Scale(c: Setup, variance: real, realizedVar: real): real
    requires c.book.grossMax > 0.0 && c.book.n >= 1
  {
    GrossClip(
      TwinScale(ExAnte(c, variance), Study.RealizedVol(c.book, realizedVar), VOL_TARGET, c.book.sMax),
      Study.BookGross(c.book), c.book.grossMax)
  }

  /** The rows sized on at day t: the window before it. */
  function Sized(c: Setup, rows: seq<Vector>, t: nat): seq<Vector>
    requires t + c.window <= |rows|
  {
    rows[t..t + c.window]
  }

  /** The scalar estimator: the seeded recursion over the squared book returns of the window. */
  function ScalarVariance(c: Setup, rows: seq<Vector>, t: nat): real
    requires Inputs(c) && t + c.window <= |rows|
  {
    var squares := Ewma.SquaredReturns(c.book.n, Study.Weights(c.book), AsRows(Sized(c, rows, t)));
    Ewma.Seeded(c.book.lamCov, c.seed, squares, c.window) * Study.TRADING_DAYS
  }

  function RealizedVariance(c: Setup, rows: seq<Vector>, t: nat): real
    requires Inputs(c) && t + c.window <= |rows|
    decreases t, 0
  {
    if t == 0 then Square(VOL_TARGET)
    else
      Study.VarStep(c.book.lamRv, RealizedVariance(c, rows, t - 1), Delevered(c, rows, t - 1))
  }

  function ScalarScale(c: Setup, rows: seq<Vector>, t: nat): real
    requires Inputs(c) && t + c.window <= |rows|
    decreases t, 1
  {
    Scale(c, ScalarVariance(c, rows, t), RealizedVariance(c, rows, t))
  }

  /** What the realized leg records of day t. */
  function Delevered(c: Setup, rows: seq<Vector>, t: nat): real
    requires Inputs(c) && t + c.window < |rows|
    decreases t, 2
  {
    var k := ScalarScale(c, rows, t);
    Study.Observed(Study.Unlevered, Study.Earned(c.book, k, rows[t + c.window]), k)
  }

  /** The variance of the windowed covariance is the scalar estimator over the window. */
  lemma WindowIsScalar(c: Setup, rows: seq<Vector>, t: nat)
    requires Inputs(c) && t + c.window <= |rows|
    ensures Quad(c.book.n, Study.Weights(c.book), Covariance(c, Sized(c, rows, t))) == ScalarVariance(c, rows, t)
  {
    var h := Sized(c, rows, t);
    var g := Ewma.Gram(c.book.lamCov, c.window, c.seed, AsRows(h));
    Annualised(c, h);
    var w := Study.Weights(c.book);
    assert ScalarVariance(c, rows, t)
      == Ewma.Seeded(c.book.lamCov, c.seed, Ewma.SquaredReturns(c.book.n, w, AsRows(h)), c.window) * Study.TRADING_DAYS;
    assert Ewma.Shape(c.book.lamCov, c.window, c.seed);
    hide *;
    QuadLinear(c.book.n, w, Study.TRADING_DAYS, g, 0.0, g, Covariance(c, h));
    Ewma.QuadOfGram(c.book.n, w, c.book.lamCov, c.window, c.seed, AsRows(h));
  }

  lemma Annualised(c: Setup, h: seq<Vector>)
    requires Inputs(c)
    ensures var g := Ewma.Gram(c.book.lamCov, c.window, c.seed, AsRows(h));
      forall i, j :: Covariance(c, h)(i, j) == Study.TRADING_DAYS * g(i, j) + 0.0 * g(i, j)
  {}

  // ------------------------------------------- caps and non-anticipation

  /** Every day is capped against the larger leg, as in the drawdown study. */
  lemma CapsHold(c: Setup, rows: seq<Vector>, t: nat)
    requires Inputs(c) && t + c.window <= |rows|
    ensures Study.Capped(c.book, ScalarScale(c, rows, t),
      Max(ExAnte(c, ScalarVariance(c, rows, t)), Study.RealizedVol(c.book, RealizedVariance(c, rows, t))))
  {
    var a, b := ExAnte(c, ScalarVariance(c, rows, t)), Study.RealizedVol(c.book, RealizedVariance(c, rows, t));
    assert a >= 0.0;
    hide ScalarVariance, RealizedVariance, ExAnte, Study.RealizedVol, Study.Inputs, Study.Capped, TwinScale, GrossClip;
    Study.CapsAt(c.book, ScalarScale(c, rows, t), a, b);
  }

  /** Two runs that agree before day t, burn-in included, apply the same scale on day t. */
  lemma {:induction false} NonAnticipating(c: Setup, rows: seq<Vector>, others: seq<Vector>, t: nat)
    requires Inputs(c) && t + c.window <= |rows| && t + c.window <= |others|
    requires rows[..t + c.window] == others[..t + c.window]
    ensures RealizedVariance(c, rows, t) == RealizedVariance(c, others, t)
    ensures ScalarScale(c, rows, t) == ScalarScale(c, others, t)
  {
    assert rows[..t + c.window][t..] == rows[t..t + c.window];
    assert others[..t + c.window][t..] == others[t..t + c.window];
    hide Scale, ScalarVariance, Inputs, Study.VarStep, Study.Observed, Study.Earned;
    SameWindow(c, rows, others, t);
    if t > 0 {
      var n := t - 1 + c.window;
      assert rows[..n] == rows[..t + c.window][..n] && others[..n] == others[..t + c.window][..n];
      assert rows[n] == rows[..t + c.window][n] && others[n] == others[..t + c.window][n];
      NonAnticipating(c, rows, others, t - 1);
    }
  }

  lemma SameWindow(c: Setup, rows: seq<Vector>, others: seq<Vector>, t: nat)
    requires Inputs(c) && t + c.window <= |rows| && t + c.window <= |others|
    requires rows[t..t + c.window] == others[t..t + c.window]
    ensures ScalarVariance(c, rows, t) == ScalarVariance(c, others, t)
  {}

  // --------------------------------------------- what the estimators add up to

  /** The square of the mean sleeve return of the row k places into the window of day t. */
  function MeanSquares(c: Setup, rows: seq<Vector>, t: nat): Vector
    requires c.book.n >= 1 && t + c.window <= |rows|
  {
    (k: int) => if 0 <= k < c.window then Square(StudyPaths.MeanReturn(c.book, rows[t + k])) else 0.0
  }

  lemma SquaresAre(c: Setup, rows: seq<Vector>, t: nat, k: nat)
    requires c.book.n >= 1 && t + c.window <= |rows| && k < c.window
    ensures Ewma.SquaredReturns(c.book.n, Study.Weights(c.book), AsRows(Sized(c, rows, t)))(k)
         == MeanSquares(c, rows, t)(k)
  {
    assert AsRows(Sized(c, rows, t))(k) == rows[t + k];
    StudyPaths.DotIsMean(c.book, rows[t + k]);
    hide Dot, Study.Weights, StudyPaths.MeanReturn, Square;
  }

  /** The variance sized on is the weighted sum of the squared mean returns of the window's own rows,
      the newest of them the one before the day, annualised. */
  lemma VarianceAddsUp(c: Setup, rows: seq<Vector>, t: nat)
    requires Inputs(c) && t + c.window <= |rows|
    ensures ScalarVariance(c, rows, t)
         == Ewma.Weighted(c.book.lamCov, c.window, c.seed, MeanSquares(c, rows, t)) * 252.0
  {
    var squares := Ewma.SquaredReturns(c.book.n, Study.Weights(c.book), AsRows(Sized(c, rows, t)));
    assert ScalarVariance(c, rows, t) == Ewma.Seeded(c.book.lamCov, c.seed, squares, c.window) * 252.0;
    assert Ewma.Shape(c.book.lamCov, c.window, c.seed) && c.book.n >= 1;
    hide *;
    Ewma.WeightsAreRecursion(c.book.lamCov, c.window, c.seed, squares);
    forall k: nat | k < c.window ensures squares(k) == MeanSquares(c, rows, t)(k) { SquaresAre(c, rows, t, k); }
    Ewma.SameWeighted(c.book.lamCov, c.window, c.seed, squares, MeanSquares(c, rows, t));
  }

  /** The annualised square of what the realized leg sees of day d. */
  function SeenSquares(c: Setup, rows: seq<Vector>): Vector
    requires Inputs(c) && c.window <= |rows|
  {
    (d: int) =>
      if 0 <= d < |rows| - c.window
      then Square(StudyPaths.Seen(c.book, rows[d + c.window], ScalarScale(c, rows, d))) * 252.0 else 0.0
  }

  lemma SeenOn(c: Setup, rows: seq<Vector>, t: nat)
    requires Inputs(c) && t + c.window < |rows|
    ensures SeenSquares(c, rows)(t)
         == Square(StudyPaths.Seen(c.book, rows[t + c.window], ScalarScale(c, rows, t))) * 252.0
  {
    hide ScalarScale, StudyPaths.Seen;
  }

  lemma DayVariance(c: Setup, rows: seq<Vector>, t: nat)
    requires Inputs(c) && t + c.window < |rows|
    ensures RealizedVariance(c, rows, t + 1)
         == Study.VarStep(c.book.lamRv, RealizedVariance(c, rows, t),
              StudyPaths.Seen(c.book, rows[t + c.window], ScalarScale(c, rows, t)))
  {
    assert c.book.n >= 1 && c.book.leg == Study.Unlevered;
    StudyPaths.ObservedIsSeen(c.book, rows[t + c.window], ScalarScale(c, rows, t));
    hide ScalarScale, StudyPaths.Seen, Study.VarStep, Study.Observed, Study.Earned, Inputs;
  }

  lemma HasSleeves(c: Setup)
    requires Inputs(c)
    ensures c.book.n >= 1
  {}

  lemma FirstVariance(c: Setup, rows: seq<Vector>)
    requires Inputs(c) && c.window <= |rows|
    ensures RealizedVariance(c, rows, 0) == 0.01
  {}

  /** The realized variance is the squared target faded, plus every day's annualised square since. */
  lemma {:induction false} RealizedAddsUp(c: Setup, rows: seq<Vector>, t: nat)
    requires Inputs(c) && t + c.window <= |rows|
    ensures RealizedVariance(c, rows, t) == Faded(c.book.lamRv, 0.01, SeenSquares(c, rows), t)
  {
    hide *;
    HasSleeves(c);
    if t == 0 {
      FirstVariance(c, rows);
      FadedStart(c.book.lamRv, 0.01, SeenSquares(c, rows));
    } else {
      RealizedAddsUp(c, rows, t - 1);
      DayVariance(c, rows, t - 1);
      SeenOn(c, rows, t - 1);
      StudyPaths.VarStepIs(c.book.lamRv, RealizedVariance(c, rows, t - 1),
        StudyPaths.Seen(c.book, rows[t - 1 + c.window], ScalarScale(c, rows, t - 1)), SeenSquares(c, rows)(t - 1));
      FadedStep(c.book.lamRv, 0.01, SeenSquares(c, rows), t - 1);
    }
  }

  lemma VarianceSign(c: Setup, rows: seq<Vector>, t: nat)
    requires Inputs(c) && t + c.window <= |rows|
    ensures ScalarVariance(c, rows, t) >= 0.0
  {
    var h := AsRows(Sized(c, rows, t));
    var squares := Ewma.SquaredReturns(c.book.n, Study.Weights(c.book), h);
    assert ScalarVariance(c, rows, t) == Ewma.Seeded(c.book.lamCov, c.seed, squares, c.window) * 252.0;
    assert Ewma.Shape(c.book.lamCov, c.window, c.seed) && c.book.n >= 1;
    hide *;
    Ewma.QuadOfGram(c.book.n, Study.Weights(c.book), c.book.lamCov, c.window, c.seed, h);
    Ewma.GramVariance(c.book.n, Study.Weights(c.book), c.book.lamCov, c.window, c.seed, h);
  }

  lemma VarianceStaysPositive(lam: real, v: real, observed: real)
    requires 0.0 < lam < 1.0 && v > 0.0
    ensures Study.VarStep(lam, v, observed) > 0.0
  {
    var y := Square(observed) * 252.0;
    StudyPaths.VarStepIs(lam, v, observed, y);
    SquareSign(observed);
    Positive(lam, v, lam * v);
    NonNegative(1.0 - lam, y, (1.0 - lam) * y);
    hide Study.VarStep;
  }

  lemma {:induction false} RealizedSign(c: Setup, rows: seq<Vector>, t: nat)
    requires Inputs(c) && t + c.window <= |rows|
    ensures RealizedVariance(c, rows, t) > 0.0
  {
    if t == 0 {
      FirstVariance(c, rows);
      hide RealizedVariance;
    } else {
      RealizedSign(c, rows, t - 1);
      DayVariance(c, rows, t - 1);
      VarianceStaysPositive(c.book.lamRv, RealizedVariance(c, rows, t - 1),
        StudyPaths.Seen(c.book, rows[t - 1 + c.window], ScalarScale(c, rows, t - 1)));
      hide RealizedVariance, StudyPaths.Seen, ScalarScale;
    }
  }

  /** The two volatilities that are compared are the roots of the two variances; neither clip binds. */
  lemma LegsAreRoots(c: Setup, rows: seq<Vector>, t: nat)
    requires Inputs(c) && t + c.window <= |rows|
    ensures var a, b := ExAnte(c, ScalarVariance(c, rows, t)), Study.RealizedVol(c.book, RealizedVariance(c, rows, t));
      && a >= 0.0 && Square(a) == ScalarVariance(c, rows, t)
      && b > 0.0 && Square(b) == RealizedVariance(c, rows, t)
  {
    VarianceSign(c, rows, t);
    RealizedSign(c, rows, t);
    var v, w := ScalarVariance(c, rows, t), RealizedVariance(c, rows, t);
    hide ScalarVariance, RealizedVariance;
    assert IsSqrt(c.book.sqrt);
    SquareSign(c.book.sqrt(w));
  }

  // ------------------------------------------------------------- the run

  /** The sum of the gross moves, from the fully invested book the run starts with. */
  function Turnover(c: Setup, scales: seq<real>): real
    requires c.book.n >= 1
  {
    if scales == [] then 0.0
    else
      var n := |scales| - 1;
      Turnover(c, scales[..n]) + Abs(Study.GrossAt(c.book, scales[n]) - LastGross(c, scales[..n]))
  }

  function LastGross(c: Setup, scales: seq<real>): real
    requires c.book.n >= 1
  {
    if scales == [] then Study.BookGross(c.book) else Study.GrossAt(c.book, scales[|scales| - 1])
  }

  /** The move of the scale on day d, from full investment on the first. */
  function Move(scales: seq<real>, d: int): real {
    if 0 <= d < |scales| then Abs(scales[d] - if d == 0 then 1.0 else scales[d - 1]) else 0.0
  }

  /** The reported turnover is the sum of the moves of the scale. */
  lemma {:induction false} TurnoverAddsUp(c: Setup, scales: seq<real>)
    requires c.book.n >= 1
    ensures Turnover(c, scales) == SumTo(|scales|, (d: int) => Move(scales, d))
  {
    if scales != [] {
      var n := |scales| - 1;
      Study.BookGrossIsOne(c.book);
      TurnoverAddsUp(c, scales[..n]);
      SumEqual(n, (d: int) => Move(scales[..n], d), (d: int) => Move(scales, d));
      hide Study.BookGross, Abs;
    }
  }

  /** The day loop over a sliding history matrix: after the burn-in the first window rows are the
      history, and every day drops the oldest row and appends its own. It trades exactly the
      scales of the scalar estimator, and reports the wealth, drawdown and turnover of the run. */
  method Simulate(c: Setup, rows: seq<Vector>)
    returns (book: seq<real>, scales: seq<real>, equity: real, maxDd: real, turnover: real)
    requires Inputs(c) && c.window <= |rows|
    ensures |book| == |scales| == |rows| - c.window
    ensures forall t | 0 <= t < |scales| :: scales[t] == ScalarScale(c, rows, t)
    ensures forall t | 0 <= t < |book| :: book[t] == Study.Earned(c.book, scales[t], rows[c.window + t])
    ensures equity == Drawdown.Wealth(book, |book|) && maxDd == Drawdown.LoopDrawdown(book, |book|)
    ensures turnover == Turnover(c, scales)
  {
    RunStarts(c, rows);
    hide *;
    book, scales := [], [];
    NothingTraded(c, rows);
    var history := rows[..c.window];
    var realizedVar := Square(VOL_TARGET);
    var peak := 1.0;
    equity, maxDd, turnover := 1.0, 0.0, 0.0;
    var prevGross := Study.BookGross(c.book);
    for t := 0 to |rows| - c.window
      invariant TradesScalar(c, rows, book, scales, t)
      invariant history == Sized(c, rows, t)
      invariant realizedVar == RealizedVariance(c, rows, t)
      invariant equity == Drawdown.Wealth(book, t) && peak == Drawdown.Peak(book, t)
      invariant maxDd == Drawdown.LoopDrawdown(book, t)
      invariant turnover == Turnover(c, scales) && prevGross == LastGross(c, scales)
    {
      WindowIsScalar(c, rows, t);
      DayMoves(c, rows, t);
      var scale := Scale(c, Quad(c.book.n, Study.Weights(c.book), Covariance(c, history)), realizedVar);
      var thisGross := Study.GrossAt(c.book, scale);
      turnover := turnover + Abs(thisGross - prevGross);
      prevGross := thisGross;
      var x := rows[c.window + t];
      var r := Study.Earned(c.book, scale, x);
      TradeMore(c, rows, book, scales, t, r, scale);
      Study.WealthAppend(book, r);
      scales, book := scales + [scale], book + [r];
      equity := Drawdown.Compound(equity, r);
      peak := Max(peak, equity);
      maxDd := Max(maxDd, Drawdown.Fall(equity, peak));
      history := history[1..] + [x];
      realizedVar := Study.VarStep(c.book.lamRv, realizedVar, Study.Observed(Study.Unlevered, r, scale));
    }
    TradedAll(c, rows, book, scales);
  }

  /** The first t days' scales and book returns are those of the scalar estimator. */
  ghost predicate TradesScalar(c: Setup, rows: seq<Vector>, book: seq<real>, scales: seq<real>, t: nat)
    requires Inputs(c) && t + c.window <= |rows|
    ensures TradesScalar(c, rows, book, scales, t) ==> |book| == |scales| == t
  {
    && |book| == |scales| == t
    && (forall d | 0 <= d < t :: scales[d] == ScalarScale(c, rows, d))
    && forall d | 0 <= d < t :: book[d] == Study.Earned(c.book, scales[d], rows[c.window + d])
  }

  lemma NothingTraded(c: Setup, rows: seq<Vector>)
    requires Inputs(c) && c.window <= |rows|
    ensures TradesScalar(c, rows, [], [], 0)
    ensures Turnover(c, []) == 0.0 && LastGross(c, []) == Study.BookGross(c.book)
    ensures Drawdown.Wealth([], 0) == 1.0 && Drawdown.Peak([], 0) == 1.0 && Drawdown.LoopDrawdown([], 0) == 0.0
  {}

  lemma TradeMore(c: Setup, rows: seq<Vector>, book: seq<real>, scales: seq<real>, t: nat, r: real, scale: real)
    requires Inputs(c) && t + c.window < |rows| && TradesScalar(c, rows, book, scales, t)
    requires scale == ScalarScale(c, rows, t) && r == Study.Earned(c.book, scale, rows[c.window + t])
    ensures TradesScalar(c, rows, book + [r], scales + [scale], t + 1)
    ensures Turnover(c, scales + [scale])
         == Turnover(c, scales) + Abs(Study.GrossAt(c.book, scale) - LastGross(c, scales))
    ensures LastGross(c, scales + [scale]) == Study.GrossAt(c.book, scale)
  {
    assert (scales + [scale])[..|scales|] == scales;
    hide ScalarScale, Study.Earned, Study.GrossAt, Study.Inputs;
  }

  lemma TradedAll(c: Setup, rows: seq<Vector>, book: seq<real>, scales: seq<real>)
    requires Inputs(c) && c.window <= |rows| && TradesScalar(c, rows, book, scales, |rows| - c.window)
    ensures |book| == |scales| == |rows| - c.window
    ensures forall t | 0 <= t < |scales| :: scales[t] == ScalarScale(c, rows, t)
    ensures forall t | 0 <= t < |book| :: book[t] == Study.Earned(c.book, scales[t], rows[c.window + t])
  {}

  lemma RunStarts(c: Setup, rows: seq<Vector>)
    requires Inputs(c) && c.window <= |rows|
    ensures c.book.n >= 1 && c.book.grossMax > 0.0 && c.window >= 1
    ensures Sized(c, rows, 0) == rows[..c.window]
    ensures RealizedVariance(c, rows, 0) == Square(VOL_TARGET)
  {}

  lemma DayMoves(c: Setup, rows: seq<Vector>, t: nat)
    requires Inputs(c) && t + c.window < |rows|
    ensures |Sized(c, rows, t)| >= 1
    ensures Sized(c, rows, t + 1) == Sized(c, rows, t)[1..] + [rows[c.window + t]]
    ensures ScalarScale(c, rows, t) == Scale(c, ScalarVariance(c, rows, t), RealizedVariance(c, rows, t))
    ensures var k := ScalarScale(c, rows, t);
      RealizedVariance(c, rows, t + 1) == Study.VarStep(c.book.lamRv, RealizedVariance(c, rows, t),
        Study.Observed(Study.Unlevered, Study.Earned(c.book, k, rows[c.window + t]), k))
  {
    hide Scale, ScalarVariance, Study.Earned, Study.VarStep, Study.Observed;
  }
}
