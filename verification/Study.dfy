/** The daily drawdown study, one path of it: every day sizes on the estimators as they stand,
    trades the day's sleeve returns, and only then updates the estimators. The sleeve returns of
    each day are an arbitrary vector. */
module Study {
  import opened Reals
  import opened Overlay
  import Frontier
  import Correlation
  import Drawdown

  const TRADING_DAYS: real := 252.0
  const SCALE_FLOOR: real := 0.000000000001

  datatype Leg = Unlevered | Levered | Off

  datatype Config = Config(
    sqrt: real -> real, n: nat, rhoCalm: real, lamCov: real, lamRv: real,
    sMax: real, grossMax: real, overlay: bool, leg: Leg)

  datatype State = State(
    cov: Matrix, realizedVar: real, equity: real, peak: real, maxDd: real,
    turnover: real, gross: real, bound: nat)

  /** The calm correlation factors (Cholesky), so the calm book has a positive variance; the
      decays are 0.5^(1/halflife). */
  ghost predicate Inputs(c: Config) {
    && IsSqrt(c.sqrt) && c.n >= 1
    && Frontier.Crowding(c.n, c.rhoCalm) > 0.0
    && 0.0 < c.lamCov < 1.0 && 0.0 < c.lamRv < 1.0
    && c.sMax > 0.0 && c.grossMax > 0.0
  }

  // -------------------------------------------------------------- one day

  function CalmVol(c: Config): real
    requires Inputs(c)
  {
    Frontier.BookVolMultiple(c.sqrt, c.n, c.rhoCalm)
  }

  lemma CalmVolPositive(c: Config)
    requires Inputs(c)
    ensures CalmVol(c) > 0.0
    ensures Square(CalmVol(c)) * c.n as real == Frontier.Crowding(c.n, c.rhoCalm)
  {
    Frontier.VolMultipleSquared(c.sqrt, c.n, c.rhoCalm);
  }

  /** The common diagonal entry of the starting covariance. */
  function CalmDiagonal(c: Config): real
    requires Inputs(c)
  {
    Square(CalmVol(c)) * c.n as real
  }

  function BaseLeverage(c: Config): real
    requires Inputs(c)
  {
    CalmVolPositive(c);
    Min(VOL_TARGET / CalmVol(c), c.sMax)
  }

  function Weights(c: Config): Vector
    requires c.n >= 1
  {
    Correlation.Equal(c.n)
  }

  function BookGross(c: Config): real
    requires c.n >= 1
  {
    Gross(c.n, Weights(c))
  }

  function ExAnte(c: Config, cov: Matrix): real
    requires c.n >= 1
  {
    c.sqrt(Max(Quad(c.n, Weights(c), cov), 0.0))
  }

  function RealizedVol(c: Config, realizedVar: real): real { c.sqrt(Max(realizedVar, 0.0)) }

  /** The scale traded: the overlay's, clipped to the gross cap, or the fixed base leverage. */
  function AppliedScale(c: Config, cov: Matrix, realizedVar: real): real
    requires Inputs(c)
  {
    if c.overlay then
      GrossClip(TwinScale(ExAnte(c, cov), RealizedVol(c, realizedVar), VOL_TARGET, c.sMax), BookGross(c), c.grossMax)
    else BaseLeverage(c)
  }

  function CovEntry(lam: real, entry: real, x: real, y: real): real {
    lam * entry + (1.0 - lam) * (x * y * TRADING_DAYS)
  }

  function CovStep(lam: real, cov: Matrix, x: Vector): Matrix {
    (i, j) => CovEntry(lam, cov(i, j), x(i), x(j))
  }

  function VarStep(lam: real, v: real, observed: real): real {
    lam * v + (1.0 - lam) * (Square(observed) * TRADING_DAYS)
  }

  /** What the realized leg records of the book's return, `sleeves` before and `book` after leverage. */
  function Observed(leg: Leg, book: real, scale: real): real {
    if leg == Levered then book else book / Max(scale, SCALE_FLOOR)
  }

  function Initial(c: Config): State
    requires Inputs(c)
  {
    State(Correlation.Diagonal(Correlation.Every(CalmDiagonal(c))), Square(CalmVol(c)),
      1.0, 1.0, 0.0, 0.0, GrossAt(c, BaseLeverage(c)), 0)
  }

  function Earned(c: Config, scale: real, x: Vector): real
    requires c.n >= 1
  {
    scale * Dot(c.n, Weights(c), x)
  }

  function GrossAt(c: Config, scale: real): real
    requires c.n >= 1
  {
    scale * BookGross(c)
  }

  function BookReturn(c: Config, s: State, x: Vector): real
    requires Inputs(c)
  {
    Earned(c, AppliedScale(c, s.cov, s.realizedVar), x)
  }

  /** What a day leaves when it trades the given scale. */
  function Traded(c: Config, s: State, x: Vector, scale: real): (t: State)
    requires c.n >= 1 && s.peak >= 1.0
    ensures t.peak >= s.peak
  {
    var r := Earned(c, scale, x);
    var equity := Drawdown.Compound(s.equity, r);
    var peak := Max(s.peak, equity);
    var realizedVar := VarStep(c.lamRv, s.realizedVar, Observed(c.leg, r, scale));
    State(CovStep(c.lamCov, s.cov, x), realizedVar, equity, peak, Max(s.maxDd, Drawdown.Fall(equity, peak)),
      s.turnover + Abs(GrossAt(c, scale) - s.gross), GrossAt(c, scale),
      s.bound + if c.overlay && RealizedVol(c, realizedVar) > ExAnte(c, s.cov) then 1 else 0)
  }

  function Day(c: Config, s: State, x: Vector): (t: State)
    requires Inputs(c) && s.peak >= 1.0
    ensures t.peak >= s.peak
  {
    Traded(c, s, x, AppliedScale(c, s.cov, s.realizedVar))
  }

  /** The state before day t. */
  function Before(c: Config, rows: seq<Vector>, t: nat): (s: State)
    requires Inputs(c) && t <= |rows|
    ensures s.peak >= 1.0
  {
    if t == 0 then Initial(c) else Day(c, Before(c, rows, t - 1), rows[t - 1])
  }

  function ScaleOn(c: Config, rows: seq<Vector>, t: nat): real
    requires Inputs(c) && t <= |rows|
  {
    var s := Before(c, rows, t);
    AppliedScale(c, s.cov, s.realizedVar)
  }

  function Returns(c: Config, rows: seq<Vector>, t: nat): (r: seq<real>)
    requires Inputs(c) && t <= |rows|
    ensures |r| == t
  {
    if t == 0 then [] else Returns(c, rows, t - 1) + [BookReturn(c, Before(c, rows, t - 1), rows[t - 1])]
  }

  /** Sizing on information available before the day's return. */
  method Size(c: Config, cov: Matrix, realizedVar: real, last: real) returns (scale: real, exAnte: real)
    requires Inputs(c)
    ensures scale == AppliedScale(c, cov, realizedVar)
    ensures exAnte == if c.overlay then ExAnte(c, cov) else last
  {
    hide TwinScale, GrossClip, BookGross, ExAnte, RealizedVol, BaseLeverage, IsSqrt;
    scale, exAnte := BaseLeverage(c), last;
    if c.overlay {
      exAnte := ExAnte(c, cov);
      scale := TwinScale(exAnte, RealizedVol(c, realizedVar), VOL_TARGET, c.sMax);
      scale := GrossClip(scale, BookGross(c), c.grossMax);
    }
  }

  /** The study refuses an overlay flag that contradicts the realized leg, and otherwise runs the
      day loop. */
  method DrawdownStudy(c: Config, rows: seq<Vector>) returns (ok: bool, s: State, book: seq<real>, scales: seq<real>)
    requires Inputs(c)
    ensures ok <==> c.overlay == (c.leg != Off)
    ensures ok ==> s == Before(c, rows, |rows|) && book == Returns(c, rows, |rows|)
    ensures ok ==> |scales| == |rows| && forall t | 0 <= t < |rows| :: scales[t] == ScaleOn(c, rows, t)
  {
    RunStarts(c, rows);
    hide Inputs, Initial, Before, Returns, Scales, ScaleOn, Day, AppliedScale, BookReturn, ExAnte, RealizedVol;
    hide GrossAt, Earned, CovStep, VarStep, Observed, Drawdown.Compound, Drawdown.Fall, Abs, Max;
    ok := c.overlay == (c.leg != Off);
    s, book, scales := Initial(c), [], [];
    if ok {
      var cov, realizedVar := s.cov, s.realizedVar;
      var equity, peak, maxDd := s.equity, s.peak, s.maxDd;
      var turnover, prevGross, bound := s.turnover, s.gross, s.bound;
      var exAnte, scale := 0.0, 0.0;
      for t := 0 to |rows|
        invariant Before(c, rows, t) == State(cov, realizedVar, equity, peak, maxDd, turnover, prevGross, bound)
        invariant book == Returns(c, rows, t) && scales == Scales(c, rows, t)
      {
        scale, exAnte := Size(c, cov, realizedVar, exAnte);
        DayMoves(c, rows, t);
        scales := scales + [scale];
        var thisGross := GrossAt(c, scale);
        turnover := turnover + Abs(thisGross - prevGross);
        prevGross := thisGross;
        var r := Earned(c, scale, rows[t]);
        book := book + [r];
        equity := Drawdown.Compound(equity, r);
        peak := Max(peak, equity);
        maxDd := Max(maxDd, Drawdown.Fall(equity, peak));
        cov := CovStep(c.lamCov, cov, rows[t]);
        realizedVar := VarStep(c.lamRv, realizedVar, Observed(c.leg, r, scale));
        if c.overlay && RealizedVol(c, realizedVar) > exAnte { bound := bound + 1; }
      }
      s := State(cov, realizedVar, equity, peak, maxDd, turnover, prevGross, bound);
      ScalesAre(c, rows, |rows|);
    }
  }

  function Scales(c: Config, rows: seq<Vector>, t: nat): (k: seq<real>)
    requires Inputs(c) && t <= |rows|
    ensures |k| == t
  {
    if t == 0 then [] else Scales(c, rows, t - 1) + [ScaleOn(c, rows, t - 1)]
  }

  lemma {:induction false} ScalesAre(c: Config, rows: seq<Vector>, t: nat)
    requires Inputs(c) && t <= |rows|
    ensures forall d | 0 <= d < t :: Scales(c, rows, t)[d] == ScaleOn(c, rows, d)
  {
    hide ScaleOn;
    if t > 0 { ScalesAre(c, rows, t - 1); }
  }

  lemma RunStarts(c: Config, rows: seq<Vector>)
    requires Inputs(c)
    ensures c.n >= 1 && c.grossMax > 0.0
    ensures Before(c, rows, 0) == Initial(c) && Returns(c, rows, 0) == [] && Scales(c, rows, 0) == []
  {}

  /** One day of the run, at the scale that the state before it calls for. */
  lemma DayMoves(c: Config, rows: seq<Vector>, t: nat)
    requires Inputs(c) && t < |rows|
    ensures var s := Before(c, rows, t);
      var scale := AppliedScale(c, s.cov, s.realizedVar);
      && Scales(c, rows, t + 1) == Scales(c, rows, t) + [scale]
      && Returns(c, rows, t + 1) == Returns(c, rows, t) + [Earned(c, scale, rows[t])]
      && Before(c, rows, t + 1) == Traded(c, s, rows[t], scale)
      && Max(s.peak, Drawdown.Compound(s.equity, Earned(c, scale, rows[t]))) >= 1.0
  {
    var s := Before(c, rows, t);
    assert Before(c, rows, t + 1) == Day(c, s, rows[t]);
    hide AppliedScale, Inputs, Earned, ExAnte, RealizedVol, Traded;
  }

  // ------------------------------------------------- caps, non-anticipation

  lemma BookGrossIsOne(c: Config)
    requires c.n >= 1
    ensures BookGross(c) == 1.0
  {
    var x := 1.0 / c.n as real;
    PositiveQuotient(1.0, c.n as real);
    Quotient(1.0, c.n as real, x);
    var f: Vector := i => Abs(Weights(c)(i));
    assert forall i :: Weights(c)(i) == x;
    SumConstant(c.n, x, f);
  }

  /** The scale k respects the ceiling, the gross cap and the volatility target against sigma, and
      one of the three binds. */
  ghost predicate Capped(c: Config, k: real, sigma: real) {
    && 0.0 < k <= c.sMax && k <= c.grossMax && k * sigma <= VOL_TARGET
    && (k == c.sMax || k == c.grossMax || k * sigma == VOL_TARGET)
  }

  /** Every day of every run is capped against the larger leg. */
  lemma CapsHold(c: Config, rows: seq<Vector>, t: nat)
    requires Inputs(c) && t <= |rows| && c.overlay
    ensures var s := Before(c, rows, t);
      Capped(c, ScaleOn(c, rows, t), Max(ExAnte(c, s.cov), RealizedVol(c, s.realizedVar)))
  {
    var s := Before(c, rows, t);
    assert ExAnte(c, s.cov) >= 0.0;
    hide Capped, Before, ExAnte, RealizedVol, TwinScale, GrossClip, Inputs, BookGross;
    CapsAt(c, ScaleOn(c, rows, t), ExAnte(c, s.cov), RealizedVol(c, s.realizedVar));
  }

  lemma CapsAt(c: Config, k: real, a: real, b: real)
    requires Inputs(c) && a >= 0.0
    requires k == GrossClip(TwinScale(a, b, VOL_TARGET, c.sMax), BookGross(c), c.grossMax)
    ensures Capped(c, k, Max(a, b))
  {
    assert c.sMax > 0.0 && c.grossMax > 0.0 && c.n >= 1;
    var before, sigma := TwinScale(a, b, VOL_TARGET, c.sMax), Max(a, b);
    assert sigma >= 0.0;
    hide TwinScale, GrossClip, BookGross, Inputs, Max;
    BookGrossIsOne(c);
    ScaleFacts(a, b, VOL_TARGET, c.sMax);
    ClipFacts(before, 1.0, c.grossMax);
    CapsFollow(before, k, sigma, c.sMax, c.grossMax);
  }

  lemma CapsFollow(before: real, k: real, sigma: real, sMax: real, grossMax: real)
    requires sigma >= 0.0 && 0.0 < before <= sMax && before * sigma <= VOL_TARGET
    requires before == sMax || before * sigma == VOL_TARGET
    requires 0.0 < k <= before && k * 1.0 <= grossMax && (k == before || k * 1.0 == grossMax)
    ensures k <= sMax && k <= grossMax && k * sigma <= VOL_TARGET
    ensures k == sMax || k == grossMax || k * sigma == VOL_TARGET
  {
    Scaled(sigma, k, before, sigma * k, sigma * before);
  }

  /** Two runs that agree before day t apply the same scale on day t. */
  lemma {:induction false} NonAnticipating(c: Config, rows: seq<Vector>, others: seq<Vector>, t: nat)
    requires Inputs(c) && t <= |rows| && t <= |others|
    requires forall d | 0 <= d < t :: rows[d] == others[d]
    ensures Before(c, rows, t) == Before(c, others, t)
    ensures ScaleOn(c, rows, t) == ScaleOn(c, others, t)
  {
    if t > 0 { NonAnticipating(c, rows, others, t - 1); }
  }

  // ----------------------------------------------------- what the run reports

  lemma {:induction false} WealthPrefix(r: seq<real>, x: real, j: nat)
    requires j <= |r|
    ensures Drawdown.Wealth(r + [x], j) == Drawdown.Wealth(r, j)
    ensures Drawdown.Peak(r + [x], j) == Drawdown.Peak(r, j)
    ensures Drawdown.LoopDrawdown(r + [x], j) == Drawdown.LoopDrawdown(r, j)
  {
    if j > 0 {
      WealthPrefix(r, x, j - 1);
      assert (r + [x])[j - 1] == r[j - 1];
      hide Drawdown.Compound, Drawdown.Fall;
    }
  }

  /** One more return compounds the wealth, and may raise the peak and the drawdown. */
  lemma WealthAppend(r: seq<real>, x: real)
    ensures var j := |r|;
      var equity := Drawdown.Compound(Drawdown.Wealth(r, j), x);
      var peak := Max(Drawdown.Peak(r, j), equity);
      && peak >= 1.0
      && Drawdown.Wealth(r + [x], j + 1) == equity
      && Drawdown.Peak(r + [x], j + 1) == peak
      && Drawdown.LoopDrawdown(r + [x], j + 1) == Max(Drawdown.LoopDrawdown(r, j), Drawdown.Fall(equity, peak))
  {
    WealthPrefix(r, x, |r|);
    assert (r + [x])[|r|] == x;
    hide Drawdown.Compound, Drawdown.Fall;
  }

  /** The reported maximum drawdown is the running-peak drawdown of the book returns. */
  lemma {:induction false} ReportsDrawdown(c: Config, rows: seq<Vector>, t: nat)
    requires Inputs(c) && t <= |rows|
    ensures var s, r := Before(c, rows, t), Returns(c, rows, t);
      && s.equity == Drawdown.Wealth(r, t)
      && s.peak == Drawdown.Peak(r, t)
      && s.maxDd == Drawdown.LoopDrawdown(r, t)
  {
    if t > 0 {
      ReportsDrawdown(c, rows, t - 1);
      var s, r := Before(c, rows, t - 1), Returns(c, rows, t - 1);
      var x := BookReturn(c, s, rows[t - 1]);
      WealthAppend(r, x);
      hide BookReturn, CovStep, VarStep, Drawdown.Compound, AppliedScale, BookGross, ExAnte, RealizedVol;
    }
  }

  lemma Triangle(a: real, b: real, c: real)
    ensures Abs(a - c) <= Abs(a - b) + Abs(b - c)
  {}

  /** The turnover is at least the distance the gross has moved, and with no overlay it is zero. */
  lemma {:induction false} TurnoverFacts(c: Config, rows: seq<Vector>, t: nat)
    requires Inputs(c) && t <= |rows|
    ensures var s := Before(c, rows, t);
      && s.turnover >= Abs(s.gross - Initial(c).gross)
      && (!c.overlay ==> s.turnover == 0.0 && s.gross == Initial(c).gross && s.bound == 0)
  {
    if t > 0 {
      TurnoverFacts(c, rows, t - 1);
      var s, u := Before(c, rows, t - 1), Before(c, rows, t);
      Triangle(u.gross, s.gross, Initial(c).gross);
      assert u.gross == GrossAt(c, ScaleOn(c, rows, t - 1));
      hide BookReturn, CovStep, VarStep, Drawdown.Compound, Drawdown.Fall;
      hide TwinScale, GrossClip, GrossAt, ExAnte, RealizedVol, Inputs, BaseLeverage;
    }
  }
}
