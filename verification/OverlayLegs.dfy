/** What the two legs of the overlay are to each other over whole runs of the drawdown study when
    both estimators share one halflife. */
module OverlayLegs {
  import opened Reals
  import opened Overlay
  import opened Study
  import Frontier
  import Correlation

  /** The ex-ante variance of the book, w' cov w. */
  function BookVariance(c: Config, cov: Matrix): real
    requires c.n >= 1
  {
    Quad(c.n, Weights(c), cov)
  }

  /** The unlevered return of the book. */
  function Unscaled(c: Config, x: Vector): real
    requires c.n >= 1
  {
    Dot(c.n, Weights(c), x)
  }

  ghost predicate Agree(c: Config, s: State)
    requires c.n >= 1
  {
    BookVariance(c, s.cov) == s.realizedVar
  }

  // ------------------------------------------------------------ estimators

  /** The covariance update moves w' cov w by the variance update on the unlevered return. */
  lemma CovStepIsVarStep(c: Config, lam: real, cov: Matrix, x: Vector)
    requires c.n >= 1
    ensures BookVariance(c, CovStep(lam, cov, x)) == VarStep(lam, BookVariance(c, cov), Unscaled(c, x))
  {
    var b := (1.0 - lam) * TRADING_DAYS;
    var w := Weights(c);
    StepEntries(lam, cov, x, b);
    hide Quad, Dot, CovStep;
    QuadBlend(c.n, w, lam, cov, b, x, CovStep(lam, cov, x));
    Regroup(lam, Dot(c.n, w, x));
  }

  lemma Regroup(lam: real, d: real)
    ensures (1.0 - lam) * TRADING_DAYS * (d * d) == (1.0 - lam) * (Square(d) * TRADING_DAYS)
  {}

  lemma StepEntries(lam: real, cov: Matrix, x: Vector, b: real)
    requires b == (1.0 - lam) * TRADING_DAYS
    ensures forall i, j :: CovStep(lam, cov, x)(i, j) == lam * cov(i, j) + b * (x(i) * x(j))
  {
    forall i: int, j: int ensures CovStep(lam, cov, x)(i, j) == lam * cov(i, j) + b * (x(i) * x(j)) {
      EntryIs(lam, cov(i, j), x(i), x(j), b);
    }
  }

  lemma EntryIs(lam: real, entry: real, x: real, y: real, b: real)
    requires b == (1.0 - lam) * TRADING_DAYS
    ensures CovEntry(lam, entry, x, y) == lam * entry + b * (x * y)
  {
    assert (1.0 - lam) * (x * y * TRADING_DAYS) == b * (x * y);
  }

  lemma VarStepOrder(lam: real, v: real, u: real, a: real, b: real)
    requires 0.0 < lam < 1.0
    ensures v <= u && Square(a) <= Square(b) ==> VarStep(lam, v, a) <= VarStep(lam, u, b)
    ensures VarStep(lam, v, a) == VarStep(lam, v, b) <==> Square(a) == Square(b)
  {
    var k := 1.0 - lam;
    var p, q := Square(a) * TRADING_DAYS, Square(b) * TRADING_DAYS;
    var kp, kq, lv, lu := k * p, k * q, lam * v, lam * u;
    hide Square;
    if p < q { StrictlyScaled(k, p, q, kp, kq); }
    if q < p { StrictlyScaled(k, q, p, kq, kp); }
    if v <= u { Scaled(lam, v, u, lv, lu); }
  }

  /** The update lies between the old variance and the day's annualised squared return. */
  lemma VarStepBetween(lam: real, v: real, a: real)
    requires 0.0 < lam < 1.0
    ensures VarStep(lam, v, a) > v <==> Square(a) * TRADING_DAYS > v
    ensures Min(v, Square(a) * TRADING_DAYS) <= VarStep(lam, v, a) <= Max(v, Square(a) * TRADING_DAYS)
  {
    var p := Square(a) * TRADING_DAYS;
    var up, down := (1.0 - lam) * (p - v), lam * (v - p);
    assert VarStep(lam, v, a) == v + up == p + down;
    hide Square, VarStep;
    if p > v { Positive(1.0 - lam, p - v, up); Mixed(lam, v - p, down); }
    if p < v { Mixed(1.0 - lam, p - v, up); Positive(lam, v - p, down); }
  }

  lemma InitialAgrees(c: Config)
    requires Inputs(c)
    ensures Agree(c, Initial(c))
    ensures 0.0 < Initial(c).realizedVar && Initial(c).realizedVar * c.n as real == Frontier.Crowding(c.n, c.rhoCalm)
  {
    CalmVolPositive(c);
    var v, d := Square(CalmVol(c)), CalmDiagonal(c);
    SquareSign(CalmVol(c));
    assert Initial(c).realizedVar == v;
    assert Initial(c).cov == Correlation.Diagonal(Correlation.Every(d));
    hide Initial, CalmVol, Square, CalmDiagonal;
    Correlation.EqualDiagonal(c.n, v, d);
  }

  /** Along every run both variances stay non-negative and the covariance semidefinite, so the
      clips at zero inside the square roots never bind. */
  lemma {:induction false} ClipsNeverBind(c: Config, rows: seq<Vector>, t: nat)
    requires Inputs(c) && t <= |rows|
    ensures Before(c, rows, t).realizedVar >= 0.0
    ensures Psd(c.n, Before(c, rows, t).cov)
    ensures Square(ExAnte(c, Before(c, rows, t).cov)) == BookVariance(c, Before(c, rows, t).cov)
  {
    if t == 0 {
      InitialAgrees(c);
      InitialPsd(c);
    } else {
      ClipsNeverBind(c, rows, t - 1);
      var s := Before(c, rows, t - 1);
      DayIs(c, s, rows[t - 1]);
      hide Day, VarStep, CovStep, Quad, Recorded;
      StepPsd(c.n, c.lamCov, s.cov, rows[t - 1]);
      StepNonNegative(c.lamRv, s.realizedVar, Recorded(c, s, rows[t - 1]));
    }
    assert Quad(c.n, Weights(c), Before(c, rows, t).cov) >= 0.0;
  }

  lemma InitialPsd(c: Config)
    requires Inputs(c)
    ensures Psd(c.n, Initial(c).cov)
  {
    var d := CalmDiagonal(c);
    SquareSign(CalmVol(c));
    NonNegative(Square(CalmVol(c)), c.n as real, d);
    assert Initial(c).cov == Correlation.Diagonal(Correlation.Every(d));
    hide Initial, CalmDiagonal, Psd;
    Correlation.DiagonalPsd(c.n, Correlation.Every(d));
  }

  /** What the realized leg records of a day. */
  function Recorded(c: Config, s: State, x: Vector): real
    requires Inputs(c)
  {
    Observed(c.leg, BookReturn(c, s, x), AppliedScale(c, s.cov, s.realizedVar))
  }

  lemma DayIs(c: Config, s: State, x: Vector)
    requires Inputs(c) && s.peak >= 1.0
    ensures Day(c, s, x).cov == CovStep(c.lamCov, s.cov, x)
    ensures Day(c, s, x).realizedVar == VarStep(c.lamRv, s.realizedVar, Recorded(c, s, x))
    ensures Day(c, s, x).bound
         == s.bound + if c.overlay && RealizedVol(c, Day(c, s, x).realizedVar) > ExAnte(c, s.cov) then 1 else 0
  {}

  lemma StepPsd(n: nat, lam: real, cov: Matrix, x: Vector)
    requires 0.0 < lam < 1.0 && Psd(n, cov)
    ensures Psd(n, CovStep(lam, cov, x))
  {
    var b := (1.0 - lam) * TRADING_DAYS;
    StepEntries(lam, cov, x, b);
    hide Quad, CovStep, Dot;
    forall v: Vector ensures Quad(n, v, CovStep(lam, cov, x)) >= 0.0 {
      QuadBlend(n, v, lam, cov, b, x, CovStep(lam, cov, x));
      var d, q := Dot(n, v, x), Quad(n, v, cov);
      SquareSign(d);
      NonNegative(b, d * d, b * (d * d));
      NonNegative(lam, q, lam * q);
    }
  }

  lemma StepNonNegative(lam: real, v: real, a: real)
    requires 0.0 < lam < 1.0 && v >= 0.0
    ensures VarStep(lam, v, a) >= 0.0
  {
    SquareSign(a);
    VarStepBetween(lam, v, a);
  }

  /** So the two volatilities compared are the roots of w' cov w and of the realized variance. */
  lemma LegsAreRoots(c: Config, rows: seq<Vector>, t: nat)
    requires Inputs(c) && t <= |rows|
    ensures var s := Before(c, rows, t);
      && ExAnte(c, s.cov) >= 0.0 && Square(ExAnte(c, s.cov)) == BookVariance(c, s.cov)
      && RealizedVol(c, s.realizedVar) >= 0.0 && Square(RealizedVol(c, s.realizedVar)) == s.realizedVar
  {
    ClipsNeverBind(c, rows, t);
    hide Before, Quad;
    assert IsSqrt(c.sqrt);
  }

  // --------------------------------------------------- the unlevered leg

  /** Dividing the applied scale back out recovers the unlevered return up to sign exactly above
      the guard's floor, or when there is no return; below it the recorded size is never larger. */
  lemma ObservedExactly(k: real, d: real)
    requires k > 0.0
    ensures Square(Observed(Unlevered, k * d, k)) == Square(d) <==> k >= SCALE_FLOOR || d == 0.0
    ensures Square(Observed(Unlevered, k * d, k)) <= Square(d)
  {
    var m := Max(k, SCALE_FLOOR);
    var o := Observed(Unlevered, k * d, k);
    Quotient(k * d, m, o);
    hide Observed, Max;
    if k >= SCALE_FLOOR {
      assert (o - d) * k == 0.0;
      NoFactor(o - d, k, (o - d) * k);
    } else {
      var gap, e := Square(d) - Square(o), Square(m) - Square(k);
      var g := gap * Square(m);
      assert g == Square(d) * e by { assert Square(o) * Square(m) == (o * m) * (o * m); }
      SquareOrder(k, m);
      SquareSign(m);
      SquareSign(d);
      hide Square;
      NonNegative(Square(d), e, g);
      if Square(d) > 0.0 { Positive(Square(d), e, g); }
      if gap < 0.0 { Mixed(Square(m), gap, g); }
      if gap > 0.0 { Positive(gap, Square(m), g); }
    }
  }

  lemma NoFactor(x: real, k: real, p: real)
    requires k > 0.0 && p == x * k && p == 0.0
    ensures x == 0.0
  {
    if x > 0.0 { Positive(x, k, p); }
    if x < 0.0 { Mixed(k, x, p); }
  }

  ghost predicate OneHalflife(c: Config) { Inputs(c) && c.overlay && c.lamCov == c.lamRv }

  lemma ScalePositive(c: Config, cov: Matrix, v: real)
    requires Inputs(c) && c.overlay
    ensures AppliedScale(c, cov, v) > 0.0
  {
    CapsAt(c, AppliedScale(c, cov, v), ExAnte(c, cov), RealizedVol(c, v));
  }

  lemma RecordedUnlevered(c: Config, s: State, x: Vector)
    requires Inputs(c) && c.overlay && c.leg == Unlevered
    ensures Square(Recorded(c, s, x)) == Square(Unscaled(c, x))
       <==> AppliedScale(c, s.cov, s.realizedVar) >= SCALE_FLOOR || Unscaled(c, x) == 0.0
    ensures Square(Recorded(c, s, x)) <= Square(Unscaled(c, x))
  {
    var k := AppliedScale(c, s.cov, s.realizedVar);
    assert BookReturn(c, s, x) == k * Unscaled(c, x);
    ScalePositive(c, s.cov, s.realizedVar);
    hide AppliedScale, Unscaled, BookReturn, Observed;
    ObservedExactly(k, Unscaled(c, x));
  }

  /** From a day on which the legs agree, they agree on the next exactly when the scale traded is
      at or above the guard's floor or the book's unlevered return is zero. */
  lemma DayKeepsAgreement(c: Config, s: State, x: Vector)
    requires OneHalflife(c) && c.leg == Unlevered && s.peak >= 1.0 && Agree(c, s)
    ensures Agree(c, Day(c, s, x))
       <==> AppliedScale(c, s.cov, s.realizedVar) >= SCALE_FLOOR || Unscaled(c, x) == 0.0
  {
    hide Day, VarStep, CovStep, BookVariance, Recorded, AppliedScale, Square, Unscaled;
    DayIs(c, s, x);
    CovStepIsVarStep(c, c.lamCov, s.cov, x);
    RecordedUnlevered(c, s, x);
    VarStepOrder(c.lamRv, s.realizedVar, s.realizedVar, Recorded(c, s, x), Unscaled(c, x));
  }

  ghost predicate Kept(c: Config, rows: seq<Vector>, t: nat)
    requires Inputs(c) && t < |rows|
  {
    ScaleOn(c, rows, t) >= SCALE_FLOOR || Unscaled(c, rows[t]) == 0.0
  }

  ghost predicate AgreeOn(c: Config, rows: seq<Vector>, t: nat)
    requires Inputs(c) && t <= |rows|
  {
    Agree(c, Before(c, rows, t))
  }

  /** The two legs are the same number at every sizing point of a run exactly when no day before
      the last sizing point trades a non-zero return at a scale under the guard's floor. */
  lemma {:induction false} LegsAgreeExactly(c: Config, rows: seq<Vector>, n: nat)
    requires OneHalflife(c) && c.leg == Unlevered && n <= |rows|
    ensures (forall t: nat | t <= n :: AgreeOn(c, rows, t)) <==> forall t: nat | t < n :: Kept(c, rows, t)
  {
    hide Day, Initial, AppliedScale, BookVariance, Unscaled;
    if n == 0 {
      InitialAgrees(c);
    } else {
      LegsAgreeExactly(c, rows, n - 1);
      if AgreeOn(c, rows, n - 1) {
        DayKeepsAgreement(c, Before(c, rows, n - 1), rows[n - 1]);
        assert AgreeOn(c, rows, n) <==> Kept(c, rows, n - 1);
      }
      hide *;
      if forall t: nat | t < n :: Kept(c, rows, t) {
        assert forall t: nat | t < n - 1 :: Kept(c, rows, t);
        assert AgreeOn(c, rows, n - 1);
      }
      if forall t: nat | t <= n :: AgreeOn(c, rows, t) {
        assert forall t: nat | t <= n - 1 :: AgreeOn(c, rows, t);
        assert AgreeOn(c, rows, n);
      }
    }
  }

  lemma AgreeingVols(c: Config, s: State)
    requires Inputs(c) && Agree(c, s)
    ensures ExAnte(c, s.cov) == RealizedVol(c, s.realizedVar)
  {}

  /** Returns up to a billion keep every scale above the floor, so on any realistic path the two
      legs are one number and max() chooses nothing. */
  lemma {:induction false} LegsAreOne(c: Config, rows: seq<Vector>, t: nat)
    requires OneHalflife(c) && c.leg == Unlevered && t <= |rows|
    requires c.rhoCalm <= 1.0 && c.sMax >= SCALE_FLOOR && c.grossMax >= SCALE_FLOOR
    requires forall d | 0 <= d < t :: Abs(Unscaled(c, rows[d])) <= 1000000000.0
    ensures Agree(c, Before(c, rows, t)) && 0.0 <= Before(c, rows, t).realizedVar <= 10000000000000000000000.0
    ensures ScaleOn(c, rows, t) >= SCALE_FLOOR
    ensures ExAnte(c, Before(c, rows, t).cov) == RealizedVol(c, Before(c, rows, t).realizedVar)
  {
    hide Day, Initial, AppliedScale, BookVariance, Unscaled, ExAnte, RealizedVol;
    if t == 0 {
      InitialAgrees(c);
      CalmAtMostOne(c, Initial(c).realizedVar);
    } else {
      LegsAreOne(c, rows, t - 1);
      DayKeepsAgreement(c, Before(c, rows, t - 1), rows[t - 1]);
      VarianceStaysBounded(c, Before(c, rows, t - 1), rows[t - 1]);
      ClipsNeverBind(c, rows, t);
    }
    AgreeingVols(c, Before(c, rows, t));
    FloorHolds(c, Before(c, rows, t));
  }

  lemma CalmAtMostOne(c: Config, v: real)
    requires Inputs(c) && c.rhoCalm <= 1.0 && v * c.n as real == Frontier.Crowding(c.n, c.rhoCalm)
    ensures v <= 1.0
  {
    var k, n := c.n as real - 1.0, c.n as real;
    Scaled(k, c.rhoCalm, 1.0, k * c.rhoCalm, k);
    if v > 1.0 { StrictlyScaled(n, 1.0, v, n, n * v); }
  }

  lemma VarianceStaysBounded(c: Config, s: State, x: Vector)
    requires OneHalflife(c) && c.leg == Unlevered && s.peak >= 1.0 && Agree(c, s)
    requires s.realizedVar <= 10000000000000000000000.0 && Abs(Unscaled(c, x)) <= 1000000000.0
    ensures Day(c, s, x).realizedVar <= 10000000000000000000000.0
  {
    hide Day, VarStep, CovStep, Recorded, AppliedScale, Square, Unscaled, Abs, BookVariance;
    DayIs(c, s, x);
    RecordedUnlevered(c, s, x);
    VarStepBetween(c.lamRv, s.realizedVar, Recorded(c, s, x));
    SquareOfAbs(Unscaled(c, x));
  }

  lemma SquareOfAbs(d: real)
    requires Abs(d) <= 1000000000.0
    ensures Square(d) <= 1000000000000000000.0
  {
    SquareOrder(Abs(d), 1000000000.0);
    assert Square(Abs(d)) == Square(d);
  }

  lemma FloorHolds(c: Config, s: State)
    requires Inputs(c) && c.overlay && Agree(c, s) && 0.0 <= s.realizedVar <= 10000000000000000000000.0
    requires c.sMax >= SCALE_FLOOR && c.grossMax >= SCALE_FLOOR
    ensures AppliedScale(c, s.cov, s.realizedVar) >= SCALE_FLOOR
  {
    var sigma := RealizedVol(c, s.realizedVar);
    AgreeingVols(c, s);
    var k := AppliedScale(c, s.cov, s.realizedVar);
    CapsAt(c, k, ExAnte(c, s.cov), sigma);
    assert Capped(c, k, sigma);
    assert sigma <= 100000000000.0 by { SquareOrder(sigma, 100000000000.0); }
    if k * sigma == VOL_TARGET { Scaled(k, sigma, 100000000000.0, k * sigma, k * 100000000000.0); }
  }

  // ------------------------------------------------ the counter of the leg

  /** The days whose annualised squared return exceeds the variance the book was sized on. */
  function Surprises(c: Config, rows: seq<Vector>, t: nat): nat
    requires Inputs(c) && t <= |rows|
  {
    if t == 0 then 0
    else
      Surprises(c, rows, t - 1)
      + if Square(Unscaled(c, rows[t - 1])) * TRADING_DAYS > BookVariance(c, Before(c, rows, t - 1).cov) then 1 else 0
  }

  lemma LegsStayOne(c: Config, rows: seq<Vector>, t: nat)
    requires OneHalflife(c) && c.leg == Unlevered && t <= |rows|
    requires forall d: nat | d < t :: Kept(c, rows, d)
    ensures AgreeOn(c, rows, t)
  {
    LegsAgreeExactly(c, rows, t);
  }

  lemma {:induction false} CountIs(c: Config, rows: seq<Vector>, t: nat)
    requires OneHalflife(c) && c.leg == Unlevered && t <= |rows|
    requires forall d: nat | d < t :: Kept(c, rows, d)
    ensures Before(c, rows, t).bound == Surprises(c, rows, t)
  {
    if t == 0 {
      NothingCounted(c);
    } else {
      assert Kept(c, rows, t - 1);
      hide *;
      CountIs(c, rows, t - 1);
      LegsStayOne(c, rows, t - 1);
      CountsOneMore(c, rows, t - 1);
    }
  }

  /** The counter compares the next day's realized leg with this day's ex-ante leg. While the legs
      are one number, so that the realized one is never the larger at a sizing point, it still
      counts one for each day whose squared return exceeds the variance sized on. */
  lemma BoundCountsSurprises(c: Config, rows: seq<Vector>, t: nat)
    requires OneHalflife(c) && c.leg == Unlevered && t <= |rows|
    requires forall d: nat | d < t :: Kept(c, rows, d)
    ensures Before(c, rows, t).bound == Surprises(c, rows, t)
    ensures !(RealizedVol(c, Before(c, rows, t).realizedVar) > ExAnte(c, Before(c, rows, t).cov))
  {
    CountIs(c, rows, t);
    LegsStayOne(c, rows, t);
    NeverLarger(c, Before(c, rows, t));
  }

  lemma NeverLarger(c: Config, s: State)
    requires Inputs(c) && Agree(c, s)
    ensures !(RealizedVol(c, s.realizedVar) > ExAnte(c, s.cov))
  {
    AgreeingVols(c, s);
  }

  lemma CountsOneMore(c: Config, rows: seq<Vector>, d: nat)
    requires OneHalflife(c) && c.leg == Unlevered && d < |rows| && AgreeOn(c, rows, d) && Kept(c, rows, d)
    requires Before(c, rows, d).bound == Surprises(c, rows, d)
    ensures Before(c, rows, d + 1).bound == Surprises(c, rows, d + 1)
  {
    ClipsNeverBind(c, rows, d);
    hide Day, Initial, AppliedScale, BookVariance, Unscaled;
    DayCounts(c, Before(c, rows, d), rows[d]);
  }

  lemma NothingCounted(c: Config)
    requires Inputs(c)
    ensures Initial(c).bound == 0
  {}

  lemma DayCounts(c: Config, s: State, x: Vector)
    requires OneHalflife(c) && c.leg == Unlevered && s.peak >= 1.0 && Agree(c, s) && s.realizedVar >= 0.0
    requires AppliedScale(c, s.cov, s.realizedVar) >= SCALE_FLOOR || Unscaled(c, x) == 0.0
    ensures Day(c, s, x).bound
         == s.bound + if Square(Unscaled(c, x)) * TRADING_DAYS > BookVariance(c, s.cov) then 1 else 0
  {
    var u := Day(c, s, x);
    AgreeingVols(c, s);
    assert IsSqrt(c.sqrt);
    hide Day, VarStep, CovStep, BookVariance, Recorded, AppliedScale, Square, Unscaled, ExAnte, Quad;
    DayIs(c, s, x);
    RecordedUnlevered(c, s, x);
    StepNonNegative(c.lamRv, s.realizedVar, Recorded(c, s, x));
    VarStepBetween(c.lamRv, s.realizedVar, Recorded(c, s, x));
    RootOrder(c.sqrt, u.realizedVar, s.realizedVar);
  }

  // ------------------------------------------- runs on which this shows

  const SLEEVES: nat := 14

  /** The study's sleeves without calm correlation, one halflife, unit ceiling. */
  function Uncorrelated(sqrt: real -> real, grossMax: real): Config {
    Config(sqrt, SLEEVES, 0.0, 0.5, 0.5, 1.0, grossMax, true, Unlevered)
  }

  /** Every sleeve returning d is the book returning d. */
  lemma EqualReturns(c: Config, d: real)
    requires c.n >= 1
    ensures Unscaled(c, Correlation.Every(d)) == d
  {
    var x := 1.0 / c.n as real;
    var f: Vector := i => Weights(c)(i) * Correlation.Every(d)(i);
    var each := x * d;
    forall i | 0 <= i < c.n ensures f(i) == each {
      assert Weights(c)(i) == x && Correlation.Every(d)(i) == d;
    }
    assert Unscaled(c, Correlation.Every(d)) == SumTo(c.n, f);
    SharesReturn(c.n as real, x, d, each);
    hide *;
    SumConstant(c.n, each, f);
  }

  lemma SharesReturn(n: real, x: real, d: real, each: real)
    requires n > 0.0 && x == 1.0 / n && each == x * d
    ensures n * each == d
  {
    Quotient(1.0, n, x);
    assert n * each == (x * n) * d;
  }

  lemma UncorrelatedFacts(sqrt: real -> real, grossMax: real)
    requires IsSqrt(sqrt) && grossMax > 0.0
    ensures OneHalflife(Uncorrelated(sqrt, grossMax))
    ensures Unscaled(Uncorrelated(sqrt, grossMax), Correlation.Every(1.0)) == 1.0
    ensures Initial(Uncorrelated(sqrt, grossMax)).realizedVar == 1.0 / 14.0
    ensures BookVariance(Uncorrelated(sqrt, grossMax), Initial(Uncorrelated(sqrt, grossMax)).cov) == 1.0 / 14.0
  {
    var c := Uncorrelated(sqrt, grossMax);
    assert Frontier.Crowding(14, 0.0) == 1.0;
    InitialAgrees(c);
    EqualReturns(c, 1.0);
  }

  /** A gross cap under the guard's floor and one unit return: the legs differ after one day. */
  lemma LegsDifferUnderTheFloor(sqrt: real -> real)
    requires IsSqrt(sqrt)
    ensures var c, rows := Uncorrelated(sqrt, 0.0000000000001), [Correlation.Every(1.0)];
      OneHalflife(c) && AgreeOn(c, rows, 0) && !AgreeOn(c, rows, 1)
  {
    var c, rows := Uncorrelated(sqrt, 0.0000000000001), [Correlation.Every(1.0)];
    UncorrelatedFacts(sqrt, 0.0000000000001);
    InitialAgrees(c);
    CapsHold(c, rows, 0);
    assert AgreeOn(c, rows, 0) && !Kept(c, rows, 0);
    hide Day, Initial, AppliedScale, BookVariance, Unscaled, Weights;
    DayKeepsAgreement(c, Before(c, rows, 0), rows[0]);
    assert Before(c, rows, 1) == Day(c, Before(c, rows, 0), rows[0]);
  }

  /** One unit return at full caps: the legs are the same number before and after the day, and the
      counter has moved. */
  lemma CountsWhileLegsAreOne(sqrt: real -> real)
    requires IsSqrt(sqrt)
    ensures var c, rows := Uncorrelated(sqrt, 1.0), [Correlation.Every(1.0)];
      && OneHalflife(c)
      && AgreeOn(c, rows, 0) && AgreeOn(c, rows, 1)
      && Before(c, rows, 1).bound == 1
  {
    var c, rows := Uncorrelated(sqrt, 1.0), [Correlation.Every(1.0)];
    UncorrelatedFacts(sqrt, 1.0);
    LegsAreOne(c, rows, 0);
    LegsAreOne(c, rows, 1);
    assert Before(c, rows, 0) == Initial(c);
    assert Kept(c, rows, 0);
    hide Day, Initial, AppliedScale, BookVariance, Unscaled, ExAnte, RealizedVol;
    BoundCountsSurprises(c, rows, 1);
    assert Surprises(c, rows, 0) == 0;
    assert Square(1.0) == 1.0;
  }
}
