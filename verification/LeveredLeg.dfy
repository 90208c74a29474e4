/** The realized leg measured on the account's own, levered returns: when max() can select it, for
    separate halflives and any caps. */
module LeveredLeg {
  import opened Reals
  import opened Overlay
  import opened Study
  import opened OverlayLegs
  import Frontier
  import Correlation

  ghost predicate LeveredRun(c: Config) { Inputs(c) && c.overlay && c.leg == Levered }

  /** At the sizing point of day t the realized leg is the one max() selects. */
  ghost predicate Selected(c: Config, rows: seq<Vector>, t: nat)
    requires Inputs(c)
  {
    t <= |rows| && RealizedVol(c, Before(c, rows, t).realizedVar) > ExAnte(c, Before(c, rows, t).cov)
  }

  /** A return levered by k adds no more to the realized leg than it adds to the ex-ante leg. */
  predicate Outweighed(c: Config, k: real) { Square(k) * (1.0 - c.lamRv) <= 1.0 - c.lamCov }

  /** The greatest scale the caps allow. */
  function Cap(c: Config): real { Min(c.sMax, c.grossMax) }

  // ---------------------------------------------- both legs as two numbers

  function ExAnteVar(c: Config, rows: seq<Vector>, t: nat): real
    requires Inputs(c) && t <= |rows|
  {
    BookVariance(c, Before(c, rows, t).cov)
  }

  function RealizedVar(c: Config, rows: seq<Vector>, t: nat): real
    requires Inputs(c) && t <= |rows|
  {
    Before(c, rows, t).realizedVar
  }

  function Times(x: real, y: real): real { x * y }

  lemma Settings(c: Config)
    requires LeveredRun(c)
    ensures Inputs(c) && c.n >= 1 && c.overlay
    ensures 0.0 < c.lamCov < 1.0 && 0.0 < c.lamRv < 1.0
    ensures 0.0 < Cap(c) && Cap(c) <= c.sMax && Cap(c) <= c.grossMax
  {}

  lemma Levels(c: Config, rows: seq<Vector>, t: nat)
    requires LeveredRun(c) && t <= |rows|
    ensures ExAnteVar(c, rows, t) >= 0.0 && RealizedVar(c, rows, t) >= 0.0
    ensures Selected(c, rows, t) <==> RealizedVar(c, rows, t) > ExAnteVar(c, rows, t)
  {
    ClipsNeverBind(c, rows, t);
    var s := Before(c, rows, t);
    SquareSign(ExAnte(c, s.cov));
    VolsOrder(c, s);
  }

  lemma VolsOrder(c: Config, s: State)
    requires Inputs(c) && s.realizedVar >= 0.0 && BookVariance(c, s.cov) >= 0.0
    ensures RealizedVol(c, s.realizedVar) > ExAnte(c, s.cov) <==> s.realizedVar > BookVariance(c, s.cov)
  {
    RootOrder(c.sqrt, s.realizedVar, BookVariance(c, s.cov));
  }

  lemma Starts(c: Config, rows: seq<Vector>)
    requires LeveredRun(c)
    ensures ExAnteVar(c, rows, 0) == RealizedVar(c, rows, 0) == Initial(c).realizedVar > 0.0
  {
    InitialAgrees(c);
  }

  /** Both legs after a day, from the same unlevered return. */
  lemma LegsMove(c: Config, s: State, x: Vector)
    requires LeveredRun(c) && s.peak >= 1.0
    ensures var d := Unscaled(c, x);
      && BookVariance(c, Day(c, s, x).cov) == VarStep(c.lamCov, BookVariance(c, s.cov), d)
      && Day(c, s, x).realizedVar
      == VarStep(c.lamRv, s.realizedVar, Times(AppliedScale(c, s.cov, s.realizedVar), d))
  {
    assert Recorded(c, s, x) == Times(AppliedScale(c, s.cov, s.realizedVar), Unscaled(c, x));
    hide Day, VarStep, CovStep, Recorded, AppliedScale, Unscaled, BookVariance, Times;
    DayIs(c, s, x);
    CovStepIsVarStep(c, c.lamCov, s.cov, x);
  }

  lemma Moves(c: Config, rows: seq<Vector>, t: nat)
    requires LeveredRun(c) && t < |rows|
    ensures var d := Unscaled(c, rows[t]);
      && ExAnteVar(c, rows, t + 1) == VarStep(c.lamCov, ExAnteVar(c, rows, t), d)
      && RealizedVar(c, rows, t + 1) == VarStep(c.lamRv, RealizedVar(c, rows, t), Times(ScaleOn(c, rows, t), d))
  {
    var s := Before(c, rows, t);
    assert Before(c, rows, t + 1) == Day(c, s, rows[t]);
    assert ScaleOn(c, rows, t) == AppliedScale(c, s.cov, s.realizedVar);
    assert s.peak >= 1.0;
    hide Day, VarStep, AppliedScale, Unscaled, BookVariance, Times, Before, LeveredRun;
    LegsMove(c, s, rows[t]);
  }

  // --------------------------------------------------- while outweighed

  lemma OutweighedStep(c: Config, v: real, q: real, k: real, d: real)
    requires 0.0 < c.lamRv <= c.lamCov < 1.0 && 0.0 <= v <= q && Outweighed(c, k)
    ensures VarStep(c.lamRv, v, Times(k, d)) <= VarStep(c.lamCov, q, d)
  {
    var lr, lc := c.lamRv, c.lamCov;
    var day, load := Square(d) * TRADING_DAYS, Square(k) * (1.0 - lr);
    SquareSign(d);
    Scaled(lr, v, q, lr * v, lr * q);
    Scaled(q, lr, lc, q * lr, q * lc);
    Scaled(day, load, 1.0 - lc, day * load, day * (1.0 - lc));
    LoadedSquare(k, d, lr);
  }

  lemma LoadedSquare(k: real, d: real, lr: real)
    ensures (1.0 - lr) * (Square(Times(k, d)) * TRADING_DAYS) == Square(d) * TRADING_DAYS * (Square(k) * (1.0 - lr))
  {
    assert Square(k * d) == Square(k) * Square(d);
  }

  /** With a covariance leg no faster than the realized one, the realized leg stays below the
      ex-ante leg for as long as the scales traded are outweighed. */
  lemma {:induction false} SmallerWhileOutweighed(c: Config, rows: seq<Vector>, t: nat)
    requires LeveredRun(c) && t <= |rows| && c.lamRv <= c.lamCov
    requires forall d: nat | d < t :: Outweighed(c, ScaleOn(c, rows, d))
    ensures 0.0 <= RealizedVar(c, rows, t) <= ExAnteVar(c, rows, t)
    ensures !Selected(c, rows, t)
  {
    hide *;
    Settings(c);
    Levels(c, rows, t);
    if t == 0 {
      Starts(c, rows);
    } else {
      SmallerWhileOutweighed(c, rows, t - 1);
      Moves(c, rows, t - 1);
      OutweighedStep(c, RealizedVar(c, rows, t - 1), ExAnteVar(c, rows, t - 1),
        ScaleOn(c, rows, t - 1), Unscaled(c, rows[t - 1]));
    }
  }

  lemma ScaleWithinCap(c: Config, rows: seq<Vector>, t: nat)
    requires LeveredRun(c) && t <= |rows|
    ensures 0.0 < ScaleOn(c, rows, t) <= Cap(c)
  {
    CapsHold(c, rows, t);
  }

  lemma OutweighedBelow(c: Config, k: real, cap: real)
    requires 0.0 < c.lamRv < 1.0 && 0.0 < k <= cap && Outweighed(c, cap)
    ensures Outweighed(c, k)
  {
    var rest := 1.0 - c.lamRv;
    SquareOrder(k, cap);
    Scaled(rest, Square(k), Square(cap), rest * Square(k), rest * Square(cap));
  }

  // ------------------------------------------------------- quiet days

  function Quiet(n: nat): (rows: seq<Vector>)
    ensures |rows| == n
  {
    if n == 0 then [] else Quiet(n - 1) + [Correlation.Every(0.0)]
  }

  lemma {:induction false} QuietIs(n: nat)
    ensures forall d: nat | d < n :: Quiet(n)[d] == Correlation.Every(0.0)
  {
    if n > 0 { QuietIs(n - 1); }
  }

  lemma QuietStep(lam: real, v: real, k: real, p: real, next: real, q: real)
    requires v == Times(p, q) && next == lam * p
    ensures VarStep(lam, v, Times(k, 0.0)) == Times(next, q)
    ensures VarStep(lam, v, 0.0) == Times(next, q)
  {
    assert Square(0.0) == 0.0;
    assert lam * (p * q) == lam * p * q;
  }

  lemma PowZeroTimes(b: real, q: real)
    ensures Times(Pow(b, 0), q) == q
  {}

  /** Days without a return decay both legs, each at its own rate. */
  lemma {:induction false} QuietDays(c: Config, rows: seq<Vector>, t: nat)
    requires LeveredRun(c) && t <= |rows|
    requires forall d: nat | d < t :: rows[d] == Correlation.Every(0.0)
    ensures ExAnteVar(c, rows, t) == Times(Pow(c.lamCov, t), Initial(c).realizedVar)
    ensures RealizedVar(c, rows, t) == Times(Pow(c.lamRv, t), Initial(c).realizedVar)
  {
    hide *;
    Settings(c);
    var q := Initial(c).realizedVar;
    if t == 0 {
      Starts(c, rows);
      PowZeroTimes(c.lamCov, q);
      PowZeroTimes(c.lamRv, q);
    } else {
      QuietDays(c, rows, t - 1);
      Moves(c, rows, t - 1);
      EqualReturns(c, 0.0);
      PowStep(c.lamCov, t - 1);
      PowStep(c.lamRv, t - 1);
      QuietStep(c.lamCov, ExAnteVar(c, rows, t - 1), 1.0, Pow(c.lamCov, t - 1), Pow(c.lamCov, t), q);
      QuietStep(c.lamRv, RealizedVar(c, rows, t - 1), ScaleOn(c, rows, t - 1), Pow(c.lamRv, t - 1), Pow(c.lamRv, t), q);
    }
  }

  lemma TimesOrder(q: real, x: real, y: real)
    requires q > 0.0
    ensures x < y ==> Times(x, q) < Times(y, q)
    ensures x <= y ==> Times(x, q) <= Times(y, q)
    ensures x > 0.0 ==> Times(x, q) > 0.0
  {
    if x < y { StrictlyScaled(q, x, y, q * x, q * y); }
    if x > 0.0 { Positive(x, q, x * q); }
  }

  /** A faster covariance leg is overtaken by one day without a return. */
  lemma QuietDaySelects(c: Config)
    requires LeveredRun(c) && c.lamRv > c.lamCov
    ensures Selected(c, Quiet(1), 1)
  {
    assert Pow(c.lamCov, 1) == c.lamCov * Pow(c.lamCov, 0) && Pow(c.lamCov, 0) == 1.0;
    assert Pow(c.lamRv, 1) == c.lamRv * Pow(c.lamRv, 0) && Pow(c.lamRv, 0) == 1.0;
    hide *;
    Settings(c);
    Starts(c, Quiet(1));
    QuietIs(1);
    QuietDays(c, Quiet(1), 1);
    Levels(c, Quiet(1), 1);
    TimesOrder(Initial(c).realizedVar, c.lamCov, c.lamRv);
  }

  /** Some power of a base below one brings any amount under any positive bound. */
  lemma PowerBelow(b: real, amount: real, bound: real) returns (n: nat)
    requires 0.0 < b < 1.0 && amount > 0.0 && bound > 0.0
    ensures Pow(b, n) * amount <= bound
  {
    var total := amount + 2.0 * bound;
    var alpha := bound / total;
    PositiveQuotient(bound, total);
    Quotient(bound, total, alpha);
    ShareBelow(alpha, total, bound);
    n := Exponent(1.0 - b, alpha);
    PowerFallsBelow(n, alpha, 1.0 - b, b);
    PowRange(b, n);
    hide *;
    Scaled(amount, Pow(b, n), alpha, amount * Pow(b, n), amount * alpha);
    NonNegative(alpha, bound, alpha * bound);
    assert alpha * total == alpha * amount + 2.0 * (alpha * bound);
  }

  lemma ShareBelow(alpha: real, total: real, bound: real)
    requires total > 0.0 && alpha > 0.0 && bound > 0.0 && bound == alpha * total && total > 2.0 * bound
    ensures alpha < 1.0
  {
    if alpha >= 1.0 { Scaled(total, 1.0, alpha, total, total * alpha); }
  }

  /** Where the target leaves room for the cap, the cap is what is traded. */
  lemma CapTraded(c: Config, k: real, sigma: real)
    requires Capped(c, k, sigma) && sigma > 0.0 && c.sMax > 0.0 && c.grossMax > 0.0
    requires Times(Cap(c), sigma) <= VOL_TARGET
    ensures k == Cap(c)
  {
    var cap := Cap(c);
    if k < cap { StrictlyScaled(sigma, k, cap, sigma * k, sigma * cap); }
  }

  lemma RootTimes(sigma: real, q: real, cap: real)
    requires sigma > 0.0 && Square(sigma) == q && cap > 0.0 && LeavesRoom(q, cap)
    ensures Times(cap, sigma) <= VOL_TARGET
  {
    var p := cap * sigma;
    Positive(cap, sigma, p);
    assert Square(p) == q * Square(cap) by { assert Square(p) == Square(cap) * Square(sigma); }
    SquareOrder(p, VOL_TARGET);
  }

  /** The larger leg, when that is the ex-ante one, as a volatility whose square is its variance. */
  lemma SizedOn(c: Config, rows: seq<Vector>, t: nat) returns (sigma: real)
    requires LeveredRun(c) && t <= |rows| && RealizedVar(c, rows, t) <= ExAnteVar(c, rows, t)
    ensures sigma >= 0.0 && Square(sigma) == ExAnteVar(c, rows, t)
    ensures Capped(c, ScaleOn(c, rows, t), sigma)
  {
    var s := Before(c, rows, t);
    sigma := ExAnte(c, s.cov);
    assert sigma >= 0.0;
    ClipsNeverBind(c, rows, t);
    CapsHold(c, rows, t);
    Levels(c, rows, t);
    assert !(RealizedVol(c, s.realizedVar) > sigma);
    hide Capped, ExAnte, RealizedVol, ScaleOn, Before;
    MaxOfOrdered(sigma, RealizedVol(c, s.realizedVar));
  }

  /** Small enough for the target to leave room for the cap. */
  predicate LeavesRoom(q: real, cap: real) { q * Square(cap) <= Square(VOL_TARGET) }

  lemma CapReached(c: Config, rows: seq<Vector>, t: nat)
    requires LeveredRun(c) && t <= |rows|
    requires RealizedVar(c, rows, t) <= ExAnteVar(c, rows, t) && 0.0 < ExAnteVar(c, rows, t)
    requires LeavesRoom(ExAnteVar(c, rows, t), Cap(c))
    ensures ScaleOn(c, rows, t) == Cap(c)
  {
    hide *;
    Settings(c);
    var sigma := SizedOn(c, rows, t);
    RootPositiveIs(sigma, ExAnteVar(c, rows, t));
    RootTimes(sigma, ExAnteVar(c, rows, t), Cap(c));
    CapTraded(c, ScaleOn(c, rows, t), sigma);
  }

  lemma RoomAfter(lam: real, q: real, cap: real) returns (n: nat)
    requires 0.0 < lam < 1.0 && q > 0.0 && cap > 0.0
    ensures LeavesRoom(Times(Pow(lam, n), q), cap)
  {
    var amount := q * Square(cap);
    SquareSign(cap);
    Positive(q, Square(cap), amount);
    assert Square(VOL_TARGET) > 0.0;
    n := PowerBelow(lam, amount, Square(VOL_TARGET));
    hide Pow, Square;
    assert Pow(lam, n) * q * Square(cap) == Pow(lam, n) * amount;
  }

  /** After enough quiet days the book trades at its cap, with a positive ex-ante variance. */
  lemma QuietReachesCap(c: Config) returns (n: nat)
    requires LeveredRun(c) && c.lamRv <= c.lamCov
    ensures ExAnteVar(c, Quiet(n), n) > 0.0 && ScaleOn(c, Quiet(n), n) == Cap(c)
  {
    hide *;
    Settings(c);
    Starts(c, []);
    var q := Initial(c).realizedVar;
    n := RoomAfter(c.lamCov, q, Cap(c));
    QuietIs(n);
    QuietDays(c, Quiet(n), n);
    PowRange(c.lamCov, n);
    PowMonotone(c.lamRv, c.lamCov, n);
    TimesOrder(q, Pow(c.lamRv, n), Pow(c.lamCov, n));
    TimesOrder(q, Pow(c.lamCov, n), Pow(c.lamCov, n));
    CapReached(c, Quiet(n), n);
  }

  lemma MaxOfOrdered(a: real, b: real)
    requires !(b > a)
    ensures Max(a, b) == a
  {}

  lemma RootPositiveIs(sigma: real, q: real)
    requires sigma >= 0.0 && Square(sigma) == q && q > 0.0
    ensures sigma > 0.0
  {
    SquareSign(sigma);
  }

  lemma VarStepIs(lam: real, v: real, a: real)
    ensures VarStep(lam, v, a) == lam * v + (1.0 - lam) * (Square(a) * TRADING_DAYS)
  {}

  /** A return large enough to overtake, when the scale k is not outweighed. */
  lemma LargeReturn(c: Config, v: real, q: real, k: real) returns (d: real)
    requires 0.0 < c.lamRv < 1.0 && 0.0 < c.lamCov < 1.0 && v >= 0.0 && q > 0.0
    requires !Outweighed(c, k)
    ensures VarStep(c.lamRv, v, Times(k, d)) > VarStep(c.lamCov, q, d)
  {
    var gap := Square(k) * (1.0 - c.lamRv) - (1.0 - c.lamCov);
    var held := c.lamCov * q;
    Positive(c.lamCov, q, held);
    var r := held / gap;
    PositiveQuotient(held, gap);
    Quotient(held, gap, r);
    d := 1.0 + r;
    assert gap == Square(k) * (1.0 - c.lamRv) - (1.0 - c.lamCov);
    hide *;
    LargeEnough(c.lamRv, c.lamCov, v, q, k, d, gap, r);
  }

  lemma LargeEnough(lr: real, lc: real, v: real, q: real, k: real, d: real, gap: real, r: real)
    requires 0.0 < lr < 1.0 && v >= 0.0 && gap > 0.0 && r > 0.0 && d == 1.0 + r
    requires gap == Square(k) * (1.0 - lr) - (1.0 - lc) && lc * q == r * gap
    ensures VarStep(lr, v, Times(k, d)) > VarStep(lc, q, d)
  {
    var day, load := Square(d) * TRADING_DAYS, Square(k) * (1.0 - lr);
    BeyondOne(d);
    assert day > d && gap == load - (1.0 - lc);
    hide *;
    Overtakes(gap, r, lc * q, d, day, load, lc);
    SteppedAbove(lr, lc, v, q, k, d);
  }

  /** The day's new variance, as it enters the two legs. */
  lemma SteppedAbove(lr: real, lc: real, v: real, q: real, k: real, d: real)
    requires lr > 0.0 && v >= 0.0
    requires Square(d) * TRADING_DAYS * (Square(k) * (1.0 - lr))
           > lc * q + (1.0 - lc) * (Square(d) * TRADING_DAYS)
    ensures VarStep(lr, v, Times(k, d)) > VarStep(lc, q, d)
  {
    hide *;
    VarStepIs(lr, v, Times(k, d));
    VarStepIs(lc, q, d);
    LoadedSquare(k, d, lr);
    NonNegative(lr, v, lr * v);
  }

  lemma BeyondOne(d: real)
    requires d > 1.0
    ensures Square(d) > d
  {
    StrictlyScaled(d, 1.0, d, d, d * d);
  }

  lemma Overtakes(gap: real, r: real, held: real, d: real, day: real, load: real, lc: real)
    requires gap > 0.0 && gap == load - (1.0 - lc) && r > 0.0 && held == r * gap && d == 1.0 + r && day > d
    ensures day * load > held + (1.0 - lc) * day
  {
    StrictlyScaled(gap, r, day, gap * r, gap * day);
    assert day * load == gap * day + (1.0 - lc) * day;
  }

  /** A scale cap that is not outweighed is reached on quiet days, and one large return then makes
      the realized leg the larger one. */
  lemma LargeReturnSelects(c: Config) returns (rows: seq<Vector>, t: nat)
    requires LeveredRun(c) && c.lamRv <= c.lamCov && !Outweighed(c, Cap(c))
    ensures Selected(c, rows, t)
  {
    hide *;
    Settings(c);
    var n := QuietReachesCap(c);
    Levels(c, Quiet(n), n);
    var d := LargeReturn(c, RealizedVar(c, Quiet(n), n), ExAnteVar(c, Quiet(n), n), Cap(c));
    rows, t := Quiet(n) + [Correlation.Every(d)], n + 1;
    SamePast(c, Quiet(n), rows, n);
    DaySelects(c, rows, n, d);
  }

  lemma SamePast(c: Config, rows: seq<Vector>, others: seq<Vector>, t: nat)
    requires LeveredRun(c) && t <= |rows| && t <= |others| && forall d | 0 <= d < t :: rows[d] == others[d]
    ensures ExAnteVar(c, rows, t) == ExAnteVar(c, others, t) && RealizedVar(c, rows, t) == RealizedVar(c, others, t)
    ensures ScaleOn(c, rows, t) == ScaleOn(c, others, t)
  {
    NonAnticipating(c, rows, others, t);
  }

  lemma DaySelects(c: Config, rows: seq<Vector>, n: nat, d: real)
    requires LeveredRun(c) && n < |rows| && rows[n] == Correlation.Every(d)
    requires VarStep(c.lamRv, RealizedVar(c, rows, n), Times(ScaleOn(c, rows, n), d))
           > VarStep(c.lamCov, ExAnteVar(c, rows, n), d)
    ensures Selected(c, rows, n + 1)
  {
    hide *;
    Settings(c);
    Moves(c, rows, n);
    EqualReturns(c, d);
    Levels(c, rows, n + 1);
  }

  // ------------------------------------------------------------- exactly

  /** Over all runs the levered leg is never selected exactly when the realized leg is no slower than
      the ex-ante leg and the greatest scale the caps allow is outweighed. */
  lemma NeverSelectedExactly(c: Config)
    requires LeveredRun(c)
    ensures (forall rows: seq<Vector>, t: nat :: !Selected(c, rows, t))
       <==> c.lamRv <= c.lamCov && Outweighed(c, Cap(c))
  {
    if c.lamRv > c.lamCov {
      QuietDaySelects(c);
    } else if !Outweighed(c, Cap(c)) {
      var rows, t := LargeReturnSelects(c);
      assert Selected(c, rows, t);
    } else {
      forall rows: seq<Vector>, t: nat ensures !Selected(c, rows, t) {
        if t <= |rows| {
          forall d: nat | d < t ensures Outweighed(c, ScaleOn(c, rows, d)) {
            ScaleWithinCap(c, rows, d);
            OutweighedBelow(c, ScaleOn(c, rows, d), Cap(c));
          }
          SmallerWhileOutweighed(c, rows, t);
        }
      }
    }
  }

  // ------------------------------------------------ the shipped halflives

  /** A realized halflife of h bars and an ex-ante one of three times as many, as 240 and 720 are. */
  ghost predicate ThriceTheHalflife(c: Config, h: nat) {
    h > 0 && Pow(c.lamRv, h) == 0.5 == Pow(c.lamCov, 3 * h)
  }

  lemma {:induction false} CubePow(b: real, h: nat)
    ensures Pow(b * b * b, h) == Pow(b, 3 * h)
  {
    if h > 0 {
      CubePow(b, h - 1);
      PowStep(b, 3 * h - 3);
      PowStep(b, 3 * h - 2);
      PowStep(b, 3 * h - 1);
      PowStep(b * b * b, h - 1);
      hide *;
      var p := Pow(b, 3 * h - 3);
      assert 3 * (h - 1) == 3 * h - 3;
      assert b * b * b * p == b * (b * (b * p));
    }
  }

  lemma PowInjective(b: real, c: real, h: nat)
    requires 0.0 < b < 1.0 && 0.0 < c < 1.0 && h > 0 && Pow(b, h) == Pow(c, h)
    ensures b == c
  {
    if b < c {
      PowStrictlyMonotone(b, c, h);
    } else if c < b {
      PowStrictlyMonotone(c, b, h);
    }
  }

  lemma DecayIsCube(c: Config, h: nat)
    requires LeveredRun(c) && ThriceTheHalflife(c, h)
    ensures 0.0 < c.lamCov < 1.0 && c.lamRv == c.lamCov * c.lamCov * c.lamCov < c.lamCov
  {
    var l := c.lamCov;
    hide Pow;
    Positive(l, l, l * l);
    StrictlyScaled(l, l, 1.0, l * l, l);
    StrictlyScaled(l, l * l, l, l * l * l, l * l);
    Positive(l * l, l, l * l * l);
    CubePow(l, h);
    PowInjective(c.lamRv, l * l * l, h);
  }

  /** At the shipped halflives a scale is outweighed exactly up to a bound that is just above
      1 / sqrt(3). */
  lemma OutweighedAtThrice(c: Config, h: nat, k: real)
    requires LeveredRun(c) && ThriceTheHalflife(c, h)
    ensures Outweighed(c, k) <==> Square(k) * (1.0 + c.lamCov + c.lamCov * c.lamCov) <= 1.0
  {
    DecayIsCube(c, h);
    hide Pow, Square;
    CubeGap(c.lamCov, Square(k), Square(k) * (1.0 + c.lamCov + c.lamCov * c.lamCov));
  }

  lemma CubeGap(l: real, s: real, x: real)
    requires 0.0 < l < 1.0 && x == s * (1.0 + l + l * l)
    ensures s * (1.0 - l * l * l) <= 1.0 - l <==> x <= 1.0
  {
    assert s * (1.0 - l * l * l) == x * (1.0 - l);
    if x <= 1.0 {
      Scaled(1.0 - l, x, 1.0, (1.0 - l) * x, 1.0 - l);
    } else {
      StrictlyScaled(1.0 - l, 1.0, x, 1.0 - l, (1.0 - l) * x);
    }
  }

  /** So with caps of one or more, as every levered run of the study has, some run selects it. */
  lemma ShippedLegFires(c: Config, h: nat) returns (rows: seq<Vector>, t: nat)
    requires LeveredRun(c) && ThriceTheHalflife(c, h) && c.sMax >= 1.0 && c.grossMax >= 1.0
    ensures Selected(c, rows, t)
  {
    var cap := Cap(c);
    DecayIsCube(c, h);
    OutweighedAtThrice(c, h, cap);
    assert cap >= 1.0;
    hide *;
    AboveOne(cap, c.lamCov);
    rows, t := LargeReturnSelects(c);
  }

  lemma AboveOne(k: real, l: real)
    requires k >= 1.0 && l > 0.0
    ensures Square(k) * (1.0 + l + l * l) > 1.0
  {
    var factor := 1.0 + l + l * l;
    Positive(l, l, l * l);
    SquareOrder(1.0, k);
    Scaled(factor, 1.0, Square(k), factor, factor * Square(k));
  }

  // ------------------------------------------- a run below scale one

  /** The study's sleeves, a slow covariance leg, a fast realized leg and unit caps. */
  function SlowCovariance(sqrt: real -> real): Config {
    Config(sqrt, SLEEVES, 0.0, 0.999, 0.5, 1.0, 1.0, true, Levered)
  }

  /** One unit return traded well below scale one, and max() selects the levered leg. */
  lemma FiresBelowScaleOne(sqrt: real -> real)
    requires IsSqrt(sqrt)
    ensures var c, rows := SlowCovariance(sqrt), [Correlation.Every(1.0)];
      && LeveredRun(c)
      && ScaleOn(c, rows, 0) < 0.5
      && Selected(c, rows, 1)
  {
    var c, rows := SlowCovariance(sqrt), [Correlation.Every(1.0)];
    assert Frontier.Crowding(14, 0.0) == 1.0;
    InitialAgrees(c);
    assert LeveredRun(c);
    Starts(c, rows);
    assert Initial(c).realizedVar == 1.0 / 14.0;
    var sigma := SizedOn(c, rows, 0);
    var k := ScaleOn(c, rows, 0);
    assert 0.0 < k <= 1.0 && k * sigma <= 0.1 && (k == 1.0 || k * sigma == 0.1);
    assert c.lamRv == 0.5 && c.lamCov == 0.999;
    hide *;
    UnitDay(k, sigma, 1.0 / 14.0);
    DaySelects(c, rows, 0, 1.0);
  }

  lemma UnitDay(k: real, sigma: real, q: real)
    requires sigma >= 0.0 && Square(sigma) == q == 1.0 / 14.0
    requires 0.0 < k <= 1.0 && k * sigma <= 0.1 && (k == 1.0 || k * sigma == 0.1)
    ensures k < 0.5
    ensures VarStep(0.5, q, Times(k, 1.0)) > VarStep(0.999, q, 1.0)
  {
    if k == 1.0 { SquareOrder(sigma, 0.1); }
    assert Square(k) * q == 0.01 by { assert Square(k) * Square(sigma) == (k * sigma) * (k * sigma); }
    assert Square(k) == 0.14;
    if k >= 0.5 { SquareOrder(0.5, k); }
    VarStepIs(0.5, q, k);
    VarStepIs(0.999, q, 1.0);
  }
}
