/** Exponential smoothing: what the one-line recursion of an estimator adds up to. */
module Smoothing {
  import opened Reals

  /** The start faded over t steps, plus every observation faded since it was made. */
  function Faded(lam: real, start: real, y: Vector, t: nat): real {
    Pow(lam, t) * start + SumTo(t, (d: int) => Share(lam, t, d) * y(d))
  }

  /** The weight that observation d has after t steps. */
  function Share(lam: real, t: nat, d: int): real {
    if 0 <= d < t then (1.0 - lam) * Pow(lam, t - 1 - d) else 0.0
  }

  function Recent(lam: real, y: Vector, t: nat): real { SumTo(t, (d: int) => Share(lam, t, d) * y(d)) }

  lemma ShareFades(lam: real, t: nat, d: int)
    requires 0 <= d < t
    ensures Share(lam, t + 1, d) == lam * Share(lam, t, d)
  {
    PowStep(lam, t - 1 - d);
    var p := Pow(lam, t - 1 - d);
    assert Pow(lam, t - d) == lam * p;
    hide Pow;
    assert (1.0 - lam) * (lam * p) == lam * ((1.0 - lam) * p);
  }

  lemma ShareOfNewest(lam: real, t: nat)
    ensures Share(lam, t + 1, t) == 1.0 - lam
  {
    assert Pow(lam, 0) == 1.0;
  }

  lemma RecentStep(lam: real, y: Vector, t: nat)
    ensures Recent(lam, y, t + 1) == lam * Recent(lam, y, t) + (1.0 - lam) * y(t)
  {
    var f: Vector := (d: int) => Share(lam, t, d) * y(d);
    var g: Vector := (d: int) => Share(lam, t + 1, d) * y(d);
    forall d | 0 <= d < t ensures g(d) == lam * f(d) {
      ShareFades(lam, t, d);
      Rescaled(Share(lam, t + 1, d), lam, Share(lam, t, d), y(d));
    }
    SumScale(t, lam, f, g);
    SumSplit(t + 1, g);
    ShareOfNewest(lam, t);
    hide Share, SumTo;
  }

  lemma Rescaled(x: real, a: real, b: real, c: real)
    requires x == a * b
    ensures x * c == a * (b * c)
  {}

  lemma Regrouped(a: real, b: real, c: real)
    ensures a * b * c == a * (b * c)
  {}

  lemma FadedStart(lam: real, start: real, y: Vector)
    ensures Faded(lam, start, y, 0) == start
  {}

  /** One step of the recursion. */
  lemma FadedStep(lam: real, start: real, y: Vector, t: nat)
    ensures Faded(lam, start, y, t + 1) == lam * Faded(lam, start, y, t) + (1.0 - lam) * y(t)
  {
    RecentStep(lam, y, t);
    PowStep(lam, t);
    var p, r := Pow(lam, t), Recent(lam, y, t);
    assert Faded(lam, start, y, t) == p * start + r;
    assert Faded(lam, start, y, t + 1) == Pow(lam, t + 1) * start + Recent(lam, y, t + 1);
    hide Pow, Recent, Faded;
    Regrouped(lam, p, start);
    assert lam * (p * start + r) == lam * (p * start) + lam * r;
  }
}
