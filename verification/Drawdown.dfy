/** Maximum drawdown: the vectorised form, whose peak excludes the current day, and the running
    loop, whose peak includes it. */
module Drawdown {
  import opened Reals

  /** Wealth after j returns, starting from one. */
  function Wealth(r: seq<real>, j: nat): real
    requires j <= |r|
  {
    if j == 0 then 1.0 else Compound(Wealth(r, j - 1), r[j - 1])
  }

  function Compound(wealth: real, x: real): real { wealth * (1.0 + x) }

  /** The greatest wealth up to and including time j. */
  function Peak(r: seq<real>, j: nat): (p: real)
    requires j <= |r|
    ensures p >= 1.0
  {
    if j == 0 then 1.0 else Max(Peak(r, j - 1), Wealth(r, j))
  }

  lemma {:induction false} PeakIsGreatest(r: seq<real>, j: nat)
    requires j <= |r|
    ensures forall i: nat | i <= j :: Wealth(r, i) <= Peak(r, j)
    ensures exists i: nat | i <= j :: Wealth(r, i) == Peak(r, j)
  {
    assert Wealth(r, 0) == Peak(r, 0);
    if j > 0 {
      PeakIsGreatest(r, j - 1);
      hide Wealth;
      var i: nat :| i <= j - 1 && Wealth(r, i) == Peak(r, j - 1);
      if Peak(r, j) == Wealth(r, j) {
        assert Wealth(r, j) == Peak(r, j);
      } else {
        assert Wealth(r, i) == Peak(r, j);
      }
    }
  }

  function Fall(wealth: real, peak: real): real
    requires peak >= 1.0
  {
    1.0 - wealth / peak
  }

  /** The running maximum of falls from the peak of the same day, never below zero. */
  function LoopDrawdown(r: seq<real>, j: nat): real
    requires j <= |r|
  {
    if j == 0 then 0.0 else Max(LoopDrawdown(r, j - 1), Fall(Wealth(r, j), Peak(r, j)))
  }

  /** The maximum of falls from the peak of the day before. */
  function VectorDrawdown(r: seq<real>, j: nat): real
    requires 1 <= j <= |r|
  {
    var fall := Fall(Wealth(r, j), Peak(r, j - 1));
    if j == 1 then fall else Max(VectorDrawdown(r, j - 1), fall)
  }

  /** The day loop, updating equity, peak and maximum drawdown. */
  method RunningDrawdown(r: seq<real>) returns (maxDd: real)
    ensures maxDd == LoopDrawdown(r, |r|)
  {
    hide Compound, Fall;
    var equity, peak := 1.0, 1.0;
    maxDd := 0.0;
    for t := 0 to |r|
      invariant equity == Wealth(r, t) && peak == Peak(r, t) && maxDd == LoopDrawdown(r, t)
    {
      equity := Compound(equity, r[t]);
      peak := Max(peak, equity);
      maxDd := Max(maxDd, Fall(equity, peak));
    }
  }

  /** The array form: cumulative product, running maximum shifted by one day, largest fall. */
  method MaxDrawdown(r: seq<real>) returns (maxDd: real)
    requires |r| > 0
    ensures maxDd == VectorDrawdown(r, |r|)
  {
    var wealth := CumulativeProduct(r);
    var peaks := ShiftedPeaks(r, wealth);
    hide Compound, Fall, Wealth, Peak;
    maxDd := Fall(wealth[0], peaks[0]);
    for t := 1 to |r|
      invariant maxDd == VectorDrawdown(r, t)
    {
      maxDd := Max(maxDd, Fall(wealth[t], peaks[t]));
    }
  }

  method CumulativeProduct(r: seq<real>) returns (wealth: array<real>)
    requires |r| > 0
    ensures wealth.Length == |r| && forall i | 0 <= i < |r| :: wealth[i] == Wealth(r, i + 1)
  {
    hide Compound;
    wealth := new real[|r|];
    wealth[0] := Compound(1.0, r[0]);
    assert Wealth(r, 1) == Compound(Wealth(r, 0), r[0]);
    for t := 1 to |r|
      invariant forall i | 0 <= i < t :: wealth[i] == Wealth(r, i + 1)
    {
      wealth[t] := Compound(wealth[t - 1], r[t]);
    }
  }

  /** The running maximum of one and the wealth, without its last entry. */
  method ShiftedPeaks(r: seq<real>, wealth: array<real>) returns (peaks: array<real>)
    requires |r| > 0 && wealth.Length == |r| && forall i | 0 <= i < |r| :: wealth[i] == Wealth(r, i + 1)
    ensures fresh(peaks) && peaks.Length == |r| && forall i | 0 <= i < |r| :: peaks[i] == Peak(r, i)
  {
    hide Compound, Wealth;
    peaks := new real[|r|];
    peaks[0] := 1.0;
    for t := 1 to |r|
      invariant forall i | 0 <= i < t :: peaks[i] == Peak(r, i)
    {
      peaks[t] := Max(peaks[t - 1], wealth[t - 1]);
    }
  }

  lemma FallSign(w: real, p: real)
    requires p >= 1.0
    ensures w >= p ==> Fall(w, p) <= 0.0
    ensures w == p ==> Fall(w, p) == 0.0
    ensures w <= p ==> Fall(w, p) >= 0.0
  {
    var q := w / p;
    Quotient(w, p, q);
    if q < 1.0 { StrictlyScaled(p, q, 1.0, p * q, p); }
    if q > 1.0 { StrictlyScaled(p, 1.0, q, p, p * q); }
  }

  /** For every return path, floored at zero the array form is the loop. */
  lemma {:induction false} FormsAgree(r: seq<real>, j: nat)
    requires 1 <= j <= |r|
    ensures Max(0.0, VectorDrawdown(r, j)) == LoopDrawdown(r, j)
  {
    var w, before, p := Wealth(r, j), Peak(r, j - 1), Peak(r, j);
    assert p == Max(before, w);
    FallSign(w, before);
    FallSign(w, p);
    if j == 1 {
      assert LoopDrawdown(r, 0) == 0.0;
    } else {
      FormsAgree(r, j - 1);
    }
    hide Wealth, Peak, Fall;
  }

  lemma {:induction false} WealthPositive(r: seq<real>, j: nat)
    requires j <= |r| && forall x | x in r :: x > -1.0
    ensures Wealth(r, j) > 0.0
  {
    if j > 0 {
      WealthPositive(r, j - 1);
      assert r[j - 1] in r;
      Positive(Wealth(r, j - 1), 1.0 + r[j - 1], Wealth(r, j));
    }
  }

  lemma FallGrowsWithPeak(w: real, x: real, p: real)
    requires w > 0.0 && 0.0 < x <= p && p >= 1.0
    ensures 1.0 - w / x <= Fall(w, p)
  {
    var a, b := w / x, w / p;
    Quotient(w, x, a);
    Quotient(w, p, b);
    if b <= 0.0 { NonNegative(p, -b, p * -b); }
    Scaled(b, x, p, b * x, b * p);
    if a < b { StrictlyScaled(x, a, b, x * a, x * b); }
  }

  /** The fall from time i to time j. */
  function PairFall(r: seq<real>, i: nat, j: nat): real
    requires i <= j <= |r| && (forall x | x in r :: x > -1.0)
  {
    WealthPositive(r, i);
    1.0 - Wealth(r, j) / Wealth(r, i)
  }

  /** For returns above -100% the loop computes the maximum drawdown: no later wealth is further
      below an earlier one, and some pair attains it. */
  lemma {:induction false} LoopIsMaximum(r: seq<real>, n: nat)
    requires n <= |r| && (forall x | x in r :: x > -1.0)
    ensures forall i: nat, j: nat | i <= j <= n :: PairFall(r, i, j) <= LoopDrawdown(r, n)
    ensures exists i: nat, j: nat | i <= j <= n :: PairFall(r, i, j) == LoopDrawdown(r, n)
  {
    hide Wealth, Fall;
    forall i: nat, j: nat | i <= j <= n ensures PairFall(r, i, j) <= LoopDrawdown(r, n) {
      WealthPositive(r, i);
      WealthPositive(r, j);
      PeakIsGreatest(r, j);
      FallGrowsWithPeak(Wealth(r, j), Wealth(r, i), Peak(r, j));
      FallsBelowLoop(r, j, n);
      NoNegativeLoop(r, n);
      PairIs(r, i, j);
    }
    Attained(r, n);
  }

  lemma PairIs(r: seq<real>, i: nat, j: nat)
    requires i <= j <= |r| && (forall x | x in r :: x > -1.0)
    ensures Wealth(r, i) > 0.0 && PairFall(r, i, j) == 1.0 - Wealth(r, j) / Wealth(r, i)
  {
    WealthPositive(r, i);
  }

  lemma {:induction false} NoNegativeLoop(r: seq<real>, n: nat)
    requires n <= |r|
    ensures LoopDrawdown(r, n) >= 0.0
  {
    if n > 0 { NoNegativeLoop(r, n - 1); }
  }

  lemma {:induction false} FallsBelowLoop(r: seq<real>, j: nat, n: nat)
    requires j <= n <= |r|
    ensures Fall(Wealth(r, j), Peak(r, j)) <= LoopDrawdown(r, n)
  {
    hide Wealth, Fall;
    if j < n {
      FallsBelowLoop(r, j, n - 1);
    } else if n == 0 {
      StartFall(r);
    }
  }

  lemma StartFall(r: seq<real>)
    ensures Fall(Wealth(r, 0), Peak(r, 0)) == 0.0
  {}

  lemma {:induction false} Attained(r: seq<real>, n: nat)
    requires n <= |r| && (forall x | x in r :: x > -1.0)
    ensures exists i: nat, j: nat | i <= j <= n :: PairFall(r, i, j) == LoopDrawdown(r, n)
  {
    if n == 0 {
      assert PairFall(r, 0, 0) == 0.0;
    } else {
      Attained(r, n - 1);
      if LoopDrawdown(r, n) == LoopDrawdown(r, n - 1) {
        var i: nat, j: nat :| i <= j <= n - 1 && PairFall(r, i, j) == LoopDrawdown(r, n - 1);
        assert PairFall(r, i, j) == LoopDrawdown(r, n);
      } else {
        PeakIsGreatest(r, n);
        var i: nat :| i <= n && Wealth(r, i) == Peak(r, n);
        PairIs(r, i, n);
        assert PairFall(r, i, n) == LoopDrawdown(r, n);
      }
    }
  }
}
