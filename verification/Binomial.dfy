/** The exact one-sided lower confidence bound of a binomial proportion: the upper tail, its
    bisection, and the least all-success sample that reaches a target. */
module Binomial {
  import opened Outcomes
  import opened Reals

  // --------------------------------------------------------- coefficients

  function Choose(n: nat, k: nat): nat {
    if k == 0 then 1
    else if n == 0 then 0
    else Choose(n - 1, k - 1) + Choose(n - 1, k)
  }

  function Factorial(n: nat): nat { if n == 0 then 1 else n * Factorial(n - 1) }

  lemma {:induction false} ChooseBeyond(n: nat, k: nat)
    requires k > n
    ensures Choose(n, k) == 0
  {
    if n > 0 {
      ChooseBeyond(n - 1, k - 1);
      ChooseBeyond(n - 1, k);
    }
  }

  lemma {:induction false} ChooseAll(n: nat)
    ensures Choose(n, n) == 1
  {
    if n > 0 {
      ChooseAll(n - 1);
      ChooseBeyond(n - 1, n);
    }
  }

  /** The coefficient is n! / (k! (n - k)!). */
  lemma {:induction false} ChooseFactorial(n: nat, k: nat)
    requires k <= n
    ensures Choose(n, k) * Factorial(k) * Factorial(n - k) == Factorial(n)
  {
    if k == 0 {
    } else if k == n {
      ChooseAll(n);
    } else {
      ChooseFactorial(n - 1, k - 1);
      ChooseFactorial(n - 1, k);
      FactorialStep(Choose(n - 1, k - 1), Choose(n - 1, k), k, n - k,
        Factorial(k - 1), Factorial(n - k - 1), Factorial(n - 1));
    }
  }

  lemma FactorialStep(c: nat, d: nat, k: nat, m: nat, fk: nat, fm: nat, f: nat)
    requires c * fk * (m * fm) == f && d * (k * fk) * fm == f
    ensures (c + d) * (k * fk) * (m * fm) == (k + m) * f
  {
    assert c * (k * fk) * (m * fm) == k * (c * fk * (m * fm));
    assert d * (k * fk) * (m * fm) == m * (d * (k * fk) * fm);
    assert (c + d) * (k * fk) * (m * fm) == c * (k * fk) * (m * fm) + d * (k * fk) * (m * fm);
  }

  // ------------------------------------------------------------- the tail

  function Product(c: real, x: real, y: real): real { c * x * y }

  /** The probability of exactly k successes in n trials. */
  function Term(n: nat, k: nat, p: real): real {
    if k > n then 0.0 else Product(Choose(n, k) as real, Pow(p, k), Pow(1.0 - p, n - k))
  }

  /** The probability of at least `successes` successes in `trials` trials. */
  function UpperTail(successes: nat, trials: nat, p: real): real
    decreases trials + 1 - successes
  {
    if successes > trials then 0.0
    else Term(trials, successes, p) + UpperTail(successes + 1, trials, p)
  }

  lemma TermNonNegative(n: nat, k: nat, p: real)
    requires 0.0 <= p <= 1.0
    ensures Term(n, k, p) >= 0.0
  {
    if k <= n {
      PowNonNegative(p, k);
      PowNonNegative(1.0 - p, n - k);
      var x := Choose(n, k) as real * Pow(p, k);
      NonNegative(Choose(n, k) as real, Pow(p, k), x);
      NonNegative(x, Pow(1.0 - p, n - k), x * Pow(1.0 - p, n - k));
    }
  }

  /** a with probability p, b otherwise. */
  function Mix(p: real, a: real, b: real): real { p * a + (1.0 - p) * b }

  lemma PascalArithmetic(
      c: real, d: real, e: real, p: real, x: real, y: real, px: real, qy: real)
    requires e == c + d && px == p * x && qy == (1.0 - p) * y
    ensures Product(e, px, qy) == Mix(p, Product(c, x, qy), Product(d, px, y))
  {
    assert c * px * qy == p * (c * x * qy);
    assert d * px * qy == (1.0 - p) * (d * px * y);
  }

  lemma TermIs(n: nat, k: nat, p: real)
    requires k <= n
    ensures Term(n, k, p) == Product(Choose(n, k) as real, Pow(p, k), Pow(1.0 - p, n - k))
  {}

  lemma TermPascalBelow(n: nat, k: nat, p: real)
    requires k < n
    ensures Term(n + 1, k + 1, p) == Mix(p, Term(n, k, p), Term(n, k + 1, p))
  {
    assert Choose(n + 1, k + 1) as real == Choose(n, k) as real + Choose(n, k + 1) as real;
    hide *;
    TermIs(n + 1, k + 1, p);
    TermIs(n, k, p);
    TermIs(n, k + 1, p);
    PowStep(p, k);
    PowStep(1.0 - p, n - k - 1);
    PascalArithmetic(Choose(n, k) as real, Choose(n, k + 1) as real, Choose(n + 1, k + 1) as real,
      p, Pow(p, k), Pow(1.0 - p, n - k - 1), Pow(p, k + 1), Pow(1.0 - p, n - k));
  }

  lemma TermAll(n: nat, p: real)
    ensures Term(n, n, p) == Pow(p, n)
  {
    ChooseAll(n);
  }

  /** One more trial: the last one succeeds or fails. */
  lemma TermPascal(n: nat, k: nat, p: real)
    requires k <= n
    ensures Term(n + 1, k + 1, p) == Mix(p, Term(n, k, p), Term(n, k + 1, p))
  {
    if k < n {
      TermPascalBelow(n, k, p);
    } else {
      TermAll(n, p);
      TermAll(n + 1, p);
      PowStep(p, n);
      assert Term(n, k + 1, p) == 0.0;
    }
    hide Term, Pow;
  }

  /** Pascal's rule for the tail. */
  lemma {:induction false} TailPascal(s: nat, n: nat, p: real)
    ensures UpperTail(s + 1, n + 1, p) == Mix(p, UpperTail(s, n, p), UpperTail(s + 1, n, p))
    decreases n + 1 - s
  {
    if s <= n {
      TailPascal(s + 1, n, p);
      TermPascal(n, s, p);
      hide Term, Mix;
      MixAdds(p, Term(n, s, p), Term(n, s + 1, p), UpperTail(s + 1, n, p), UpperTail(s + 2, n, p),
        UpperTail(s, n, p), UpperTail(s + 1, n, p));
    }
  }

  lemma MixAdds(p: real, a: real, b: real, c: real, d: real, x: real, y: real)
    requires x == a + c && y == b + d
    ensures Mix(p, x, y) == Mix(p, a, b) + Mix(p, c, d)
  {}

  lemma TailFallsWithSuccesses(s: nat, n: nat, p: real)
    requires 0.0 <= p <= 1.0
    ensures UpperTail(s + 1, n, p) <= UpperTail(s, n, p)
  {
    TermNonNegative(n, s, p);
  }

  lemma TermNone(n: nat, p: real)
    ensures Term(n + 1, 0, p) == Mix(p, 0.0, Term(n, 0, p))
  {
    var q := 1.0 - p;
    assert Pow(q, n + 1) == q * Pow(q, n);
  }

  lemma TailStep(s: nat, n: nat, p: real)
    requires s <= n
    ensures UpperTail(s, n, p) == Term(n, s, p) + UpperTail(s + 1, n, p)
  {}

  /** The whole distribution adds up to one. */
  lemma {:induction false} TailIsOne(n: nat, p: real)
    ensures UpperTail(0, n, p) == 1.0
  {
    hide *;
    TailStep(0, n, p);
    if n == 0 {
      TermAll(0, p);
      TailBeyond(1, 0, p);
      assert Pow(p, 0) == 1.0 by { PowZero(p); }
    } else {
      TailIsOne(n - 1, p);
      TailPascal(0, n - 1, p);
      TermNone(n - 1, p);
      TailStep(0, n - 1, p);
      assert Term(n - 1, 0, p) + UpperTail(1, n - 1, p) == 1.0;
      NoneOrSome(p, Term(n - 1, 0, p), UpperTail(1, n - 1, p), Term(n, 0, p));
    }
  }

  lemma PowZero(b: real)
    ensures Pow(b, 0) == 1.0
  {}

  lemma NoneOrSome(p: real, x: real, y: real, t: real)
    requires x + y == 1.0 && t == Mix(p, 0.0, x)
    ensures t + Mix(p, 1.0, y) == 1.0
  {
    assert (1.0 - p) * x == (1.0 - p) * (1.0 - y);
  }

  lemma TailBeyond(s: nat, n: nat, p: real)
    requires s > n
    ensures UpperTail(s, n, p) == 0.0
  {}

  /** The tail does not fall as the success probability grows. */
  lemma {:induction false} TailMonotone(s: nat, n: nat, p: real, r: real)
    requires 0.0 <= p <= r <= 1.0
    ensures UpperTail(s, n, p) <= UpperTail(s, n, r)
    decreases n
  {
    hide UpperTail, Mix;
    if s == 0 {
      TailIsOne(n, p);
      TailIsOne(n, r);
    } else if n == 0 {
      TailBeyond(s, n, p);
      TailBeyond(s, n, r);
    } else {
      TailPascal(s - 1, n - 1, p);
      TailPascal(s - 1, n - 1, r);
      TailMonotone(s - 1, n - 1, p, r);
      TailMonotone(s, n - 1, p, r);
      TailFallsWithSuccesses(s - 1, n - 1, r);
      MixMonotone(p, r,
        UpperTail(s - 1, n - 1, p), UpperTail(s, n - 1, p), UpperTail(s - 1, n - 1, r), UpperTail(s, n - 1, r));
    }
  }

  /** More weight on the larger of two larger values. */
  lemma MixMonotone(p: real, r: real, a: real, b: real, c: real, d: real)
    requires 0.0 <= p <= r <= 1.0 && a <= c && b <= d <= c
    ensures Mix(p, a, b) <= Mix(r, c, d)
  {
    Scaled(p, a, c, p * a, p * c);
    Scaled(1.0 - p, b, d, (1.0 - p) * b, (1.0 - p) * d);
    var extra := (r - p) * (c - d);
    NonNegative(r - p, c - d, extra);
    assert Mix(r, c, d) - Mix(p, c, d) == extra;
  }

  lemma TailAtZero(s: nat, n: nat)
    requires s > 0
    ensures UpperTail(s, n, 0.0) == 0.0
    decreases n + 1 - s
  {
    if s <= n {
      assert Pow(0.0, s) == 0.0 * Pow(0.0, s - 1);
      assert Choose(n, s) as real * 0.0 == 0.0;
      TailAtZero(s + 1, n);
    }
  }

  lemma {:induction false} TailAtOne(s: nat, n: nat)
    requires s <= n
    ensures UpperTail(s, n, 1.0) == 1.0
    decreases n - s
  {
    if s == n {
      AllSuccessTail(n, 1.0);
      PowOfOne(n);
    } else {
      TailAtOne(s + 1, n);
      assert Pow(0.0, n - s) == 0.0 * Pow(0.0, n - s - 1);
      assert Choose(n, s) as real * Pow(1.0, s) * 0.0 == 0.0;
    }
  }

  /** With every trial a success, the tail is p^n. */
  lemma AllSuccessTail(n: nat, p: real)
    ensures UpperTail(n, n, p) == Pow(p, n)
  {
    ChooseAll(n);
    assert UpperTail(n + 1, n, p) == 0.0;
  }

  // --------------------------------------------------------- the bisection

  datatype Interval = Interval(low: real, high: real)

  function Midpoint(i: Interval): real { (i.low + i.high) / 2.0 }

  predicate Fails(s: nat, n: nat, alpha: real, p: real) { UpperTail(s, n, p) < alpha }

  function Halve(i: Interval, fails: bool): Interval {
    if fails then Interval(Midpoint(i), i.high) else Interval(i.low, Midpoint(i))
  }

  /** The interval after `steps` halvings of [0, 1]. */
  function Bisected(s: nat, n: nat, alpha: real, steps: nat): Interval {
    if steps == 0 then Interval(0.0, 1.0)
    else
      var i := Bisected(s, n, alpha, steps - 1);
      Halve(i, Fails(s, n, alpha, Midpoint(i)))
  }

  const STEPS: nat := 100

  /** The bound: the midpoint of the last interval, and zero without a success. */
  function Bound(s: nat, n: nat, alpha: real): real {
    if s == 0 then 0.0 else Midpoint(Bisected(s, n, alpha, STEPS))
  }

  /** The interval keeps halving inside [0, 1], its low end failing and its high end passing. */
  lemma {:induction false} BisectionInvariant(s: nat, n: nat, alpha: real, steps: nat)
    requires 0 < s <= n && 0.0 < alpha < 1.0
    ensures var i := Bisected(s, n, alpha, steps);
      && 0.0 <= i.low < i.high <= 1.0
      && i.high - i.low == Pow(0.5, steps)
      && Fails(s, n, alpha, i.low) && !Fails(s, n, alpha, i.high)
  {
    if steps == 0 {
      TailAtZero(s, n);
      TailAtOne(s, n);
    } else {
      BisectionInvariant(s, n, alpha, steps - 1);
      hide Fails;
    }
  }

  /** Every probability up to the bound less 2^-101 fails, every one from the bound plus 2^-101
      passes: the bound is within 2^-101 of the crossing. */
  lemma BoundBrackets(s: nat, n: nat, alpha: real, p: real)
    requires 0 < s <= n && 0.0 < alpha < 1.0 && 0.0 <= p <= 1.0
    ensures p <= Bound(s, n, alpha) - Pow(0.5, 101) ==> UpperTail(s, n, p) < alpha
    ensures p >= Bound(s, n, alpha) + Pow(0.5, 101) ==> UpperTail(s, n, p) >= alpha
  {
    var i := Bisected(s, n, alpha, STEPS);
    BisectionInvariant(s, n, alpha, STEPS);
    PowStep(0.5, STEPS);
    assert Fails(s, n, alpha, i.low) == (UpperTail(s, n, i.low) < alpha);
    hide Pow, UpperTail, Bisected;
    assert i.low == Bound(s, n, alpha) - Pow(0.5, STEPS + 1);
    if p <= i.low { TailMonotone(s, n, p, i.low); }
    if p >= i.high { TailMonotone(s, n, i.high, p); }
  }

  /** The one-sided exact lower bound: the successes must lie in 0..trials of at least one trial,
      and the confidence strictly between zero and one. */
  method ExactOneSidedLowerBound(successes: int, trials: int, confidence: real) returns (r: Outcome<real>)
    ensures r.Ok? <==> trials > 0 && 0 <= successes <= trials && 0.0 < confidence < 1.0
    ensures r.Ok? ==> r.value == Bound(successes, trials, 1.0 - confidence) && (successes == 0 ==> r.value == 0.0)
    ensures !r.Ok? ==> r.ValueError?
  {
    if trials <= 0 || successes < 0 || successes > trials { return ValueError; }
    if !(0.0 < confidence < 1.0) { return ValueError; }
    if successes == 0 { return Ok(0.0); }
    var alpha := 1.0 - confidence;
    var low, high := 0.0, 1.0;
    for step := 0 to STEPS
      invariant Interval(low, high) == Bisected(successes, trials, alpha, step)
    {
      var midpoint := (low + high) / 2.0;
      if UpperTail(successes, trials, midpoint) < alpha {
        low := midpoint;
      } else {
        high := midpoint;
      }
    }
    return Ok((low + high) / 2.0);
  }

  // ------------------------------------------- the least all-success sample

  /** The bound of n successes in n trials. */
  function PerfectBound(n: nat, alpha: real): real { Bound(n, n, alpha) }

  /** n successes in n trials establish the target at the confidence. */
  predicate Reaches(n: nat, target: real, confidence: real) { PerfectBound(n, 1.0 - confidence) >= target }

  lemma PerfectFails(n: nat, alpha: real, p: real)
    ensures Fails(n, n, alpha, p) <==> Pow(p, n) < alpha
  {
    AllSuccessTail(n, p);
  }

  /** A larger all-success sample is bisected to the same interval or to one on its right. */
  lemma {:induction false} LargerSampleIsRight(m: nat, n: nat, alpha: real, steps: nat)
    requires 0 < m <= n && 0.0 < alpha < 1.0
    ensures var i, j := Bisected(m, m, alpha, steps), Bisected(n, n, alpha, steps);
      i == j || i.high <= j.low
  {
    if steps > 0 {
      LargerSampleIsRight(m, n, alpha, steps - 1);
      BisectionInvariant(m, m, alpha, steps - 1);
      BisectionInvariant(n, n, alpha, steps - 1);
      var mid := Midpoint(Bisected(m, m, alpha, steps - 1));
      PerfectFails(m, alpha, mid);
      PerfectFails(n, alpha, mid);
      PowAntitone(mid, m, n);
      hide Fails, Pow;
    }
  }

  lemma PerfectBoundMonotone(m: nat, n: nat, alpha: real)
    requires 0 < m <= n && 0.0 < alpha < 1.0
    ensures PerfectBound(m, alpha) <= PerfectBound(n, alpha)
  {
    LargerSampleIsRight(m, n, alpha, STEPS);
    BisectionInvariant(m, m, alpha, STEPS);
    BisectionInvariant(n, n, alpha, STEPS);
    hide Bisected, Fails, Pow;
  }

  /** No bound exceeds 1 - 2^-101. */
  lemma BoundCeiling(s: nat, n: nat, alpha: real)
    requires 0 < s <= n && 0.0 < alpha < 1.0
    ensures Bound(s, n, alpha) <= 1.0 - Pow(0.5, 101)
  {
    BisectionInvariant(s, n, alpha, STEPS);
    PowStep(0.5, STEPS);
    hide Bisected, Fails, Pow;
  }

  lemma {:induction false} EnoughBisected(n: nat, alpha: real, steps: nat)
    requires n > 0 && 0.0 < alpha < 1.0
    requires n as real * Pow(0.5, STEPS) * alpha >= 1.0 && steps <= STEPS
    ensures Bisected(n, n, alpha, steps) == Interval(1.0 - Pow(0.5, steps), 1.0)
  {
    if steps > 0 {
      EnoughBisected(n, alpha, steps - 1);
      PowStep(0.5, steps - 1);
      PowAntitone(0.5, steps, STEPS);
      PowRange(0.5, steps);
      PowRange(0.5, STEPS);
      PowAntitone(0.5, 1, STEPS);
      PowStep(0.5, 0);
      PowZero(0.5);
      hide Pow, Fails;
      var mid := 1.0 - Pow(0.5, steps);
      PowerFallsBelow(n, alpha, Pow(0.5, STEPS), mid);
      PerfectFails(n, alpha, mid);
    }
  }

  /** The largest all-success bound, reached from some sample on. */
  lemma EnoughReaches(n: nat, alpha: real)
    requires n > 0 && 0.0 < alpha < 1.0 && n as real * Pow(0.5, STEPS) * alpha >= 1.0
    ensures PerfectBound(n, alpha) == 1.0 - Pow(0.5, 101)
  {
    EnoughBisected(n, alpha, STEPS);
    PowStep(0.5, STEPS);
    hide Bisected, Pow;
  }

  /** The search ends exactly for targets up to 1 - 2^-101. */
  lemma SearchEndsExactly(target: real, alpha: real)
    requires 0.0 < alpha < 1.0
    ensures (exists n: nat :: n > 0 && PerfectBound(n, alpha) >= target) <==> target <= 1.0 - Pow(0.5, 101)
  {
    hide Pow, Bound;
    HalfPower(STEPS);
    var n := Exponent(Pow(0.5, STEPS), alpha);
    EnoughReaches(n, alpha);
    forall n: nat | n > 0 ensures PerfectBound(n, alpha) <= 1.0 - Pow(0.5, STEPS + 1) {
      PerfectIsBound(n, alpha);
      BoundCeiling(n, n, alpha);
    }
  }

  lemma PerfectIsBound(n: nat, alpha: real)
    ensures PerfectBound(n, alpha) == Bound(n, n, alpha)
  {}

  lemma HalfPower(e: nat)
    requires e > 0
    ensures 0.0 < Pow(0.5, e) < 1.0
  {
    PowRange(0.5, e);
    PowStrictlyAntitone(0.5, 0, e);
    PowZero(0.5);
  }

  /** The least all-success sample whose bound reaches the target; every larger one reaches it
      too. The search is total except for the targets above 1 - 2^-101, for which it never ends. */
  method MinimumPerfectTrials(target: real, confidence: real) returns (r: Outcome<nat>)
    requires !(1.0 - Pow(0.5, 101) < target < 1.0 && 0.0 < confidence < 1.0)
    ensures r.Ok? <==> 0.0 < target < 1.0 && 0.0 < confidence < 1.0
    ensures r.Ok? ==> r.value > 0 && forall n: nat | n > 0 :: Reaches(n, target, confidence) <==> r.value <= n
    ensures !r.Ok? ==> r.ValueError?
  {
    assert STEPS > 0;
    hide *;
    if !(0.0 < target < 1.0) { return ValueError; }
    var alpha := 1.0 - confidence;
    var trials: nat := 1;
    var bound := ExactOneSidedLowerBound(trials, trials, confidence);
    if !bound.Ok? { return ValueError; }
    PerfectIsBound(trials, alpha);
    ghost var x := Pow(0.5, STEPS);
    HalfPower(STEPS);
    ghost var enough := Exponent(x, alpha);
    while bound.value < target
      invariant trials > 0 && bound == Ok(PerfectBound(trials, alpha))
      invariant forall n: nat | 0 < n < trials :: !Reaches(n, target, confidence)
      decreases enough - trials
    {
      ReachesIs(trials, target, confidence);
      if trials >= enough {
        EnoughReaches(enough, alpha);
        PerfectBoundMonotone(enough, trials, alpha);
      }
      trials := trials + 1;
      bound := ExactOneSidedLowerBound(trials, trials, confidence);
      PerfectIsBound(trials, alpha);
    }
    forall n: nat | trials <= n ensures Reaches(n, target, confidence) {
      PerfectBoundMonotone(trials, n, alpha);
      ReachesIs(n, target, confidence);
    }
    return Ok(trials);
  }

  lemma ReachesIs(n: nat, target: real, confidence: real)
    ensures Reaches(n, target, confidence) <==> PerfectBound(n, 1.0 - confidence) >= target
  {}
}
