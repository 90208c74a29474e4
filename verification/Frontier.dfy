/** The closed-form frontier: what a book of equally risky sleeves reaches for a given sleeve
    quality, average pairwise correlation and sleeve count, and how many sleeves a target needs. */
module Frontier {
  import opened Reals

  datatype Extended = Infinite | Finite(value: real)

  // --------------------------------------- Sharpe against correlation

  function Crowding(n: nat, rho: real): real { 1.0 + (n as real - 1.0) * rho }

  lemma RootPositive(sqrt: real -> real, x: real)
    requires IsSqrt(sqrt) && x > 0.0
    ensures sqrt(x) > 0.0
  {
    SquareSign(sqrt(x));
  }

  lemma CrowdingPositive(n: nat, rho: real)
    requires n >= 1 && rho > 0.0
    ensures Crowding(n, rho) >= 1.0
  {
    NonNegative(n as real - 1.0, rho, (n as real - 1.0) * rho);
  }

  function BookSharpe(sqrt: real -> real, quality: real, rho: real, n: nat): Extended
    requires IsSqrt(sqrt)
  {
    var d := Crowding(n, rho);
    if d <= 0.0 then Infinite
    else
      RootPositive(sqrt, d);
      Finite(quality * sqrt(n as real) / sqrt(d))
  }

  function RhoRequired(sqrt: real -> real, quality: real, n: nat, target: real): real
    requires target != 0.0 && n != 1
  {
    (Square(quality * sqrt(n as real) / target) - 1.0) / (n as real - 1.0)
  }

  function PsdFloor(n: nat): real
    requires n != 1
  {
    -1.0 / (n as real - 1.0)
  }

  /** A positive u over e is t exactly when u over t is e. */
  lemma SwapQuotient(u: real, e: real, t: real)
    requires u > 0.0 && e > 0.0 && t > 0.0
    ensures u / e == t <==> u / t == e
  {
    Quotient(u, e, t);
    Quotient(u, t, e);
  }

  /** The required correlation and the book Sharpe are inverse to each other, and every target is
      reached above the floor at which an equicorrelated matrix stops being semidefinite. */
  lemma RhoRequiredInverts(sqrt: real -> real, quality: real, rho: real, n: nat, target: real)
    requires IsSqrt(sqrt) && quality > 0.0 && target > 0.0 && n >= 2
    ensures BookSharpe(sqrt, quality, rho, n) == Finite(target) <==> rho == RhoRequired(sqrt, quality, n, target)
    ensures RhoRequired(sqrt, quality, n, target) > PsdFloor(n)
  {
    var k := n as real - 1.0;
    var root := sqrt(n as real);
    RootPositive(sqrt, n as real);
    var u := quality * root;
    Positive(quality, root, u);
    PositiveQuotient(u, target);
    SquareSign(u / target);
    Rearranged(Square(u / target), k, rho);
    assert PsdFloor(n) == -1.0 / k;
    assert RhoRequired(sqrt, quality, n, target) == (Square(u / target) - 1.0) / k;
    SharpeIs(sqrt, quality, rho, n, target, u);
  }

  lemma SharpeIs(sqrt: real -> real, quality: real, rho: real, n: nat, target: real, u: real)
    requires IsSqrt(sqrt) && target > 0.0 && n >= 2 && u == quality * sqrt(n as real) && u > 0.0
    ensures BookSharpe(sqrt, quality, rho, n) == Finite(target) <==> Square(u / target) == Crowding(n, rho)
  {
    var d := Crowding(n, rho);
    PositiveQuotient(u, target);
    SquareSign(u / target);
    if d > 0.0 {
      RootPositive(sqrt, d);
      SwapQuotient(u, sqrt(d), target);
      SquareOrder(u / target, sqrt(d));
    }
  }

  lemma Rearranged(s: real, k: real, rho: real)
    requires k > 0.0 && s > 0.0
    ensures rho == (s - 1.0) / k <==> s == 1.0 + k * rho
    ensures (s - 1.0) / k > -1.0 / k
  {
    Quotient(s - 1.0, k, rho);
    Quotient(s - 1.0, k, (s - 1.0) / k);
    Quotient(-1.0, k, -1.0 / k);
    var d := (s - 1.0) / k - -1.0 / k;
    assert d * k == s;
    if d < 0.0 { Mixed(k, d, d * k); }
  }

  /** Equal-weight book volatility as a multiple of the volatility of one sleeve. */
  function BookVolMultiple(sqrt: real -> real, n: nat, rho: real): real
    requires IsSqrt(sqrt) && n > 0
  {
    RootPositive(sqrt, n as real);
    sqrt(Max(Crowding(n, rho), 0.0)) / sqrt(n as real)
  }

  lemma SquareOfQuotient(a: real, b: real, c: real)
    requires b != 0.0 && c == a / b
    ensures Square(c) * Square(b) == Square(a)
  {
    assert c * b == a;
    assert Square(c) * Square(b) == (c * b) * (c * b);
  }

  /** Its square is the variance (1 + (n - 1) rho) / n, floored at zero. */
  lemma VolMultipleSquared(sqrt: real -> real, n: nat, rho: real)
    requires IsSqrt(sqrt) && n > 0
    ensures sqrt(n as real) > 0.0
    ensures BookVolMultiple(sqrt, n, rho) >= 0.0
    ensures Square(BookVolMultiple(sqrt, n, rho)) * n as real == Max(Crowding(n, rho), 0.0)
    ensures Crowding(n, rho) > 0.0 ==> BookVolMultiple(sqrt, n, rho) > 0.0
  {
    RootPositive(sqrt, n as real);
    var a, b := sqrt(Max(Crowding(n, rho), 0.0)), sqrt(n as real);
    SquareOfQuotient(a, b, a / b);
    if a > 0.0 { PositiveQuotient(a, b); }
    if Crowding(n, rho) > 0.0 { RootPositive(sqrt, Crowding(n, rho)); }
  }

  // ----------------------------------------------- sleeves for a target

  /** The independent sleeves that n correlated ones are worth. */
  function EffectiveSleeves(n: nat, rho: real): real
    requires n >= 1
  {
    if rho > 0.0 then
      CrowdingPositive(n, rho);
      n as real / Crowding(n, rho)
    else n as real
  }

  function SleeveSharpe(sqrt: real -> real, quality: real, rho: real, n: nat): real
    requires n >= 1
  {
    quality * sqrt(EffectiveSleeves(n, rho))
  }

  function Ceiling(sqrt: real -> real, quality: real, rho: real): Extended
    requires IsSqrt(sqrt)
  {
    if rho <= 0.0 then Infinite
    else
      RootPositive(sqrt, rho);
      Finite(quality / sqrt(rho))
  }

  function SleevesRequired(quality: real, rho: real, target: real): Extended
    requires quality != 0.0
  {
    var k := Square(target / quality);
    if rho <= 0.0 then Finite(k)
    else if k * rho >= 1.0 then Infinite
    else Finite(k * (1.0 - rho) / (1.0 - k * rho))
  }

  predicate Reaches(sqrt: real -> real, quality: real, rho: real, target: real, n: nat)
    requires n >= 1
  {
    SleeveSharpe(sqrt, quality, rho, n) >= target
  }

  /** What the count promises: infinite says that no number of sleeves reaches the target, a
      finite one that exactly the counts at or above it do. */
  ghost predicate Promise(sqrt: real -> real, quality: real, rho: real, target: real, required: Extended) {
    match required
    case Infinite => forall n: nat | n >= 1 :: !Reaches(sqrt, quality, rho, target, n)
    case Finite(m) => forall n: nat | n >= 1 :: Reaches(sqrt, quality, rho, target, n) <==> n as real >= m
  }

  lemma QuotientOrder(a: real, b: real, k: real)
    requires b > 0.0
    ensures a / b >= k <==> a >= k * b
  {
    var q := a / b;
    Quotient(a, b, q);
    var d := q - k;
    assert d * b == a - k * b;
    if d < 0.0 { Mixed(b, d, d * b); } else { NonNegative(d, b, d * b); }
  }

  /** The Sharpe reaches the target exactly when n (1 - k rho) >= k (1 - rho), k = (target / quality)^2. */
  lemma ReachesLinear(sqrt: real -> real, quality: real, rho: real, target: real, n: nat, k: real, kr: real)
    requires IsSqrt(sqrt) && quality > 0.0 && target > 0.0 && n >= 1
    requires k == Square(target / quality) && IsProduct(kr, k, rho)
    ensures rho > 0.0 ==> (Reaches(sqrt, quality, rho, target, n) <==> Enough(n as real, k, kr))
    ensures rho <= 0.0 ==> (Reaches(sqrt, quality, rho, target, n) <==> n as real >= k)
  {
    var e, y := EffectiveSleeves(n, rho), target / quality;
    PositiveQuotient(target, quality);
    if rho > 0.0 {
      CrowdingPositive(n, rho);
      PositiveQuotient(n as real, Crowding(n, rho));
      QuotientOrder(n as real, Crowding(n, rho), k);
      Expanded(n as real, k, rho, kr);
    }
    assert e > 0.0;
    var root := sqrt(e);
    SquareOrder(y, root);
    QuotientBelow(target, quality, y, root);
  }

  lemma Expanded(n: real, k: real, rho: real, kr: real)
    requires kr == k * rho
    ensures k * (1.0 + (n - 1.0) * rho) == k + n * kr - kr
    ensures n * (1.0 - kr) == n - n * kr
  {
    assert k * ((n - 1.0) * rho) == (n - 1.0) * kr;
  }

  lemma QuotientBelow(t: real, s: real, y: real, root: real)
    requires s > 0.0 && y == t / s
    ensures s * root >= t <==> root >= y
  {
    Quotient(t, s, y);
    if root < y { StrictlyScaled(s, root, y, s * root, t); } else { Scaled(s, y, root, t, s * root); }
  }

  /** For every correlation up to one the count keeps its promise, except at perfect correlation
      with a target equal to the sleeve quality: one sleeve reaches it and the count is infinite. */
  lemma SleevesRequiredExactly(sqrt: real -> real, quality: real, rho: real, target: real)
    requires IsSqrt(sqrt) && quality > 0.0 && target > 0.0 && rho <= 1.0
    ensures Promise(sqrt, quality, rho, target, SleevesRequired(quality, rho, target))
       <==> !(rho == 1.0 && target == quality)
  {
    hide Reaches;
    if rho == 1.0 && target == quality {
      PerfectCorrelation(sqrt, quality);
    } else {
      forall n: nat | n >= 1
        ensures Reaches(sqrt, quality, rho, target, n) <==> AtLeast(n, SleevesRequired(quality, rho, target))
      {
        ReachesExactly(sqrt, quality, rho, target, n);
      }
    }
  }

  /** A finite count is the exact inverse: it is the one real number of sleeves at which the squared
      book Sharpe, quality^2 n / (1 + (n - 1) rho), is the squared target. */
  lemma RequiredInverts(quality: real, rho: real, target: real, n: real)
    requires quality > 0.0 && target > 0.0 && 0.0 < rho < 1.0
    requires SleevesRequired(quality, rho, target).Finite?
    requires 1.0 + (n - 1.0) * rho > 0.0
    ensures Square(quality) * n / (1.0 + (n - 1.0) * rho) == Square(target)
       <==> n == SleevesRequired(quality, rho, target).value
  {
    var k := Square(target / quality);
    var kr := k * rho;
    var d := 1.0 + (n - 1.0) * rho;
    RequiredIs(quality, rho, target, k, kr);
    SquareOfQuotient(target, quality, target / quality);
    SquareSign(quality);
    InverseEquation(Square(quality), Square(target), n, rho, d, k, kr);
  }

  /** For whole counts that expression is the square of the book Sharpe. */
  lemma SharpeSquared(sqrt: real -> real, quality: real, rho: real, n: nat)
    requires IsSqrt(sqrt) && n >= 1
    ensures rho > 0.0 ==> Crowding(n, rho) >= 1.0
    ensures rho > 0.0 ==>
      Square(SleeveSharpe(sqrt, quality, rho, n)) == Square(quality) * n as real / Crowding(n, rho)
    ensures rho <= 0.0 ==> Square(SleeveSharpe(sqrt, quality, rho, n)) == Square(quality) * n as real
  {
    var e := EffectiveSleeves(n, rho);
    var root := sqrt(e);
    if rho > 0.0 {
      CrowdingPositive(n, rho);
      PositiveQuotient(n as real, Crowding(n, rho));
      MovesInside(Square(quality), n as real, Crowding(n, rho));
    }
    assert Square(root) == e;
    assert Square(quality * root) == Square(quality) * Square(root);
  }

  /** Book Sharpe is sleeve quality over the book's volatility multiple, wherever the book has any
      volatility, and infinite exactly where it has none. */
  lemma SharpeOverVolatility(sqrt: real -> real, quality: real, rho: real, n: nat)
    requires IsSqrt(sqrt) && n >= 1
    ensures BookSharpe(sqrt, quality, rho, n) == Infinite <==> BookVolMultiple(sqrt, n, rho) == 0.0
    ensures BookSharpe(sqrt, quality, rho, n).Finite? ==>
      BookSharpe(sqrt, quality, rho, n).value * BookVolMultiple(sqrt, n, rho) == quality
  {
    VolMultipleSquared(sqrt, n, rho);
    var d := Crowding(n, rho);
    if d > 0.0 {
      RootPositive(sqrt, d);
      RootPositive(sqrt, n as real);
      var a, b := sqrt(d), sqrt(n as real);
      assert BookVolMultiple(sqrt, n, rho) == a / b;
      assert BookSharpe(sqrt, quality, rho, n) == Finite(quality * b / a);
      hide *;
      Cancels(quality, a, b, quality * b / a, a / b);
    } else {
      assert Square(BookVolMultiple(sqrt, n, rho)) * n as real == 0.0;
      NoSquare(BookVolMultiple(sqrt, n, rho), n as real);
    }
  }

  lemma Cancels(quality: real, a: real, b: real, x: real, y: real)
    requires a > 0.0 && b > 0.0 && x == quality * b / a && y == a / b
    ensures x * y == quality
  {
    Quotient(quality * b, a, x);
    Quotient(a, b, y);
    assert x * y * b == quality * b;
  }

  lemma NoSquare(x: real, n: real)
    requires Square(x) * n == 0.0 && n > 0.0
    ensures x == 0.0
  {
    SquareSign(x);
    if Square(x) > 0.0 { Positive(Square(x), n, Square(x) * n); }
  }

  lemma MovesInside(s: real, n: real, d: real)
    requires d > 0.0
    ensures s * (n / d) == s * n / d
  {}

  lemma InverseEquation(s: real, t: real, n: real, rho: real, d: real, k: real, kr: real)
    requires s > 0.0 && k * s == t && kr == k * rho < 1.0 && d == 1.0 + (n - 1.0) * rho > 0.0
    ensures s * n / d == t <==> n == Solution(k, rho, kr)
  {
    Quotient(s * n, d, t);
    Quotient(k * (1.0 - rho), 1.0 - kr, n);
    var gap := n * (1.0 - kr) - k * (1.0 - rho);
    assert s * n - t * d == s * gap by {
      assert t * d == s * (k * d);
      assert k * d == k + n * kr - kr by { Expanded(n, k, rho, kr); }
      assert n * (1.0 - kr) == n - n * kr;
    }
    if gap > 0.0 { Positive(s, gap, s * gap); }
    if gap < 0.0 { Mixed(s, gap, s * gap); }
  }

  predicate AtLeast(n: nat, required: Extended) { required.Finite? && n as real >= required.value }

  /** The one false promise: one sleeve of the target quality is enough. */
  lemma PerfectCorrelation(sqrt: real -> real, quality: real)
    requires IsSqrt(sqrt) && quality > 0.0
    ensures SleevesRequired(quality, 1.0, quality) == Infinite
    ensures Reaches(sqrt, quality, 1.0, quality, 1)
  {
    var k := Square(quality / quality);
    RatioIsOne(quality, quality);
    ReachesLinear(sqrt, quality, 1.0, quality, 1, k, k);
  }

  lemma ReachesExactly(sqrt: real -> real, quality: real, rho: real, target: real, n: nat)
    requires IsSqrt(sqrt) && quality > 0.0 && target > 0.0 && rho <= 1.0 && n >= 1
    requires !(rho == 1.0 && target == quality)
    ensures Reaches(sqrt, quality, rho, target, n) <==> AtLeast(n, SleevesRequired(quality, rho, target))
  {
    hide Reaches, Square, SleevesRequired, Solution, IsSqrt;
    var k := Square(target / quality);
    var kr := k * rho;
    assert IsProduct(kr, k, rho);
    hide IsProduct;
    RatioIsOne(target, quality);
    ReachesLinear(sqrt, quality, rho, target, n, k, kr);
    if rho > 0.0 { CountSolves(n as real, k, rho, kr); }
    RequiredIs(quality, rho, target, k, kr);
  }

  function Solution(k: real, rho: real, kr: real): real
    requires kr < 1.0
  {
    k * (1.0 - rho) / (1.0 - kr)
  }

  /** n (1 - kr) >= k - kr, named. */
  predicate Enough(n: real, k: real, kr: real) { n * (1.0 - kr) >= k - kr }

  lemma RequiredIs(quality: real, rho: real, target: real, k: real, kr: real)
    requires quality != 0.0 && k == Square(target / quality) && IsProduct(kr, k, rho)
    ensures SleevesRequired(quality, rho, target)
         == if rho <= 0.0 then Finite(k) else if kr >= 1.0 then Infinite else Finite(Solution(k, rho, kr))
  {}

  lemma RatioIsOne(t: real, s: real)
    requires s > 0.0 && t > 0.0
    ensures Square(t / s) > 0.0
    ensures Square(t / s) == 1.0 <==> t == s
  {
    var y := t / s;
    PositiveQuotient(t, s);
    SquareSign(y);
    SquareOrder(y, 1.0);
    Quotient(t, s, 1.0);
  }

  lemma CountSolves(n: real, k: real, rho: real, kr: real)
    requires n >= 1.0 && k > 0.0 && 0.0 < rho <= 1.0 && IsProduct(kr, k, rho) && !(rho == 1.0 && k == 1.0)
    ensures kr >= 1.0 ==> !Enough(n, k, kr)
    ensures kr < 1.0 ==> (Enough(n, k, kr) <==> n >= Solution(k, rho, kr))
  {
    var gap := k - kr;
    assert gap == k * (1.0 - rho);
    if kr >= 1.0 {
      var p := n * (1.0 - kr);
      if rho < 1.0 {
        Positive(k, 1.0 - rho, gap);
        NonNegative(n, kr - 1.0, -p);
      } else {
        Positive(n - 0.5, kr - 1.0, (n - 0.5) * (kr - 1.0));
        assert (n - 0.5) * (kr - 1.0) == -p - 0.5 * (kr - 1.0);
        Scaled(kr - 1.0, 1.0, n, kr - 1.0, (kr - 1.0) * n);
      }
    } else {
      QuotientAbove(gap, 1.0 - kr, n);
    }
  }

  lemma QuotientAbove(a: real, b: real, n: real)
    requires b > 0.0
    ensures n * b >= a <==> n >= a / b
  {
    var q := a / b;
    Quotient(a, b, q);
    if n < q { StrictlyScaled(b, n, q, b * n, b * q); } else { Scaled(b, q, n, b * q, b * n); }
  }

  /** Between zero and one the count is infinite exactly when the target is at or above the ceiling,
      and the ceiling itself is never reached. */
  lemma InfiniteAtCeiling(sqrt: real -> real, quality: real, rho: real, target: real)
    requires IsSqrt(sqrt) && quality > 0.0 && target > 0.0 && 0.0 < rho < 1.0
    ensures Ceiling(sqrt, quality, rho).Finite?
    ensures SleevesRequired(quality, rho, target) == Infinite <==> target >= Ceiling(sqrt, quality, rho).value
    ensures forall n: nat | n >= 1 :: SleeveSharpe(sqrt, quality, rho, n) < Ceiling(sqrt, quality, rho).value
  {
    RootPositive(sqrt, rho);
    InfiniteAbove(sqrt, quality, rho, target);
    var c := quality / sqrt(rho);
    PositiveQuotient(quality, sqrt(rho));
    InfiniteAbove(sqrt, quality, rho, c);
    SleevesRequiredExactly(sqrt, quality, rho, c);
    forall n: nat | n >= 1 ensures SleeveSharpe(sqrt, quality, rho, n) < c {
      assert !Reaches(sqrt, quality, rho, c, n);
    }
  }

  lemma InfiniteAbove(sqrt: real -> real, quality: real, rho: real, target: real)
    requires IsSqrt(sqrt) && quality > 0.0 && target > 0.0 && 0.0 < rho < 1.0 && sqrt(rho) > 0.0
    ensures SleevesRequired(quality, rho, target) == Infinite <==> target >= quality / sqrt(rho)
  {
    var y, e := target / quality, sqrt(rho);
    PositiveQuotient(target, quality);
    var p := y * e;
    Positive(y, e, p);
    SquareOrder(p, 1.0);
    assert Square(p) == Square(y) * Square(e) by { assert Square(p) == (y * y) * (e * e); }
    QuotientOrder2(target, quality, e, y, p);
  }

  lemma QuotientOrder2(t: real, s: real, e: real, y: real, p: real)
    requires s > 0.0 && e > 0.0 && t > 0.0 && y == t / s && p == y * e
    ensures t >= s / e <==> p >= 1.0
  {
    Quotient(t, s, y);
    QuotientAbove(s, e, t);
    var te := t * e;
    assert te == s * p by { assert te == y * s * e; }
    if p < 1.0 { StrictlyScaled(s, p, 1.0, te, s); } else { Scaled(s, 1.0, p, s, te); }
  }
}
