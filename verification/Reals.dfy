/** Exact real arithmetic shared by the model: powers, finite sums, quadratic forms. */
module Reals {

  function Abs(x: real): real { if x < 0.0 then -x else x }

  function Min(x: real, y: real): real { if x <= y then x else y }

  function Max(x: real, y: real): real { if x <= y then y else x }

  function Square(x: real): real { x * x }

  // Products of two reals. The product is a parameter of its own: the solver decides
  // the sign of a named product far more readily than that of the bare term.
  lemma Positive(x: real, y: real, p: real)
    requires x > 0.0 && y > 0.0 && p == x * y
    ensures p > 0.0
  {}

  lemma NonNegative(x: real, y: real, p: real)
    requires x >= 0.0 && y >= 0.0 && p == x * y
    ensures p >= 0.0
  {
    if x > 0.0 && y > 0.0 {Positive(x,y,p);}
  }

  lemma Negatives(x: real, y: real, p: real)
    requires x < 0.0 && y < 0.0 && p == x * y
    ensures p > 0.0
  {
    Positive(-x,-y,p);
  }

  lemma Mixed(x: real, y: real, p: real)
    requires x > 0.0 && y < 0.0 && p == x * y
    ensures p < 0.0
  {
    Positive(x,-y,-p);
  }

  lemma SquareSign(x: real)
    ensures Square(x) >= 0.0
    ensures Square(x) == 0.0 <==> x == 0.0
  {
    if x > 0.0 {
      Positive(x, x, Square(x));
    } else if x < 0.0 {
      Negatives(x, x, Square(x));
    }
  }

  lemma Scaled(c: real, x: real, y: real, p: real, q: real)
    requires c >= 0.0 && x <= y && p == c * x && q == c * y
    ensures p <= q
  {
    NonNegative(c, y - x, q - p);
  }

  lemma StrictlyScaled(c: real, x: real, y: real, p: real, q: real)
    requires c > 0.0 && x < y && p == c * x && q == c * y
    ensures p < q
  {
    Positive(c, y - x, q - p);
  }

  lemma SquareOrder(x: real, y: real)
    requires x >= 0.0 && y >= 0.0
    ensures Square(x) <= Square(y) <==> x <= y
    ensures Square(x) == Square(y) <==> x == y
  {
    if x < y {
      Positive(y - x, y + x, Square(y) - Square(x));
    } else if y < x {
      Positive(x - y, y + x, Square(x) - Square(y));
    }
  }

  lemma Quotient(a: real, b: real, c: real)
    requires b != 0.0
    ensures a / b == c <==> a == c * b
    ensures (a / b) * b == a
  {}

  /** A square root: the non-negative function whose square is its argument. */
  ghost predicate IsSqrt(sqrt: real -> real) {
    forall x | x >= 0.0 :: sqrt(x) >= 0.0 && Square(sqrt(x)) == x
  }

  /** Square roots order as their arguments do. */
  lemma RootOrder(sqrt: real -> real, x: real, y: real)
    requires IsSqrt(sqrt) && x >= 0.0 && y >= 0.0
    ensures sqrt(x) <= sqrt(y) <==> x <= y
    ensures sqrt(x) == sqrt(y) <==> x == y
  {
    SquareOrder(sqrt(x), sqrt(y));
  }

  lemma RootOfSquare(sqrt: real -> real, x: real)
    requires IsSqrt(sqrt) && x >= 0.0
    ensures sqrt(Square(x)) == x
  {
    SquareSign(x);
    SquareOrder(sqrt(Square(x)), x);
  }

  lemma PositiveQuotient(a: real, b: real)
    requires a > 0.0 && b > 0.0
    ensures a / b > 0.0
  {
    var q := a / b;
    Quotient(a, b, q);
    if q < 0.0 { Mixed(b, q, b * q); }
  }

  // ---------------------------------------------------------------- powers

  function Pow(b: real, e: nat): real {
    if e == 0 then 1.0 else b * Pow(b, e - 1)
  }

  lemma {:induction false} PowRange(b: real, e: nat)
    requires 0.0 < b < 1.0
    ensures 0.0 < Pow(b, e) <= 1.0
  {
    if e > 0 {
      PowRange(b, e - 1);
      var p := Pow(b, e - 1);
      Positive(b, p, b * p);
      StrictlyScaled(p, b, 1.0, p * b, p);
    }
  }

  lemma {:induction false} PowNonNegative(b: real, e: nat)
    requires 0.0 <= b
    ensures 0.0 <= Pow(b, e)
  {
    if e > 0 {
      PowNonNegative(b, e - 1);
      NonNegative(b, Pow(b, e - 1), Pow(b, e));
    }
  }

  lemma {:induction false} PowMonotone(b: real, c: real, e: nat)
    requires 0.0 <= b <= c
    ensures 0.0 <= Pow(b, e) <= Pow(c, e)
  {
    PowNonNegative(b, e);
    if e > 0 {
      PowMonotone(b, c, e - 1);
      var p, q := Pow(b, e - 1), Pow(c, e - 1);
      Scaled(b, p, q, b * p, b * q);
      Scaled(q, b, c, q * b, q * c);
    }
  }

  lemma PowStrictlyMonotone(b: real, c: real, e: nat)
    requires 0.0 < b < c < 1.0 && e > 0
    ensures Pow(b, e) < Pow(c, e)
  {
    PowMonotone(b, c, e - 1);
    PowRange(c, e - 1);
    PowStep(b, e - 1);
    PowStep(c, e - 1);
    hide Pow;
    var p, q := Pow(b, e - 1), Pow(c, e - 1);
    Scaled(b, p, q, b * p, b * q);
    StrictlyScaled(q, b, c, q * b, q * c);
  }

  lemma {:induction false} PowOfOne(e: nat)
    ensures Pow(1.0, e) == 1.0
  {
    if e > 0 { PowOfOne(e - 1); }
  }

  lemma PowFalls(b: real, e: nat)
    requires 0.0 < b < 1.0
    ensures Pow(b, e + 1) < Pow(b, e)
  {
    PowRange(b, e);
    var p := Pow(b, e);
    assert Pow(b, e + 1) == b * p;
    hide Pow;
    StrictlyScaled(p, b, 1.0, p * b, p);
  }

  /** Powers of a base in [0, 1] do not grow with the exponent. */
  lemma {:induction false} PowAntitone(b: real, d: nat, e: nat)
    requires 0.0 <= b <= 1.0 && d <= e
    ensures Pow(b, e) <= Pow(b, d)
  {
    if d < e {
      PowAntitone(b, d, e - 1);
      PowNonNegative(b, e - 1);
      var p := Pow(b, e - 1);
      assert Pow(b, e) == b * p;
      hide Pow;
      Scaled(p, b, 1.0, p * b, p);
    }
  }

  /** Powers of a base in (0, 1) fall strictly as the exponent grows. */
  lemma PowStrictlyAntitone(b: real, d: nat, e: nat)
    requires 0.0 < b < 1.0 && d < e
    ensures Pow(b, e) < Pow(b, d)
  {
    PowFalls(b, e - 1);
    PowAntitone(b, d, e - 1);
  }

  lemma PowStep(b: real, e: nat)
    ensures Pow(b, e + 1) == b * Pow(b, e)
  {}

  /** Bernoulli: (1 - x)^n (1 + n x) is at most one. */
  lemma {:induction false} Bernoulli(x: real, n: nat)
    requires 0.0 < x < 1.0
    ensures Pow(1.0 - x, n) * (1.0 + n as real * x) <= 1.0
  {
    if n > 0 {
      Bernoulli(x, n - 1);
      PowNonNegative(1.0 - x, n - 1);
      PowStep(1.0 - x, n - 1);
      hide Pow;
      BernoulliStep(x, n - 1, Pow(1.0 - x, n - 1));
    }
  }

  lemma BernoulliStep(x: real, m: nat, p: real)
    requires 0.0 < x < 1.0 && p >= 0.0 && p * (1.0 + m as real * x) <= 1.0
    ensures (1.0 - x) * p * (1.0 + (m + 1) as real * x) <= 1.0
  {
    var k := m as real;
    var drop := x * x * (k + 1.0);
    NonNegative(x, x, x * x);
    NonNegative(x * x, k + 1.0, drop);
    NonNegative(p, drop, p * drop);
    assert (1.0 - x) * (1.0 + (k + 1.0) * x) == 1.0 + k * x - drop;
    assert (1.0 - x) * p * (1.0 + (k + 1.0) * x) == p * (1.0 + k * x) - p * drop;
  }

  /** An exponent at which (1 - x)^n has fallen below alpha. */
  function Exponent(x: real, alpha: real): (n: nat)
    requires 0.0 < x < 1.0 && 0.0 < alpha < 1.0
    ensures n > 0 && n as real * x * alpha >= 1.0
  {
    ExponentIs(x, alpha, 1.0 / (x * alpha));
    (1.0 / (x * alpha)).Floor + 1
  }

  lemma ExponentIs(x: real, alpha: real, q: real)
    requires 0.0 < x && 0.0 < alpha
    requires x * alpha != 0.0 ==> q == 1.0 / (x * alpha)
    ensures x * alpha > 0.0 && q > 0.0
    ensures (q.Floor + 1) as real * x * alpha >= 1.0
  {
    var d := x * alpha;
    Positive(x, alpha, d);
    Quotient(1.0, d, q);
    if q <= 0.0 {
      NonNegative(-q, d, -q * d);
    }
    var n := (q.Floor + 1) as real;
    assert n >= q;
    Scaled(d, q, n, d * q, d * n);
    assert n * x * alpha == d * n;
  }

  /** From that exponent on, powers of bases up to 1 - x are below alpha. */
  lemma PowerFallsBelow(n: nat, alpha: real, x: real, p: real)
    requires 0.0 < alpha < 1.0 && 0.0 < x < 1.0 && 0.0 <= p <= 1.0 - x
    requires n as real * x * alpha >= 1.0
    ensures Pow(p, n) < alpha
  {
    Bernoulli(x, n);
    PowMonotone(p, 1.0 - x, n);
    hide Pow;
    BelowAlpha(Pow(1.0 - x, n), n as real * x, alpha);
  }

  lemma BelowAlpha(c: real, k: real, alpha: real)
    requires c >= 0.0 && alpha > 0.0 && c * (1.0 + k) <= 1.0 && k * alpha >= 1.0
    ensures c < alpha
  {
    var rest := (c - alpha) * k;
    assert rest == c * k - k * alpha;
    assert c * (1.0 + k) == c + c * k;
    if k <= 0.0 { NonNegative(alpha, -k, -(k * alpha)); }
    if c >= alpha { NonNegative(c - alpha, k, rest); }
  }

  // ---------------------------------------------------------- indexed sums

  /** f(0) + ... + f(n - 1). */
  function SumTo(n: nat, f: int -> real): real {
    if n == 0 then 0.0 else SumTo(n - 1, f) + f(n - 1)
  }

  lemma SumSplit(n: nat, f: int -> real)
    requires n > 0
    ensures SumTo(n, f) == SumTo(n - 1, f) + f(n - 1)
  {}

  lemma SumOfNone(f: int -> real)
    ensures SumTo(0, f) == 0.0
  {}

  lemma LinearStep(
      h: real, h0: real, h1: real, a: real, f: real, f0: real, f1: real, b: real, g: real, g0: real, g1: real)
    requires f == f0 + f1 && g == g0 + g1 && h == h0 + h1
    requires h0 == a * f0 + b * g0 && h1 == a * f1 + b * g1
    ensures h == a * f + b * g
  {
    assert a * (f0 + f1) == a * f0 + a * f1;
    assert b * (g0 + g1) == b * g0 + b * g1;
  }

  lemma {:induction false} SumLinear(n: nat, a: real, f: int -> real, b: real, g: int -> real, h: int -> real)
    requires forall i | 0 <= i < n :: h(i) == a * f(i) + b * g(i)
    ensures SumTo(n, h) == a * SumTo(n, f) + b * SumTo(n, g)
  {
    hide SumTo;
    if n == 0 {
      SumOfNone(f);
      SumOfNone(g);
      SumOfNone(h);
    } else {
      SumLinear(n - 1, a, f, b, g, h);
      SumSplit(n, f);
      SumSplit(n, g);
      SumSplit(n, h);
      LinearStep(SumTo(n, h), SumTo(n - 1, h), h(n - 1), a, SumTo(n, f), SumTo(n - 1, f), f(n - 1),
        b, SumTo(n, g), SumTo(n - 1, g), g(n - 1));
    }
  }

  lemma {:induction false} SumScale(n: nat, a: real, f: int -> real, h: int -> real)
    requires forall i | 0 <= i < n :: h(i) == a * f(i)
    ensures SumTo(n, h) == a * SumTo(n, f)
  {
    hide SumTo;
    if n == 0 {
      SumOfNone(f);
      SumOfNone(h);
    } else {
      SumScale(n - 1, a, f, h);
      SumSplit(n, f);
      SumSplit(n, h);
      LinearStep(SumTo(n, h), SumTo(n - 1, h), h(n - 1), a, SumTo(n, f), SumTo(n - 1, f), f(n - 1), 0.0, 0.0, 0.0, 0.0);
    }
  }

  lemma {:induction false} SumEqual(n: nat, f: int -> real, g: int -> real)
    requires forall i | 0 <= i < n :: f(i) == g(i)
    ensures SumTo(n, f) == SumTo(n, g)
  {
    if n > 0 { SumEqual(n - 1, f, g); }
  }

  lemma {:induction false} SumConstant(n: nat, c: real, f: int -> real)
    requires forall i | 0 <= i < n :: f(i) == c
    ensures SumTo(n, f) == n as real * c
  {
    if n > 0 {
      SumConstant(n - 1, c, f);
      LinearStep(SumTo(n, f), SumTo(n - 1, f), f(n - 1), c, n as real, (n - 1) as real, 1.0, 0.0, 0.0, 0.0, 0.0);
    }
  }

  /** A sum of non-negative terms is non-negative, bounds each term, and vanishes only termwise. */
  lemma {:induction false} SumNonNegative(n: nat, f: int -> real)
    requires forall i | 0 <= i < n :: f(i) >= 0.0
    ensures SumTo(n, f) >= 0.0
    ensures forall i | 0 <= i < n :: f(i) <= SumTo(n, f)
    ensures SumTo(n, f) == 0.0 ==> forall i | 0 <= i < n :: f(i) == 0.0
  {
    if n > 0 { SumNonNegative(n - 1, f); }
  }

  lemma {:induction false} SumMonotone(n: nat, f: int -> real, g: int -> real)
    requires forall i | 0 <= i < n :: f(i) <= g(i)
    ensures SumTo(n, f) <= SumTo(n, g)
  {
    if n > 0 { SumMonotone(n - 1, f, g); }
  }

  /** A sum with a single non-zero term. */
  lemma {:induction false} OneTerm(n: nat, row: int, f: Vector, v: real)
    requires 0 <= row && (forall i | 0 <= i < n :: f(i) == if i == row then v else 0.0)
    ensures SumTo(n, f) == if row < n then v else 0.0
  {
    if n > 0 { OneTerm(n - 1, row, f, v); }
  }

  // --------------------------------------------- vectors, matrices, quadratic forms

  type Vector = int -> real
  type Matrix = (int, int) -> real

  function Dot(n: nat, v: Vector, x: Vector): real {
    SumTo(n, i => v(i) * x(i))
  }

  /** The i-th entry of M w. */
  function Row(n: nat, m: Matrix, w: Vector, i: int): real {
    SumTo(n, j => m(i, j) * w(j))
  }

  /** w' M w. */
  function Quad(n: nat, w: Vector, m: Matrix): real {
    SumTo(n, i => w(i) * Row(n, m, w, i))
  }

  /** Positive semidefinite: no quadratic form is negative. */
  ghost predicate Psd(n: nat, m: Matrix) {
    forall v: Vector :: Quad(n, v, m) >= 0.0
  }

  lemma RowLinear(n: nat, w: Vector, a: real, m: Matrix, b: real, k: Matrix, s: Matrix, i: int)
    requires forall j | 0 <= j < n :: s(i, j) == a * m(i, j) + b * k(i, j)
    ensures Row(n, s, w, i) == a * Row(n, m, w, i) + b * Row(n, k, w, i)
  {
    var f: Vector := j => m(i, j) * w(j);
    var g: Vector := j => k(i, j) * w(j);
    var h: Vector := j => s(i, j) * w(j);
    forall j | 0 <= j < n ensures h(j) == a * f(j) + b * g(j) {
      Distribute(w(j), a, m(i, j), b, k(i, j), s(i, j), f(j), g(j), h(j));
    }
    assert Row(n, m, w, i) == SumTo(n, f) && Row(n, k, w, i) == SumTo(n, g) && Row(n, s, w, i) == SumTo(n, h);
    hide *;
    SumLinear(n, a, f, b, g, h);
  }

  /** The i-th term of w' M w. */
  function QuadTerm(n: nat, w: Vector, m: Matrix, i: int): real { w(i) * Row(n, m, w, i) }

  lemma QuadTerms(n: nat, w: Vector, m: Matrix)
    ensures Quad(n, w, m) == SumTo(n, i => QuadTerm(n, w, m, i))
  {
    hide Row;
    SumEqual(n, i => w(i) * Row(n, m, w, i), i => QuadTerm(n, w, m, i));
  }

  lemma TermLinear(n: nat, w: Vector, a: real, m: Matrix, b: real, k: Matrix, s: Matrix, i: int)
    requires forall j | 0 <= j < n :: s(i, j) == a * m(i, j) + b * k(i, j)
    ensures QuadTerm(n, w, s, i) == a * QuadTerm(n, w, m, i) + b * QuadTerm(n, w, k, i)
  {
    RowLinear(n, w, a, m, b, k, s, i);
    hide Row;
    Distribute(w(i), a, Row(n, m, w, i), b, Row(n, k, w, i), Row(n, s, w, i),
      QuadTerm(n, w, m, i), QuadTerm(n, w, k, i), QuadTerm(n, w, s, i));
  }

  /** The quadratic form of a M + b K is a times that of M plus b times that of K. */
  lemma QuadLinear(n: nat, w: Vector, a: real, m: Matrix, b: real, k: Matrix, s: Matrix)
    requires forall i, j | 0 <= i < n && 0 <= j < n :: s(i, j) == a * m(i, j) + b * k(i, j)
    ensures Quad(n, w, s) == a * Quad(n, w, m) + b * Quad(n, w, k)
  {
    hide *;
    forall i | 0 <= i < n
      ensures QuadTerm(n, w, s, i) == a * QuadTerm(n, w, m, i) + b * QuadTerm(n, w, k, i)
    {
      TermLinear(n, w, a, m, b, k, s, i);
    }
    QuadTerms(n, w, m);
    QuadTerms(n, w, k);
    QuadTerms(n, w, s);
    SumLinear(n, a, i => QuadTerm(n, w, m, i), b, i => QuadTerm(n, w, k, i), i => QuadTerm(n, w, s, i));
  }

  lemma Distribute(w: real, a: real, x: real, b: real, y: real, z: real, p: real, q: real, r: real)
    requires z == a * x + b * y
    requires p == w * x && q == w * y && r == w * z
    ensures r == a * p + b * q
  {
    assert a * p == w * (a * x);
    assert b * q == w * (b * y);
  }

  lemma OuterStep(k: real, x: real, y: real, w: real, h: real, f: real)
    requires k == x * y && h == k * w && f == w * y
    ensures h == x * f
  {}

  lemma RowOuter(n: nat, w: Vector, x: Vector, y: Vector, k: Matrix, i: int)
    requires forall j | 0 <= j < n :: k(i, j) == x(i) * y(j)
    ensures Row(n, k, w, i) == x(i) * Dot(n, w, y)
  {
    var f: Vector := j => w(j) * y(j);
    var h: Vector := j => k(i, j) * w(j);
    forall j | 0 <= j < n ensures h(j) == x(i) * f(j) {
      OuterStep(k(i, j), x(i), y(j), w(j), h(j), f(j));
    }
    assert Row(n, k, w, i) == SumTo(n, h) && Dot(n, w, y) == SumTo(n, f);
    hide *;
    SumScale(n, x(i), f, h);
  }

  lemma Associate(x: real, y: real, w: real)
    ensures x * y * w == x * (w * y)
  {}

  /** The quadratic form of an outer product x y' is (w.x)(w.y). */
  lemma QuadOuter(n: nat, w: Vector, x: Vector, y: Vector, k: Matrix)
    requires forall i, j | 0 <= i < n && 0 <= j < n :: k(i, j) == x(i) * y(j)
    ensures Quad(n, w, k) == Dot(n, w, x) * Dot(n, w, y)
  {
    var d := Dot(n, w, y);
    var f: Vector := i => w(i) * x(i);
    var h: Vector := i => w(i) * Row(n, k, w, i);
    forall i | 0 <= i < n ensures h(i) == d * f(i) {
      RowOuter(n, w, x, y, k, i);
      Associate(w(i), x(i), d);
    }
    SumScale(n, d, f, h);
  }

  /** One exponential update M := a M + b x x' moves w'Mw by the same recursion on (w.x)^2. */
  lemma QuadBlend(n: nat, w: Vector, a: real, m: Matrix, b: real, x: Vector, s: Matrix)
    requires forall i, j | 0 <= i < n && 0 <= j < n :: s(i, j) == a * m(i, j) + b * (x(i) * x(j))
    ensures Quad(n, w, s) == a * Quad(n, w, m) + b * (Dot(n, w, x) * Dot(n, w, x))
  {
    BlendEntries(n, a, m, b, x, s);
    hide *;
    QuadOfOuter(n, w, x);
    QuadCombines(n, w, a, m, b, Outer(x), s);
    CombineIs(a, Quad(n, w, m), b, Dot(n, w, x));
  }

  function Combine(a: real, x: real, b: real, y: real): real { a * x + b * y }

  lemma CombineIs(a: real, x: real, b: real, d: real)
    ensures Combine(a, x, b, Square(d)) == a * x + b * (d * d)
  {}

  lemma QuadCombines(n: nat, w: Vector, a: real, m: Matrix, b: real, k: Matrix, s: Matrix)
    requires forall i, j | 0 <= i < n && 0 <= j < n :: s(i, j) == Combine(a, m(i, j), b, k(i, j))
    ensures Quad(n, w, s) == Combine(a, Quad(n, w, m), b, Quad(n, w, k))
  {
    hide Quad;
    QuadLinear(n, w, a, m, b, k, s);
  }

  function Outer(x: Vector): Matrix { (i, j) => x(i) * x(j) }

  lemma BlendEntries(n: nat, a: real, m: Matrix, b: real, x: Vector, s: Matrix)
    requires forall i, j | 0 <= i < n && 0 <= j < n :: s(i, j) == a * m(i, j) + b * (x(i) * x(j))
    ensures forall i, j | 0 <= i < n && 0 <= j < n :: s(i, j) == Combine(a, m(i, j), b, Outer(x)(i, j))
  {
    forall i, j | 0 <= i < n && 0 <= j < n ensures s(i, j) == Combine(a, m(i, j), b, Outer(x)(i, j)) {
      assert Outer(x)(i, j) == x(i) * x(j);
    }
  }

  lemma QuadOfOuter(n: nat, w: Vector, x: Vector)
    ensures Quad(n, w, Outer(x)) == Square(Dot(n, w, x))
  {
    hide Quad, Dot;
    QuadOuter(n, w, x, x, Outer(x));
  }

  // ------------------------------------------------------- Cauchy-Schwarz

  predicate IsMean(n: nat, x: Vector, mean: real) { n as real * mean == SumTo(n, x) }

  predicate IsProduct(p: real, x: real, y: real) { p == x * y }

  function SumOfSquares(n: nat, x: Vector): real { SumTo(n, i => Square(x(i))) }

  function SquaredSpread(n: nat, x: Vector, mean: real): real { SumTo(n, i => Square(x(i) - mean)) }

  /** The sum of squared deviations from the mean. */
  lemma Spread(n: nat, x: Vector, mean: real, m: real)
    requires n > 0 && IsMean(n, x, mean) && IsProduct(m, mean, SumTo(n, x))
    ensures SquaredSpread(n, x, mean) == SumOfSquares(n, x) - m
  {
    var sq: Vector := i => Square(x(i));
    var flat: Vector := i => mean;
    var lin: Vector := i => flat(i) - 2.0 * x(i);
    var dev: Vector := i => Square(x(i) - mean);
    hide SumTo;
    SumConstant(n, mean, flat);
    SumLinear(n, 1.0, flat, -2.0, x, lin);
    assert SumTo(n, lin) == -SumTo(n, x);
    hide IsMean;
    forall i | 0 <= i < n ensures dev(i) == 1.0 * sq(i) + mean * lin(i) {
      Deviation(x(i), mean);
    }
    SumLinear(n, 1.0, sq, mean, lin, dev);
    assert mean * -SumTo(n, x) == -m;
  }

  lemma Deviation(x: real, mean: real)
    ensures Square(x - mean) == Square(x) + mean * (mean - 2.0 * x)
  {}

  lemma SpreadNonNegative(n: nat, x: Vector, mean: real)
    ensures SquaredSpread(n, x, mean) >= 0.0
    ensures SquaredSpread(n, x, mean) == 0.0 ==> forall i | 0 <= i < n :: x(i) == mean
  {
    var dev: Vector := i => Square(x(i) - mean);
    forall i | 0 <= i < n ensures dev(i) >= 0.0 && (dev(i) == 0.0 <==> x(i) == mean) {
      SquareSign(x(i) - mean);
    }
    SumNonNegative(n, dev);
  }

  /** (x_0 + ... + x_{n-1})^2 <= n (x_0^2 + ... + x_{n-1}^2), with equality only when
      every x_i is the mean. */
  lemma SumSquared(n: nat, x: Vector, mean: real)
    requires n > 0 && IsMean(n, x, mean)
    ensures Square(SumTo(n, x)) <= n as real * SumOfSquares(n, x)
    ensures Square(SumTo(n, x)) == n as real * SumOfSquares(n, x)
        ==> forall i | 0 <= i < n :: x(i) == mean
  {
    var s, q := SumTo(n, x), SumOfSquares(n, x);
    var m, p := mean * s, n as real * q;
    assert IsProduct(m, mean, s) && IsProduct(p, n as real, q);
    hide *;
    Spread(n, x, mean, m);
    SpreadNonNegative(n, x, mean);
    ScaledSpread(n, x, mean, s, q, m, p);
  }

  lemma ScaledSpread(n: nat, x: Vector, mean: real, s: real, q: real, m: real, p: real)
    requires n > 0 && IsMean(n, x, mean) && s == SumTo(n, x)
    requires IsProduct(m, mean, s) && IsProduct(p, n as real, q) && q - m >= 0.0
    ensures Square(s) <= p
    ensures Square(s) == p ==> q - m == 0.0
  {
    hide SumTo;
    var d := q - m;
    var nd := n as real * d;
    assert n as real * m == Square(s);
    assert nd == p - Square(s);
    hide Square, IsMean;
    NonNegative(n as real, d, nd);
    if d > 0.0 { Positive(n as real, d, nd); }
  }
}
