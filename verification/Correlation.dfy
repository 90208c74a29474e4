/** Correlation matrices: how far below zero an average correlation can go, what it makes of the
    volatility of an equal-weight book, and which equicorrelated matrices are semidefinite. */
module Correlation {
  import opened Reals
  import Frontier

  ghost predicate UnitDiagonal(n: nat, c: Matrix) { forall i | 0 <= i < n :: c(i, i) == 1.0 }

  function OffDiagonal(c: Matrix): Matrix { (i, j) => if i == j then 0.0 else c(i, j) }

  function RowTotal(n: nat, c: Matrix, i: int): real { SumTo(n, j => c(i, j)) }

  function GrandTotal(n: nat, c: Matrix): real { SumTo(n, i => RowTotal(n, c, i)) }

  /** The mean of the off-diagonal entries; a single series has none. */
  function MeanOffDiagonal(n: nat, c: Matrix): real {
    if n > 1 then GrandTotal(n, OffDiagonal(c)) / (n as real * (n as real - 1.0)) else 0.0
  }

  function Ones(): Vector { i => 1.0 }

  function Equal(n: nat): Vector
    requires n > 0
  {
    i => 1.0 / n as real
  }

  function Diagonal(d: Vector): Matrix { (i, j) => if i == j then d(i) else 0.0 }

  // ------------------------------------------------------ quadratic forms

  lemma QuadSame(n: nat, v: Vector, m: Matrix, k: Matrix)
    requires forall i, j | 0 <= i < n && 0 <= j < n :: m(i, j) == k(i, j)
    ensures Quad(n, v, m) == Quad(n, v, k)
  {
    forall i, j | 0 <= i < n && 0 <= j < n ensures k(i, j) == 1.0 * m(i, j) + 0.0 * m(i, j) {}
    QuadLinear(n, v, 1.0, m, 0.0, m, k);
  }

  /** Congruence: the quadratic form of D M D at v is that of M at D v. */
  lemma QuadCongruent(n: nat, v: Vector, d: Vector, u: Vector, m: Matrix, k: Matrix)
    requires forall i, j | 0 <= i < n && 0 <= j < n :: k(i, j) == d(i) * m(i, j) * d(j)
    requires forall i | 0 <= i < n :: u(i) == d(i) * v(i)
    ensures Quad(n, v, k) == Quad(n, u, m)
  {
    var f: Vector := i => v(i) * Row(n, k, v, i);
    var g: Vector := i => u(i) * Row(n, m, u, i);
    forall i | 0 <= i < n ensures f(i) == g(i) {
      RowCongruent(n, v, d, m, k, u, i);
      hide Row;
      assert f(i) == v(i) * (d(i) * Row(n, m, u, i));
    }
    SumEqual(n, f, g);
  }

  lemma RowCongruent(n: nat, v: Vector, d: Vector, m: Matrix, k: Matrix, u: Vector, i: int)
    requires 0 <= i < n && (forall j | 0 <= j < n :: k(i, j) == d(i) * m(i, j) * d(j))
    requires forall j | 0 <= j < n :: u(j) == d(j) * v(j)
    ensures Row(n, k, v, i) == d(i) * Row(n, m, u, i)
  {
    var f: Vector := j => m(i, j) * u(j);
    var h: Vector := j => k(i, j) * v(j);
    assert Row(n, k, v, i) == SumTo(n, h) && Row(n, m, u, i) == SumTo(n, f);
    forall j | 0 <= j < n ensures h(j) == d(i) * f(j) {
      hide *;
      Shuffle(d(i), m(i, j), d(j), v(j), k(i, j), u(j), h(j), f(j));
    }
    hide *;
    SumScale(n, d(i), f, h);
  }

  lemma Shuffle(a: real, m: real, b: real, v: real, k: real, u: real, p: real, q: real)
    requires k == a * m * b && u == b * v && p == k * v && q == m * u
    ensures p == a * q
  {
    assert p == a * (m * (b * v));
  }

  lemma QuadDiagonal(n: nat, v: Vector, d: Vector)
    ensures Quad(n, v, Diagonal(d)) == SumTo(n, i => d(i) * Square(v(i)))
  {
    var f: Vector := i => v(i) * Row(n, Diagonal(d), v, i);
    var h: Vector := i => d(i) * Square(v(i));
    forall i | 0 <= i < n ensures f(i) == h(i) {
      RowDiagonal(n, v, d, i);
      hide Row;
      Shuffled(d(i), v(i));
    }
    hide Row, Square, Diagonal;
    SumEqual(n, f, h);
  }

  lemma RowDiagonal(n: nat, v: Vector, d: Vector, i: int)
    requires 0 <= i < n
    ensures Row(n, Diagonal(d), v, i) == d(i) * v(i)
  {
    var f: Vector := j => Diagonal(d)(i, j) * v(j);
    var x := d(i) * v(i);
    forall j | 0 <= j < n ensures f(j) == if j == i then x else 0.0 {
      assert Diagonal(d)(i, j) == if i == j then d(i) else 0.0;
    }
    OneTerm(n, i, f, x);
  }

  lemma Shuffled(d: real, v: real)
    ensures v * (d * v) == d * Square(v)
  {}

  lemma DiagonalPsd(n: nat, d: Vector)
    requires forall i | 0 <= i < n :: d(i) >= 0.0
    ensures Psd(n, Diagonal(d))
  {
    forall v: Vector ensures Quad(n, v, Diagonal(d)) >= 0.0 {
      QuadDiagonal(n, v, d);
      var h: Vector := i => d(i) * Square(v(i));
      forall i | 0 <= i < n ensures h(i) >= 0.0 {
        SquareSign(v(i));
        NonNegative(d(i), Square(v(i)), h(i));
      }
      SumNonNegative(n, h);
    }
  }

  /** A semidefinite combination of semidefinite matrices. */
  lemma BlendPsd(n: nat, a: real, m: Matrix, b: real, k: Matrix, s: Matrix)
    requires a >= 0.0 && b >= 0.0 && Psd(n, m) && Psd(n, k)
    requires forall i, j | 0 <= i < n && 0 <= j < n :: s(i, j) == a * m(i, j) + b * k(i, j)
    ensures Psd(n, s)
  {
    hide Quad;
    forall v: Vector ensures Quad(n, v, s) >= 0.0 {
      QuadLinear(n, v, a, m, b, k, s);
      NonNegative(a, Quad(n, v, m), a * Quad(n, v, m));
      NonNegative(b, Quad(n, v, k), b * Quad(n, v, k));
    }
  }

  /** Congruence keeps a matrix semidefinite. */
  lemma CongruentPsd(n: nat, d: Vector, m: Matrix, k: Matrix)
    requires Psd(n, m)
    requires forall i, j | 0 <= i < n && 0 <= j < n :: k(i, j) == d(i) * m(i, j) * d(j)
    ensures Psd(n, k)
  {
    hide Quad;
    forall v: Vector ensures Quad(n, v, k) >= 0.0 {
      var u: Vector := i => d(i) * v(i);
      QuadCongruent(n, v, d, u, m, k);
      assert Quad(n, u, m) >= 0.0;
    }
  }

  function Congruent(d: Vector, m: Matrix): Matrix { (i, j) => d(i) * m(i, j) * d(j) }

  lemma CongruentKeepsPsd(n: nat, d: Vector, m: Matrix)
    requires Psd(n, m)
    ensures Psd(n, Congruent(d, m))
  {
    hide Psd;
    CongruentPsd(n, d, m, Congruent(d, m));
  }

  lemma PsdSame(n: nat, m: Matrix, k: Matrix)
    requires Psd(n, m)
    requires forall i, j | 0 <= i < n && 0 <= j < n :: m(i, j) == k(i, j)
    ensures Psd(n, k)
  {
    hide Quad;
    forall v: Vector ensures Quad(n, v, k) >= 0.0 { QuadSame(n, v, m, k); }
  }

  // -------------------------------------------------- the equal-weight book

  lemma QuadOfOnes(n: nat, c: Matrix)
    ensures Quad(n, Ones(), c) == GrandTotal(n, c)
  {
    forall i | 0 <= i < n ensures Ones()(i) * Row(n, c, Ones(), i) == RowTotal(n, c, i) {
      var f: Vector := j => c(i, j) * Ones()(j);
      var h: Vector := j => c(i, j);
      assert forall j | 0 <= j < n :: Ones()(j) == 1.0 && f(j) == c(i, j);
      SumEqual(n, f, h);
    }
    SumEqual(n, i => Ones()(i) * Row(n, c, Ones(), i), i => RowTotal(n, c, i));
  }

  lemma TotalLinear(n: nat, a: real, m: Matrix, b: real, k: Matrix, s: Matrix)
    requires forall i, j | 0 <= i < n && 0 <= j < n :: s(i, j) == a * m(i, j) + b * k(i, j)
    ensures GrandTotal(n, s) == a * GrandTotal(n, m) + b * GrandTotal(n, k)
  {
    hide GrandTotal, Quad;
    QuadLinear(n, Ones(), a, m, b, k, s);
    QuadOfOnes(n, s);
    QuadOfOnes(n, m);
    QuadOfOnes(n, k);
  }

  /** A total of non-negative entries vanishes only entry by entry. */
  lemma TotalNonNegative(n: nat, m: Matrix)
    requires forall i, j | 0 <= i < n && 0 <= j < n :: m(i, j) >= 0.0
    ensures GrandTotal(n, m) >= 0.0
    ensures GrandTotal(n, m) == 0.0 <==> forall i, j | 0 <= i < n && 0 <= j < n :: m(i, j) == 0.0
  {
    var rows: Vector := i => RowTotal(n, m, i);
    forall i | 0 <= i < n
      ensures rows(i) >= 0.0
      ensures rows(i) == 0.0 <==> forall j | 0 <= j < n :: m(i, j) == 0.0
    {
      RowNonNegative(n, m, i);
    }
    assert GrandTotal(n, m) == SumTo(n, rows);
    hide RowTotal, GrandTotal;
    SumNonNegative(n, rows);
    if forall i, j | 0 <= i < n && 0 <= j < n :: m(i, j) == 0.0 {
      forall i | 0 <= i < n ensures rows(i) == 0.0 {}
      SumConstant(n, 0.0, rows);
    } else if GrandTotal(n, m) == 0.0 {
      forall i, j | 0 <= i < n && 0 <= j < n ensures m(i, j) == 0.0 { assert rows(i) == 0.0; }
    }
  }

  lemma RowNonNegative(n: nat, m: Matrix, i: int)
    requires forall j | 0 <= j < n :: m(i, j) >= 0.0
    ensures RowTotal(n, m, i) >= 0.0
    ensures RowTotal(n, m, i) == 0.0 <==> forall j | 0 <= j < n :: m(i, j) == 0.0
  {
    var row: Vector := j => m(i, j);
    assert forall j | 0 <= j < n :: row(j) == m(i, j);
    SumNonNegative(n, row);
    if forall j | 0 <= j < n :: m(i, j) == 0.0 { SumConstant(n, 0.0, row); }
  }

  lemma UnitTotal(n: nat, c: Matrix)
    requires UnitDiagonal(n, c)
    ensures GrandTotal(n, c) == n as real + GrandTotal(n, OffDiagonal(c))
  {
    var s := OffDiagonal(c);
    forall i, j | 0 <= i < n && 0 <= j < n ensures c(i, j) == 1.0 * Diagonal(Ones())(i, j) + 1.0 * s(i, j) {
      DiagonalIs(i, j);
      OffDiagonalIs(c, i, j);
    }
    CountOnes(n);
    hide *;
    QuadLinear(n, Ones(), 1.0, Diagonal(Ones()), 1.0, s, c);
    QuadIdentity(n, Ones());
    QuadOfOnes(n, c);
    QuadOfOnes(n, s);
  }

  lemma DiagonalIs(i: int, j: int)
    ensures Diagonal(Ones())(i, j) == if i == j then 1.0 else 0.0
  {}

  lemma OffDiagonalIs(c: Matrix, i: int, j: int)
    ensures OffDiagonal(c)(i, j) == if i == j then 0.0 else c(i, j)
  {}

  lemma CountOnes(n: nat)
    ensures SumOfSquares(n, Ones()) == n as real
  {
    var f: Vector := i => Square(Ones()(i));
    forall i | 0 <= i < n ensures f(i) == 1.0 { assert Ones()(i) == 1.0; }
    SumConstant(n, 1.0, f);
  }

  lemma QuadOfEqual(n: nat, c: Matrix)
    requires n > 0
    ensures Quad(n, Equal(n), c) * Square(n as real) == GrandTotal(n, c)
  {
    hide *;
    ScaledMatrix(n, c);
    EqualScales(n);
    QuadOfOnes(n, c);
    QuadLinear(n, Equal(n), Square(n as real), c, 0.0, c, TimesSquare(n, c));
    QuadCongruent(n, Equal(n), Every(n as real), Ones(), c, TimesSquare(n, c));
  }

  function Every(x: real): Vector { i => x }

  function TimesSquare(n: nat, c: Matrix): Matrix { (i, j) => n as real * c(i, j) * n as real }

  lemma EqualScales(n: nat)
    requires n > 0
    ensures forall i :: Ones()(i) == Every(n as real)(i) * Equal(n)(i)
  {
    Quotient(1.0, n as real, 1.0 / n as real);
    forall i: int ensures Ones()(i) == Every(n as real)(i) * Equal(n)(i) {
      assert Equal(n)(i) == 1.0 / n as real && Every(n as real)(i) == n as real;
    }
  }

  lemma ScaledMatrix(n: nat, c: Matrix)
    ensures forall i, j :: TimesSquare(n, c)(i, j) == Square(n as real) * c(i, j) + 0.0 * c(i, j)
    ensures forall i, j :: TimesSquare(n, c)(i, j) == Every(n as real)(i) * c(i, j) * Every(n as real)(j)
  {
    forall i: int, j: int
      ensures TimesSquare(n, c)(i, j) == Square(n as real) * c(i, j) + 0.0 * c(i, j)
      ensures TimesSquare(n, c)(i, j) == Every(n as real)(i) * c(i, j) * Every(n as real)(j)
    {
      Sandwich(n as real, c(i, j));
    }
  }

  lemma Sandwich(n: real, c: real)
    ensures n * c * n == Square(n) * c
  {}

  /** The variance of the equal-weight book over any unit-diagonal matrix is
      (1 + (n - 1) mean) / n, mean the average off-diagonal correlation. */
  lemma EqualWeightVariance(n: nat, c: Matrix)
    requires n >= 2 && UnitDiagonal(n, c)
    ensures Quad(n, Equal(n), c) * n as real == Frontier.Crowding(n, MeanOffDiagonal(n, c))
  {
    hide Quad, GrandTotal, Equal, UnitDiagonal;
    UnitTotal(n, c);
    QuadOfEqual(n, c);
    VarianceSolves(n as real, Quad(n, Equal(n), c), GrandTotal(n, OffDiagonal(c)), MeanOffDiagonal(n, c));
  }

  lemma VarianceSolves(n: real, q: real, t: real, mean: real)
    requires n > 1.0 && q * Square(n) == n + t && mean == t / (n * (n - 1.0))
    ensures q * n == 1.0 + (n - 1.0) * mean
    ensures t == mean * (n * (n - 1.0))
  {
    var b := n * (n - 1.0);
    Positive(n, n - 1.0, b);
    Quotient(t, b, mean);
    var d := q * n - 1.0 - (n - 1.0) * mean;
    assert n * d == q * Square(n) - n - mean * b == 0.0 by {
      assert n * (q * n) == q * Square(n);
      assert n * ((n - 1.0) * mean) == mean * b;
    }
    if d > 0.0 { Positive(n, d, n * d); }
    if d < 0.0 { Mixed(n, d, n * d); }
  }

  /** No correlation matrix has an average correlation below -1/(n - 1): exactly there the
      equal-weight book has no variance, so the clip inside the volatility multiple never binds
      and its square is the variance. */
  lemma AverageFloor(sqrt: real -> real, n: nat, c: Matrix)
    requires IsSqrt(sqrt) && n >= 2 && UnitDiagonal(n, c) && Psd(n, c)
    ensures MeanOffDiagonal(n, c) >= Frontier.PsdFloor(n)
    ensures MeanOffDiagonal(n, c) == Frontier.PsdFloor(n) <==> Quad(n, Equal(n), c) == 0.0
    ensures Square(Frontier.BookVolMultiple(sqrt, n, MeanOffDiagonal(n, c))) == Quad(n, Equal(n), c)
  {
    assert Quad(n, Equal(n), c) >= 0.0;
    var q, mean := Quad(n, Equal(n), c), MeanOffDiagonal(n, c);
    FloorIs(n);
    hide *;
    EqualWeightVariance(n, c);
    Frontier.VolMultipleSquared(sqrt, n, mean);
    CrowdingIs(n, mean);
    FloorSolves(n as real, q, mean, Square(Frontier.BookVolMultiple(sqrt, n, mean)));
  }

  lemma FloorIs(n: nat)
    requires n >= 2
    ensures Frontier.PsdFloor(n) == -1.0 / (n as real - 1.0)
  {}

  lemma CrowdingIs(n: nat, rho: real)
    ensures Frontier.Crowding(n, rho) == 1.0 + (n as real - 1.0) * rho
  {}

  lemma FloorSolves(n: real, q: real, mean: real, s: real)
    requires n > 1.0 && q >= 0.0 && q * n == 1.0 + (n - 1.0) * mean && s * n == Max(q * n, 0.0)
    ensures mean >= -1.0 / (n - 1.0)
    ensures mean == -1.0 / (n - 1.0) <==> q == 0.0
    ensures s == q
  {
    var k := n - 1.0;
    var d := mean - -1.0 / k;
    Quotient(-1.0, k, -1.0 / k);
    assert k * d == q * n;
    NonNegative(q, n, q * n);
    if d < 0.0 { Mixed(k, d, k * d); }
    if q > 0.0 { Positive(q, n, q * n); }
    if s < q { StrictlyScaled(n, s, q, n * s, n * q); }
    if s > q { StrictlyScaled(n, q, s, n * q, n * s); }
  }

  /** A diagonal of n times v gives the equal-weight book variance v. */
  lemma EqualDiagonal(n: nat, v: real, d: real)
    requires n >= 1 && d == v * n as real
    ensures Quad(n, Equal(n), Diagonal(Every(d))) == v
  {
    hide *;
    QuadDiagonal(n, Equal(n), Every(d));
    EqualDiagonalSum(n, v, d);
  }

  lemma EqualDiagonalSum(n: nat, v: real, d: real)
    requires n >= 1 && d == v * n as real
    ensures SumTo(n, i => Every(d)(i) * Square(Equal(n)(i))) == v
  {
    var x := 1.0 / n as real;
    var each := v * x;
    EqualDiagonalTerms(n, v, d, x, each);
    Shares(v, n as real, x);
    var f: Vector := i => Every(d)(i) * Square(Equal(n)(i));
    assert forall i :: f(i) == each;
    hide *;
    SumConstant(n, each, f);
  }

  lemma EqualDiagonalTerms(n: nat, v: real, d: real, x: real, each: real)
    requires n >= 1 && d == v * n as real && x == 1.0 / n as real && each == v * x
    ensures forall i :: Every(d)(i) * Square(Equal(n)(i)) == each
  {
    Shares(v, n as real, x);
    forall i: int ensures Every(d)(i) * Square(Equal(n)(i)) == each {
      assert Every(d)(i) == d && Equal(n)(i) == x;
    }
  }

  lemma Shares(v: real, n: real, x: real)
    requires n > 0.0 && x == 1.0 / n
    ensures v * n * Square(x) == v * x
    ensures n * (v * x) == v
  {
    Quotient(1.0, n, x);
    assert v * n * (x * x) == v * x * (x * n);
    assert n * (v * x) == v * (x * n);
  }

  // --------------------------------------------- equicorrelated matrices

  function Equicorrelated(rho: real): Matrix { (i, j) => if i == j then 1.0 else rho }

  lemma QuadEquicorrelated(n: nat, v: Vector, rho: real)
    ensures Quad(n, v, Equicorrelated(rho))
         == (1.0 - rho) * SumOfSquares(n, v) + rho * Square(SumTo(n, v))
  {
    QuadIdentity(n, v);
    QuadAllOnes(n, v);
    EquicorrelatedBlend(rho);
    hide *;
    QuadLinear(n, v, 1.0 - rho, Diagonal(Ones()), rho, AllOnes(), Equicorrelated(rho));
  }

  function AllOnes(): Matrix { (i, j) => 1.0 }

  lemma EquicorrelatedBlend(rho: real)
    ensures forall i, j :: Equicorrelated(rho)(i, j) == (1.0 - rho) * Diagonal(Ones())(i, j) + rho * AllOnes()(i, j)
  {}

  lemma QuadIdentity(n: nat, v: Vector)
    ensures Quad(n, v, Diagonal(Ones())) == SumOfSquares(n, v)
  {
    QuadDiagonal(n, v, Ones());
    hide Quad;
    SumEqual(n, i => Ones()(i) * Square(v(i)), i => Square(v(i)));
  }

  lemma QuadAllOnes(n: nat, v: Vector)
    ensures Quad(n, v, AllOnes()) == Square(SumTo(n, v))
  {
    QuadOuter(n, v, Ones(), Ones(), AllOnes());
    hide Quad;
    SumEqual(n, i => v(i) * Ones()(i), v);
  }

  /** The equicorrelated matrix is semidefinite exactly from the floor up to one. */
  lemma EquicorrelatedPsd(n: nat, rho: real)
    requires n >= 2
    ensures Psd(n, Equicorrelated(rho)) <==> Frontier.PsdFloor(n) <= rho <= 1.0
  {
    hide Quad, SumOfSquares;
    var k := n as real - 1.0;
    Quotient(-1.0, k, -1.0 / k);
    assert Frontier.PsdFloor(n) == -1.0 / k;
    if Frontier.PsdFloor(n) <= rho <= 1.0 {
      Scaled(k, -1.0 / k, rho, -1.0, k * rho);
      forall v: Vector ensures Quad(n, v, Equicorrelated(rho)) >= 0.0 {
        QuadEquicorrelated(n, v, rho);
        SquareSign(SumTo(n, v));
        var mean := SumTo(n, v) / n as real;
        Quotient(SumTo(n, v), n as real, mean);
        SumSquared(n, v, mean);
        SquaresNonNegative(n, v);
        BlendSign(n as real, rho, SumOfSquares(n, v), Square(SumTo(n, v)));
      }
    } else if Psd(n, Equicorrelated(rho)) {
      QuadOnesEquicorrelated(n, rho);
      QuadSpreadEquicorrelated(n, rho);
      assert Quad(n, Ones(), Equicorrelated(rho)) >= 0.0;
      assert Quad(n, LongShort(), Equicorrelated(rho)) >= 0.0;
      hide Psd;
      if rho < -1.0 / k {
        StrictlyScaled(k, rho, -1.0 / k, k * rho, -1.0);
        Mixed(n as real, 1.0 + k * rho, n as real * (1.0 + k * rho));
      }
    }
  }

  lemma SquaresNonNegative(n: nat, v: Vector)
    ensures SumOfSquares(n, v) >= 0.0
  {
    var f: Vector := i => Square(v(i));
    forall i | 0 <= i < n ensures f(i) >= 0.0 { SquareSign(v(i)); }
    SumNonNegative(n, f);
  }

  lemma BlendSign(n: real, rho: real, q: real, s: real)
    requires n > 1.0 && 0.0 <= s <= n * q && q >= 0.0 && rho <= 1.0 && (n - 1.0) * rho >= -1.0
    ensures (1.0 - rho) * q + rho * s >= 0.0
  {
    var a, b := (1.0 - rho) * q, rho * s;
    NonNegative(1.0 - rho, q, a);
    if rho >= 0.0 {
      NonNegative(rho, s, b);
    } else {
      var nq := n * q;
      Scaled(-rho, s, nq, -rho * s, -rho * nq);
      NonNegative(1.0 + (n - 1.0) * rho, q, (1.0 + (n - 1.0) * rho) * q);
      assert a + rho * nq == (1.0 + (n - 1.0) * rho) * q;
    }
  }

  lemma QuadOnesEquicorrelated(n: nat, rho: real)
    requires n >= 2
    ensures Quad(n, Ones(), Equicorrelated(rho)) == n as real * (1.0 + (n as real - 1.0) * rho)
  {
    QuadEquicorrelated(n, Ones(), rho);
    SumConstant(n, 1.0, Ones());
    SumConstant(n, 1.0, i => Square(Ones()(i)));
  }

  /** Long the first series, short the second. */
  function LongShort(): Vector { i => if i == 0 then 1.0 else if i == 1 then -1.0 else 0.0 }

  lemma {:induction false} LongShortSums(n: nat)
    requires n >= 2
    ensures SumTo(n, LongShort()) == 0.0 && SumOfSquares(n, LongShort()) == 2.0
  {
    if n > 2 {
      LongShortSums(n - 1);
    } else {
      assert SumTo(1, LongShort()) == 1.0;
      assert SumTo(1, i => Square(LongShort()(i))) == 1.0;
    }
  }

  lemma QuadSpreadEquicorrelated(n: nat, rho: real)
    requires n >= 2
    ensures Quad(n, LongShort(), Equicorrelated(rho)) == 2.0 * (1.0 - rho)
  {
    QuadEquicorrelated(n, LongShort(), rho);
    LongShortSums(n);
  }

  /** An equicorrelated matrix averages to its own correlation, so with the floor itself a
      semidefinite matrix attains the floor. */
  lemma EquicorrelatedMean(n: nat, rho: real)
    requires n >= 2
    ensures MeanOffDiagonal(n, Equicorrelated(rho)) == rho
    ensures Psd(n, Equicorrelated(Frontier.PsdFloor(n)))
  {
    var c := Equicorrelated(rho);
    assert UnitDiagonal(n, c);
    EquicorrelatedPsd(n, Frontier.PsdFloor(n));
    assert Frontier.PsdFloor(n) <= 1.0 by { Quotient(-1.0, n as real - 1.0, Frontier.PsdFloor(n)); }
    UnitTotal(n, c);
    QuadOfOnes(n, c);
    QuadOnesEquicorrelated(n, rho);
    var b := n as real * (n as real - 1.0);
    Positive(n as real, n as real - 1.0, b);
    hide *;
    MeanSolves(n as real, rho, b, GrandTotal(n, OffDiagonal(c)), GrandTotal(n, c));
    MeanIs(n, c);
  }

  lemma MeanIs(n: nat, c: Matrix)
    requires n >= 2
    ensures MeanOffDiagonal(n, c) == GrandTotal(n, OffDiagonal(c)) / (n as real * (n as real - 1.0))
  {}

  lemma MeanSolves(n: real, rho: real, b: real, t: real, g: real)
    requires b > 0.0 && b == n * (n - 1.0) && g == n + t && g == n * (1.0 + (n - 1.0) * rho)
    ensures t / b == rho
  {
    assert t == rho * b;
    Quotient(t, b, rho);
  }
}
