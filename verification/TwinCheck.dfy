/** The check that pins the array twin to the production overlay, state by state. */
module TwinCheck {
  import opened Reals
  import opened Overlay
  import Correlation

  datatype Legs = Legs(exAnte: real, realized: real)

  datatype Branch = ZeroGuard | Ceiling | Ordinary

  function BranchOf(l: Legs, sMax: real): Branch {
    var sigma := Max(l.exAnte, l.realized);
    if sigma <= 0.0 then ZeroGuard else if VOL_TARGET / sigma > sMax then Ceiling else Ordinary
  }

  /** The injected states: the guard, both sides of the ceiling, and each leg chosen by max(). */
  function Boundary(sMax: real): seq<Legs>
    requires sMax > 0.0
  {
    var tiny, exact := VOL_TARGET / (sMax * 10.0), VOL_TARGET / sMax;
    [Legs(0.0, 0.0), Legs(tiny, 0.0), Legs(0.0, tiny), Legs(exact, exact),
     Legs(tiny, VOL_TARGET), Legs(VOL_TARGET, tiny)]
  }

  function Hits(states: seq<Legs>, sMax: real, b: Branch): nat {
    if |states| == 0 then 0
    else Hits(states[..|states| - 1], sMax, b) + if BranchOf(states[|states| - 1], sMax) == b then 1 else 0
  }

  lemma {:induction false} HitsSome(states: seq<Legs>, sMax: real, k: nat)
    requires k < |states|
    ensures Hits(states, sMax, BranchOf(states[k], sMax)) >= 1
  {
    var before := states[..|states| - 1];
    if k < |before| { HitsSome(before, sMax, k); }
  }

  /** The boundary states cover all three branches for every ceiling. */
  lemma BoundaryCovers(sMax: real)
    requires sMax > 0.0
    ensures forall k | 0 <= k < 6 :: Boundary(sMax)[k].exAnte >= 0.0 && Boundary(sMax)[k].realized >= 0.0
    ensures BranchOf(Boundary(sMax)[0], sMax) == ZeroGuard
    ensures BranchOf(Boundary(sMax)[1], sMax) == Ceiling
    ensures BranchOf(Boundary(sMax)[3], sMax) == Ordinary && sMax * Boundary(sMax)[3].exAnte == 0.1
    ensures Boundary(sMax)[1].exAnte > Boundary(sMax)[1].realized
    ensures Boundary(sMax)[2].realized > Boundary(sMax)[2].exAnte
    ensures Boundary(sMax)[4].realized == Boundary(sMax)[5].exAnte == 0.1
    ensures Boundary(sMax)[4].exAnte == Boundary(sMax)[5].realized
         == Boundary(sMax)[1].exAnte == Boundary(sMax)[2].realized
    ensures sMax * Boundary(sMax)[1].exAnte == 0.01
  {
    var tiny, exact := VOL_TARGET / (sMax * 10.0), VOL_TARGET / sMax;
    PositiveQuotient(VOL_TARGET, sMax * 10.0);
    PositiveQuotient(VOL_TARGET, sMax);
    Quotient(VOL_TARGET, sMax * 10.0, tiny);
    Quotient(VOL_TARGET, tiny, sMax * 10.0);
    Quotient(VOL_TARGET, sMax, exact);
    Quotient(VOL_TARGET, exact, sMax);
  }

  /** Which branch a state takes, for all states: the guard when neither leg is positive, the ordinary
      branch when the ceiling would reach the target on the larger leg, and the ceiling in between. */
  lemma BranchExactly(l: Legs, sMax: real)
    requires sMax > 0.0
    ensures BranchOf(l, sMax) == ZeroGuard <==> l.exAnte <= 0.0 && l.realized <= 0.0
    ensures BranchOf(l, sMax) == Ordinary <==> sMax * l.exAnte >= 0.1 || sMax * l.realized >= 0.1
    ensures BranchOf(l, sMax) == Ceiling <==>
      (l.exAnte > 0.0 || l.realized > 0.0) && sMax * l.exAnte < 0.1 && sMax * l.realized < 0.1
  {
    var sigma := Max(l.exAnte, l.realized);
    Scaled(sMax, l.exAnte, sigma, sMax * l.exAnte, sMax * sigma);
    Scaled(sMax, l.realized, sigma, sMax * l.realized, sMax * sigma);
    if sigma > 0.0 {
      var q := VOL_TARGET / sigma;
      Quotient(VOL_TARGET, sigma, q);
      if q > sMax {
        StrictlyScaled(sigma, sMax, q, sigma * sMax, sigma * q);
      } else {
        Scaled(sigma, q, sMax, sigma * q, sigma * sMax);
      }
    } else {
      NonNegative(sMax, -sigma, sMax * -sigma);
    }
  }

  /** The diagonal covariance of a state reproduces its ex-ante leg. */
  function Reproducing(n: nat, a: real): Matrix { Correlation.Diagonal(Correlation.Every(Square(a) * n as real)) }

  lemma ReproducesExAnte(sqrt: real -> real, n: nat, a: real)
    requires IsSqrt(sqrt) && n >= 1 && a >= 0.0
    ensures sqrt(Max(Quad(n, Correlation.Equal(n), Reproducing(n, a)), 0.0)) == a
  {
    var v, d := Square(a), Square(a) * n as real;
    SquareSign(a);
    ReproducingIs(n, a, d);
    hide *;
    Correlation.EqualDiagonal(n, v, d);
    Correlation.QuadSame(n, Correlation.Equal(n), Reproducing(n, a), Correlation.Diagonal(Correlation.Every(d)));
    RootOfSquare(sqrt, a);
    MaxZero(v);
  }

  lemma ReproducingIs(n: nat, a: real, d: real)
    requires d == Square(a) * n as real
    ensures forall i, j :: Reproducing(n, a)(i, j) == Correlation.Diagonal(Correlation.Every(d))(i, j)
  {}

  lemma MaxZero(v: real)
    requires v >= 0.0
    ensures Max(v, 0.0) == v
  {}

  /** Every state is compared with the production scale and its branch counted. The comparison and
      the coverage requirement hold for all visited states and all caps: the check never fails. */
  method PinTwin(sqrt: real -> real, visited: seq<Legs>, sMax: real, grossMax: real, n: nat)
    returns (ok: bool, zero: nat, ceiling: nat, ordinary: nat)
    requires IsSqrt(sqrt) && n >= 1 && sMax > 0.0 && grossMax > 0.0
    requires forall l | l in visited :: l.exAnte >= 0.0 && l.realized >= 0.0
    ensures ok
    ensures zero == Hits(visited + Boundary(sMax), sMax, ZeroGuard)
    ensures ceiling == Hits(visited + Boundary(sMax), sMax, Ceiling)
    ensures ordinary == Hits(visited + Boundary(sMax), sMax, Ordinary)
    ensures zero >= 1 && ceiling >= 1 && ordinary >= 1
    ensures zero + ceiling + ordinary == |visited| + 6
  {
    hide *;
    var states := visited + Boundary(sMax);
    StatesValid(visited, sMax);
    HitsNone(sMax);
    ok, zero, ceiling, ordinary := true, 0, 0, 0;
    for k := 0 to |states|
      invariant ok
      invariant zero == Hits(states[..k], sMax, ZeroGuard) && ceiling == Hits(states[..k], sMax, Ceiling)
      invariant ordinary == Hits(states[..k], sMax, Ordinary) && zero + ceiling + ordinary == k
    {
      var l := states[k];
      var accepted, w, s := VolTarget(
        sqrt, n, Correlation.Equal(n), Reproducing(n, l.exAnte), l.realized, VOL_TARGET, sMax, grossMax);
      ReproducesExAnte(sqrt, n, l.exAnte);
      ok := ok && accepted && s == TwinScale(l.exAnte, l.realized, VOL_TARGET, sMax);
      HitsStep(states, sMax, k);
      match BranchOf(l, sMax) {
        case ZeroGuard => zero := zero + 1;
        case Ceiling => ceiling := ceiling + 1;
        case Ordinary => ordinary := ordinary + 1;
      }
    }
    assert states[..|states|] == states;
    ok := ok && zero > 0 && ceiling > 0 && ordinary > 0;
  }

  lemma HitsNone(sMax: real)
    ensures forall b :: Hits([], sMax, b) == 0
  {}

  lemma HitsStep(states: seq<Legs>, sMax: real, k: nat)
    requires k < |states|
    ensures forall b ::
      Hits(states[..k + 1], sMax, b) == Hits(states[..k], sMax, b) + if BranchOf(states[k], sMax) == b then 1 else 0
  {
    assert states[..k + 1][..k] == states[..k];
  }

  /** All compared states are non-negative and every branch is among them. */
  lemma StatesValid(visited: seq<Legs>, sMax: real)
    requires sMax > 0.0
    requires forall l | l in visited :: l.exAnte >= 0.0 && l.realized >= 0.0
    ensures |Boundary(sMax)| == 6 && VOL_TARGET > 0.0
    ensures var states := visited + Boundary(sMax);
      && (forall k | 0 <= k < |states| :: states[k].exAnte >= 0.0 && states[k].realized >= 0.0)
      && forall b :: Hits(states, sMax, b) >= 1
  {
    var states := visited + Boundary(sMax);
    BoundaryCovers(sMax);
    forall k | 0 <= k < |states| ensures states[k].exAnte >= 0.0 && states[k].realized >= 0.0 {
      if k >= |visited| { assert states[k] == Boundary(sMax)[k - |visited|]; } else { assert states[k] in visited; }
    }
    HitsSome(states, sMax, |visited|);
    HitsSome(states, sMax, |visited| + 1);
    HitsSome(states, sMax, |visited| + 3);
    hide BranchOf, Boundary, Hits;
    forall b ensures Hits(states, sMax, b) >= 1 {
      match b { case ZeroGuard => case Ceiling => case Ordinary => }
    }
  }
}
