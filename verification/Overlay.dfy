/** The volatility overlay: the scale computed by the study's array twin and by the production
    function. Square roots are taken by a function `sqrt` of which only its defining property is
    used. */
module Overlay {
  import opened Reals

  const VOL_TARGET: real := 0.10

  // ------------------------------------------------------------- the scale

  /** The array twin: the divisor is made safe before the branch is chosen. */
  function TwinScale(exAnte: real, realized: real, target: real, sMax: real): real {
    var sigma := Max(exAnte, realized);
    var safe := if sigma > 0.0 then sigma else 1.0;
    if sigma > 0.0 then Min(target / safe, sMax) else sMax
  }

  /** The clip applied when the scaled gross exceeds its cap. */
  function GrossClip(scale: real, gross: real, grossMax: real): real
    requires grossMax > 0.0
  {
    if scale * gross > grossMax then scale * grossMax / (scale * gross) else scale
  }

  function Gross(n: nat, w: Vector): real { SumTo(n, i => Abs(w(i))) }

  lemma ScaleFacts(exAnte: real, realized: real, target: real, sMax: real)
    requires target > 0.0 && sMax > 0.0
    ensures var s, sigma := TwinScale(exAnte, realized, target, sMax), Max(exAnte, realized);
      && 0.0 < s <= sMax
      && s * sigma <= target
      && (s == sMax || s * sigma == target)
  {
    var s, sigma := TwinScale(exAnte, realized, target, sMax), Max(exAnte, realized);
    if sigma > 0.0 {
      var q := target / sigma;
      Quotient(target, sigma, q);
      if q <= 0.0 { NonNegative(sigma, -q, sigma * -q); }
      Scaled(sigma, s, q, sigma * s, sigma * q);
    } else {
      NonNegative(s, -sigma, s * -sigma);
    }
  }

  lemma ClipFacts(scale: real, gross: real, grossMax: real)
    requires scale > 0.0 && gross >= 0.0 && grossMax > 0.0
    ensures var c := GrossClip(scale, gross, grossMax);
      && 0.0 < c <= scale
      && c * gross <= grossMax
      && (c == scale || c * gross == grossMax)
  {
    var g := scale * gross;
    if g > grossMax {
      assert gross > 0.0;
      var p := scale * grossMax;
      var c := p / g;
      Quotient(p, g, c);
      Positive(scale, grossMax, p);
      if c <= 0.0 { NonNegative(g, -c, g * -c); }
      var left := scale * (c * gross - grossMax);
      assert left == c * g - p == 0.0;
      if c * gross > grossMax { Positive(scale, c * gross - grossMax, left); }
      if c * gross < grossMax { Mixed(scale, c * gross - grossMax, left); }
      if c > scale { StrictlyScaled(gross, scale, c, gross * scale, gross * c); }
    }
  }

  // ---------------------------------------------- the production overlay

  /** The production function: the scale it reports and the final weights, re-clipped to the cap. */
  method VolTarget(
      sqrt: real -> real, n: nat, w: Vector, cov: Matrix, realized: real, target: real, sMax: real, grossMax: real)
    returns (ok: bool, final: Vector, s: real)
    requires IsSqrt(sqrt)
    ensures ok <==> realized >= 0.0 && target > 0.0 && sMax > 0.0 && grossMax > 0.0
    ensures ok ==> s == TwinScale(sqrt(Max(Quad(n, w, cov), 0.0)), realized, target, sMax)
    ensures ok ==> forall i | 0 <= i < n :: final(i) == GrossClip(s, Gross(n, w), grossMax) * w(i)
    ensures ok ==> Gross(n, final) <= grossMax
  {
    hide Quad, Gross, Max, GrossClip;
    final, s := w, 1.0;
    ok := realized >= 0.0 && target > 0.0 && sMax > 0.0 && grossMax > 0.0;
    if ok {
      var exAnte := sqrt(Max(Quad(n, w, cov), 0.0));
      var sigmaHat := Max(exAnte, realized);
      s := if sigmaHat <= 0.0 then sMax else Min(target / sigmaHat, sMax);
      assert s == TwinScale(exAnte, realized, target, sMax);
      hide TwinScale;
      ScaleFacts(exAnte, realized, target, sMax);
      final := Times(s, w);
      ScaledGross(n, w, s);
      var gross := Gross(n, final);
      if gross > grossMax { final := Times(grossMax / gross, final); }
      ClippedWeights(s, n, w, gross, grossMax, final);
    }
  }

  /** The re-clipped weights: one scale applied to every weight, holding the gross to its cap. */
  lemma ClippedWeights(s: real, n: nat, w: Vector, gross: real, grossMax: real, final: Vector)
    requires s > 0.0 && grossMax > 0.0 && gross == s * Gross(n, w)
    requires final == if gross > grossMax then Times(grossMax / gross, Times(s, w)) else Times(s, w)
    ensures forall i | 0 <= i < n :: final(i) == GrossClip(s, Gross(n, w), grossMax) * w(i)
    ensures Gross(n, final) <= grossMax
  {
    hide Gross;
    var g := Gross(n, w);
    var c := GrossClip(s, g, grossMax);
    GrossSign(n, w);
    ClipFacts(s, g, grossMax);
    if gross > grossMax { ClipIsRescale(s, g, gross, grossMax, grossMax / gross, n, w, final); }
    forall i | 0 <= i < n ensures final(i) == c * w(i) {}
    ScaledGross(n, w, c);
    SameGross(n, final, Times(c, w));
  }

  function Times(c: real, w: Vector): Vector { i => c * w(i) }

  lemma GrossSign(n: nat, w: Vector)
    ensures Gross(n, w) >= 0.0
  {
    var f: Vector := i => Abs(w(i));
    forall i | 0 <= i < n ensures f(i) >= 0.0 { AbsSign(w(i)); }
    SumNonNegative(n, f);
  }

  lemma AbsSign(x: real)
    ensures Abs(x) >= 0.0
  {}

  lemma SameGross(n: nat, x: Vector, y: Vector)
    requires forall i | 0 <= i < n :: x(i) == y(i)
    ensures Gross(n, x) == Gross(n, y)
  {
    SumEqual(n, i => Abs(x(i)), i => Abs(y(i)));
  }

  lemma ScaledGross(n: nat, w: Vector, c: real)
    requires c > 0.0
    ensures Gross(n, Times(c, w)) == c * Gross(n, w)
  {
    var f: Vector := i => Abs(w(i));
    var h: Vector := i => Abs(Times(c, w)(i));
    forall i | 0 <= i < n ensures h(i) == c * f(i) { AbsScaled(c, w(i), Times(c, w)(i)); }
    SumScale(n, c, f, h);
  }

  lemma AbsScaled(c: real, x: real, p: real)
    requires c > 0.0 && p == c * x
    ensures Abs(p) == c * Abs(x)
  {
    if x > 0.0 { Positive(c, x, p); }
    if x < 0.0 { Mixed(c, x, p); }
  }

  lemma ClipIsRescale(
      k: real, gross: real, g: real, grossMax: real, x: real, n: nat, w: Vector, final: Vector)
    requires k > 0.0 && grossMax > 0.0 && g == k * gross && g > grossMax && x == grossMax / g
    requires final == Times(x, Times(k, w))
    ensures forall i | 0 <= i < n :: final(i) == GrossClip(k, gross, grossMax) * w(i)
  {
    var y := k * grossMax / g;
    Quotient(grossMax, g, x);
    Quotient(k * grossMax, g, y);
    SameQuotient(k, grossMax, g, x, y, k * x);
    forall i | 0 <= i < n ensures final(i) == y * w(i) {
      assert final(i) == x * (k * w(i));
      assert x * (k * w(i)) == (k * x) * w(i);
    }
  }

  lemma SameQuotient(k: real, a: real, g: real, x: real, y: real, kx: real)
    requires g > 0.0 && a == x * g && k * a == y * g && kx == k * x
    ensures kx == y
  {
    var d := kx - y;
    assert d * g == 0.0;
    if d > 0.0 { Positive(d, g, d * g); }
    if d < 0.0 { Mixed(g, d, g * d); }
  }
}
