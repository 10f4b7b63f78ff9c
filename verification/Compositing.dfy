/** The filtered compositing kernel: bilinear interpolation of premultiplied components and of coverage, with
    rounding at both levels, laid over the background. */
module Compositing {
  import opened Common
  import opened Rgb565

  const ONE: nat := 65536
  const HALF: nat := 32768

  /** Four texel values and the two fractions between them. */
  datatype Quad = Quad(v00: nat, v01: nat, v10: nat, v11: nat)

  predicate Within(q: Quad, bound: nat) {
    q.v00 <= bound && q.v01 <= bound && q.v10 <= bound && q.v11 <= bound
  }

  function Weighted(a: nat, b: nat, f: nat): nat
    requires f < ONE
  {
    ProductIsNat(a, ONE - f);
    ProductIsNat(b, f);
    a * (ONE - f) + b * f
  }

  lemma ProductIsNat(x: nat, y: nat)
    ensures x * y >= 0
  {
  }

  function Lerp(a: nat, b: nat, f: nat): nat
    requires f < ONE
  {
    (Weighted(a, b, f) + HALF) / ONE
  }

  function Interpolate(q: Quad, fx: nat, fy: nat): nat
    requires fx < ONE && fy < ONE
  {
    Lerp(Lerp(q.v00, q.v01, fx), Lerp(q.v10, q.v11, fx), fy)
  }

  function Premultiplied(c: Quad, alpha: Quad): Quad {
    Quad(c.v00 * alpha.v00, c.v01 * alpha.v01, c.v10 * alpha.v10, c.v11 * alpha.v11)
  }

  /** The component before the final clamp. */
  function Composite(c: Quad, alpha: Quad, fx: nat, fy: nat, background: nat): int
    requires fx < ONE && fy < ONE
  {
    var coverage := Interpolate(alpha, fx, fy);
    (Interpolate(Premultiplied(c, alpha), fx, fy) + background * (255 - coverage) + 127) / 255
  }

  // A value carried by coverage: `p` lies between lo and hi times `a`, up to a slack in 65536ths.

  predicate Carried(p: nat, a: nat, lo: nat, hi: nat, slack: nat) {
    ONE * lo * a - slack <= ONE * p <= ONE * hi * a + slack
  }

  lemma WeightedMonotone(a: nat, b: nat, f: nat, bound: nat)
    requires f < ONE && a <= bound && b <= bound
    ensures Weighted(a, b, f) <= ONE * bound
  {
    Scale(a, bound, ONE - f);
    Scale(b, bound, f);
  }

  lemma LerpBounded(a: nat, b: nat, f: nat, bound: nat)
    requires f < ONE && a <= bound && b <= bound
    ensures Lerp(a, b, f) <= bound
  {
    WeightedMonotone(a, b, f, bound);
  }

  /** No partial sum of an interpolation leaves u32 while the values are at most 63 * 255. */
  lemma LerpFits(a: nat, b: nat, f: nat)
    requires f < ONE && a <= 63 * 255 && b <= 63 * 255
    ensures a * (ONE - f) <= U32_MAX && b * f <= U32_MAX && Weighted(a, b, f) + HALF <= U32_MAX
    ensures Lerp(a, b, f) <= 63 * 255
  {
    WeightedMonotone(a, b, f, 63 * 255);
    ProductIsNat(a, ONE - f);
    ProductIsNat(b, f);
    PartsOf(a * (ONE - f), b * f, Weighted(a, b, f));
    hide Weighted;
  }

  lemma PartsOf(x: nat, y: nat, sum: nat)
    requires sum == x + y
    ensures x <= sum && y <= sum
  {
  }

  lemma InterpolateBounded(q: Quad, fx: nat, fy: nat, bound: nat)
    requires fx < ONE && fy < ONE && Within(q, bound)
    ensures Interpolate(q, fx, fy) <= bound
  {
    LerpBounded(q.v00, q.v01, fx, bound);
    LerpBounded(q.v10, q.v11, fx, bound);
    LerpBounded(Lerp(q.v00, q.v01, fx), Lerp(q.v10, q.v11, fx), fy, bound);
  }

  lemma Scale(x: int, y: int, k: nat)
    requires x <= y
    ensures x * k <= y * k
  {
  }

  lemma WeightedUpper(p: nat, q: nat, a: nat, b: nat, f: nat, m: nat, slack: nat)
    requires f < ONE
    requires ONE * p <= ONE * m * a + slack && ONE * q <= ONE * m * b + slack
    ensures Weighted(p, q, f) <= m * Weighted(a, b, f) + slack
  {
    Scale(ONE * p, ONE * m * a + slack, ONE - f);
    Scale(ONE * q, ONE * m * b + slack, f);
    assert ONE * p * (ONE - f) + ONE * q * f <= (ONE * m * a + slack) * (ONE - f) + (ONE * m * b + slack) * f;
    Distribute(m, a, b, f, slack);
    assert ONE * Weighted(p, q, f) == ONE * p * (ONE - f) + ONE * q * f;
  }

  lemma WeightedLower(p: nat, q: nat, a: nat, b: nat, f: nat, m: nat, slack: nat)
    requires f < ONE
    requires ONE * m * a - slack <= ONE * p && ONE * m * b - slack <= ONE * q
    ensures m * Weighted(a, b, f) - slack <= Weighted(p, q, f)
  {
    Scale(ONE * m * a - slack, ONE * p, ONE - f);
    Scale(ONE * m * b - slack, ONE * q, f);
    var less: int := slack;
    Distribute(m, a, b, f, -less);
    assert ONE * Weighted(p, q, f) == ONE * p * (ONE - f) + ONE * q * f;
  }

  lemma Distribute(m: nat, a: nat, b: nat, f: nat, slack: int)
    requires f < ONE
    ensures (ONE * m * a + slack) * (ONE - f) + (ONE * m * b + slack) * f == ONE * (m * Weighted(a, b, f) + slack)
  {
    var g := ONE - f;
    calc {
      (ONE * m * a + slack) * g + (ONE * m * b + slack) * f;
      ONE * m * a * g + ONE * m * b * f + slack * (g + f);
      { assert slack * (g + f) == slack * ONE; }
      ONE * (m * (a * g) + m * (b * f)) + slack * ONE;
      { assert m * (a * g) + m * (b * f) == m * (a * g + b * f); }
      ONE * (m * Weighted(a, b, f) + slack);
    }
  }

  lemma RoundedUpper(x: nat, y: nat, hi: nat, slack: nat)
    requires x <= hi * y + slack
    ensures ONE * ((x + HALF) / ONE) <= ONE * hi * ((y + HALF) / ONE) + slack + HALF * hi + HALF
  {
    var rounded := (y + HALF) / ONE;
    Rounded(x);
    Rounded(y);
    Scale(y, ONE * rounded + HALF, hi);
    Expand(hi, rounded, HALF);
  }

  lemma RoundedLower(x: nat, y: nat, lo: nat, slack: nat)
    requires lo * y - slack <= x
    ensures ONE * lo * ((y + HALF) / ONE) - slack - HALF * lo - HALF <= ONE * ((x + HALF) / ONE)
  {
    var rounded := (y + HALF) / ONE;
    Rounded(x);
    Rounded(y);
    Scale(ONE * rounded - HALF, y, lo);
    var half: int := HALF;
    Expand(lo, rounded, -half);
  }

  lemma Expand(k: nat, n: nat, shift: int)
    ensures (ONE * n + shift) * k == ONE * k * n + shift * k
  {
  }

  /** Rounding widens the slack by at most half a unit of the value and half a unit of the coverage. */
  lemma LerpCarries(p: nat, q: nat, a: nat, b: nat, f: nat, lo: nat, hi: nat, slack: nat)
    requires f < ONE && lo <= hi
    requires Carried(p, a, lo, hi, slack) && Carried(q, b, lo, hi, slack)
    ensures Carried(Lerp(p, q, f), Lerp(a, b, f), lo, hi, slack + HALF * hi + HALF)
  {
    hide Weighted;
    WeightedUpper(p, q, a, b, f, hi, slack);
    WeightedLower(p, q, a, b, f, lo, slack);
    RoundedUpper(Weighted(p, q, f), Weighted(a, b, f), hi, slack);
    RoundedLower(Weighted(p, q, f), Weighted(a, b, f), lo, slack);
    Scale(lo, hi, HALF);
  }

  lemma Rounded(x: nat)
    ensures x - HALF <= ONE * ((x + HALF) / ONE) <= x + HALF
    ensures ONE * ((x + HALF) / ONE) - HALF <= x <= ONE * ((x + HALF) / ONE) + HALF
  {
  }

  /** The components that count: those of texels with some coverage. */
  predicate Between(c: Quad, alpha: Quad, lo: nat, hi: nat) {
    && (alpha.v00 > 0 ==> lo <= c.v00 <= hi)
    && (alpha.v01 > 0 ==> lo <= c.v01 <= hi)
    && (alpha.v10 > 0 ==> lo <= c.v10 <= hi)
    && (alpha.v11 > 0 ==> lo <= c.v11 <= hi)
  }

  lemma ProductCarried(c: nat, a: nat, lo: nat, hi: nat)
    requires a > 0 ==> lo <= c <= hi
    ensures Carried(c * a, a, lo, hi, 0)
  {
    if a > 0 {
      Scale(lo, c, a);
      Scale(c, hi, a);
      assert ONE * lo * a == ONE * (lo * a) && ONE * hi * a == ONE * (hi * a);
    }
  }

  lemma PremultipliedCarried(c: Quad, alpha: Quad, fx: nat, fy: nat, lo: nat, hi: nat)
    requires fx < ONE && fy < ONE && lo <= hi && Between(c, alpha, lo, hi)
    ensures Carried(Interpolate(Premultiplied(c, alpha), fx, fy), Interpolate(alpha, fx, fy), lo, hi, ONE * hi + ONE)
  {
    hide Carried, Lerp;
    var p := Premultiplied(c, alpha);
    ProductCarried(c.v00, alpha.v00, lo, hi);
    ProductCarried(c.v01, alpha.v01, lo, hi);
    ProductCarried(c.v10, alpha.v10, lo, hi);
    ProductCarried(c.v11, alpha.v11, lo, hi);
    LerpCarries(p.v00, p.v01, alpha.v00, alpha.v01, fx, lo, hi, 0);
    LerpCarries(p.v10, p.v11, alpha.v10, alpha.v11, fx, lo, hi, 0);
    LerpCarries(Lerp(p.v00, p.v01, fx), Lerp(p.v10, p.v11, fx),
                Lerp(alpha.v00, alpha.v01, fx), Lerp(alpha.v10, alpha.v11, fx), fy, lo, hi, HALF * hi + HALF);
  }

  /** Compositing is convex: the unclamped component lies between the least and the greatest of the background
      and the covered texels, in spite of three roundings. */
  lemma CompositeIsConvex(c: Quad, alpha: Quad, fx: nat, fy: nat, background: nat, lo: nat, hi: nat)
    requires fx < ONE && fy < ONE && Within(alpha, 255) && Between(c, alpha, lo, hi)
    requires lo <= background <= hi <= 63
    ensures Interpolate(alpha, fx, fy) <= 255
    ensures lo <= Composite(c, alpha, fx, fy, background) <= hi
  {
    hide Interpolate, Premultiplied, Carried;
    InterpolateBounded(alpha, fx, fy, 255);
    PremultipliedCarried(c, alpha, fx, fy, lo, hi);
    OverBackground(Interpolate(Premultiplied(c, alpha), fx, fy), Interpolate(alpha, fx, fy), background, lo, hi);
  }

  lemma CarriedBounds(p: nat, a: nat, lo: nat, hi: nat)
    requires Carried(p, a, lo, hi, ONE * hi + ONE)
    ensures lo * a - hi - 1 <= p <= hi * a + hi + 1
  {
    assert ONE * lo * a == ONE * (lo * a) && ONE * hi * a == ONE * (hi * a);
  }

  /** The last rounding, of the carried component over what shows of the background. */
  lemma OverBackground(p: nat, coverage: nat, background: nat, lo: nat, hi: nat)
    requires coverage <= 255 && lo <= background <= hi <= 63
    requires Carried(p, coverage, lo, hi, ONE * hi + ONE)
    ensures lo <= (p + background * (255 - coverage) + 127) / 255 <= hi
  {
    hide Carried;
    CarriedBounds(p, coverage, lo, hi);
    var shown := 255 - coverage;
    Scale(background, hi, shown);
    Scale(lo, background, shown);
    assert hi * coverage + hi * shown == 255 * hi && lo * coverage + lo * shown == 255 * lo;
    Quotient(p + background * shown + 127, lo, hi);
  }

  lemma Quotient(total: int, lo: nat, hi: nat)
    requires 255 * lo <= total < 255 * (hi + 1)
    ensures lo <= total / 255 <= hi
  {
  }

  /** The clamp of the source never does anything: every component already fits its field. */
  lemma ClampIsIdle(c: Quad, alpha: Quad, fx: nat, fy: nat, background: nat, f: Field)
    requires fx < ONE && fy < ONE && Within(alpha, 255) && Within(c, Mask(f)) && background <= Mask(f)
    ensures 0 <= Composite(c, alpha, fx, fy, background) <= Mask(f)
    ensures Interpolate(alpha, fx, fy) <= 255
  {
    CompositeIsConvex(c, alpha, fx, fy, background, 0, Mask(f));
  }

  /** Coverage that rounds to nothing leaves the background as it was. */
  lemma NoCoverageNoChange(c: Quad, alpha: Quad, fx: nat, fy: nat, background: nat)
    requires fx < ONE && fy < ONE && Within(alpha, 255) && Within(c, 63) && background <= 63
    requires Interpolate(alpha, fx, fy) == 0
    ensures Composite(c, alpha, fx, fy, background) == background
  {
    hide Interpolate, Premultiplied;
    PremultipliedCarried(c, alpha, fx, fy, 0, 63);
  }

  // The same pixel without any rounding, in units of a 65536th of a 65536th.

  const UNIT: nat := ONE * ONE

  function ExactInterpolation(q: Quad, fx: nat, fy: nat): nat
    requires fx < ONE && fy < ONE
  {
    Weighted(Weighted(q.v00, q.v01, fx), Weighted(q.v10, q.v11, fx), fy)
  }

  /** 255 times the component of the exact premultiplied composition. */
  function ExactComposite(c: Quad, alpha: Quad, fx: nat, fy: nat, background: nat): int
    requires fx < ONE && fy < ONE
  {
    ExactInterpolation(Premultiplied(c, alpha), fx, fy) + background * (255 * UNIT - ExactInterpolation(alpha, fx, fy))
  }

  predicate Near(x: int, y: int, error: int) {
    y - error <= x <= y + error
  }

  lemma WeightedNear(a: nat, b: nat, c: nat, d: nat, f: nat, error: nat)
    requires f < ONE && Near(a, c, error) && Near(b, d, error)
    ensures Near(Weighted(a, b, f), Weighted(c, d, f), error * ONE)
  {
    Scale(a, c + error, ONE - f);
    Scale(c - error, a, ONE - f);
    Scale(b, d + error, f);
    Scale(d - error, b, f);
    assert (c + error) * (ONE - f) == c * (ONE - f) + error * (ONE - f);
    assert (c - error) * (ONE - f) == c * (ONE - f) - error * (ONE - f);
    assert (d + error) * f == d * f + error * f && (d - error) * f == d * f - error * f;
    assert error * (ONE - f) + error * f == error * ONE;
  }

  lemma WeightedScaled(a: nat, b: nat, f: nat)
    requires f < ONE
    ensures Weighted(ONE * a, ONE * b, f) == ONE * Weighted(a, b, f)
  {
    assert ONE * a * (ONE - f) == ONE * (a * (ONE - f)) && ONE * b * f == ONE * (b * f);
  }

  /** Two levels of rounding move an interpolated value by at most one. */
  lemma InterpolateIsAccurate(q: Quad, fx: nat, fy: nat)
    requires fx < ONE && fy < ONE
    ensures Near(UNIT * Interpolate(q, fx, fy), ExactInterpolation(q, fx, fy), UNIT)
  {
    hide Weighted;
    var top, bottom := Weighted(q.v00, q.v01, fx), Weighted(q.v10, q.v11, fx);
    var l0, l1 := Lerp(q.v00, q.v01, fx), Lerp(q.v10, q.v11, fx);
    Rounded(top);
    Rounded(bottom);
    WeightedNear(ONE * l0, ONE * l1, top, bottom, fy, HALF);
    WeightedScaled(l0, l1, fy);
    Rounded(Weighted(l0, l1, fy));
  }

  /** The composited component is less than one away from the exact composition: within 191 255ths. */
  lemma CompositeIsAccurate(c: Quad, alpha: Quad, fx: nat, fy: nat, background: nat)
    requires fx < ONE && fy < ONE && background <= 63
    ensures Near(255 * UNIT * Composite(c, alpha, fx, fy, background), ExactComposite(c, alpha, fx, fy, background),
                 191 * UNIT)
  {
    hide Interpolate, ExactInterpolation, Premultiplied;
    var p := Premultiplied(c, alpha);
    InterpolateIsAccurate(p, fx, fy);
    InterpolateIsAccurate(alpha, fx, fy);
    OverBackgroundNear(Interpolate(p, fx, fy), Interpolate(alpha, fx, fy), ExactInterpolation(p, fx, fy),
                       ExactInterpolation(alpha, fx, fy), background);
  }

  lemma OverBackgroundNear(p: int, a: int, exactP: int, exactA: int, background: nat)
    requires background <= 63 && Near(UNIT * p, exactP, UNIT) && Near(UNIT * a, exactA, UNIT)
    ensures Near(255 * UNIT * ((p + background * (255 - a) + 127) / 255),
                 exactP + background * (255 * UNIT - exactA), 191 * UNIT)
  {
    var total := p + background * (255 - a);
    Scale(UNIT * a, exactA + UNIT, background);
    Scale(exactA - UNIT, UNIT * a, background);
    assert UNIT * (background * (255 - a)) == background * (255 * UNIT) - UNIT * a * background;
    assert (exactA + UNIT) * background == exactA * background + UNIT * background;
    assert (exactA - UNIT) * background == exactA * background - UNIT * background;
    assert background * (255 * UNIT - exactA) == background * (255 * UNIT) - exactA * background;
    assert Near(UNIT * total, exactP + background * (255 * UNIT - exactA), 64 * UNIT);
    assert Near(255 * ((total + 127) / 255), total, 127);
  }

  lemma FullInterpolation(fx: nat, fy: nat)
    requires fx < ONE && fy < ONE
    ensures Interpolate(Quad(255, 255, 255, 255), fx, fy) == 255
  {
    assert Weighted(255, 255, fx) == 255 * ONE && Weighted(255, 255, fy) == 255 * ONE;
  }

  /** Between fully covered texels nothing of the background shows. */
  lemma FullCoverageHidesBackground(c: Quad, fx: nat, fy: nat, background: nat, lo: nat, hi: nat)
    requires fx < ONE && fy < ONE && lo <= hi <= 63 && background <= 63
    requires Between(c, Quad(255, 255, 255, 255), lo, hi)
    ensures lo <= Composite(c, Quad(255, 255, 255, 255), fx, fy, background) <= hi
  {
    hide Interpolate, Premultiplied, Carried;
    var alpha := Quad(255, 255, 255, 255);
    FullInterpolation(fx, fy);
    PremultipliedCarried(c, alpha, fx, fy, lo, hi);
    OverBackground(Interpolate(Premultiplied(c, alpha), fx, fy), 255, lo, lo, hi);
  }

  /** Every intermediate value of the kernel fits u32, and the one subtraction cannot go below zero. */
  lemma KernelFits(c: Quad, alpha: Quad, fx: nat, fy: nat, background: nat)
    requires fx < ONE && fy < ONE && Within(alpha, 255) && Within(c, 63) && background <= 63
    ensures var p := Premultiplied(c, alpha);
      var coverage := Interpolate(alpha, fx, fy);
      && Within(p, 63 * 255)
      && Weighted(p.v00, p.v01, fx) + HALF <= U32_MAX && Weighted(p.v10, p.v11, fx) + HALF <= U32_MAX
      && Weighted(Lerp(p.v00, p.v01, fx), Lerp(p.v10, p.v11, fx), fy) + HALF <= U32_MAX
      && Weighted(alpha.v00, alpha.v01, fx) + HALF <= U32_MAX && Weighted(alpha.v10, alpha.v11, fx) + HALF <= U32_MAX
      && coverage <= 255
      && Interpolate(p, fx, fy) + background * (255 - coverage) + 127 <= U32_MAX
  {
    hide Interpolate, Lerp, Weighted;
    var p := Premultiplied(c, alpha);
    ProductFits(c.v00, alpha.v00);
    ProductFits(c.v01, alpha.v01);
    ProductFits(c.v10, alpha.v10);
    ProductFits(c.v11, alpha.v11);
    LerpFits(p.v00, p.v01, fx);
    LerpFits(p.v10, p.v11, fx);
    LerpFits(Lerp(p.v00, p.v01, fx), Lerp(p.v10, p.v11, fx), fy);
    LerpFits(alpha.v00, alpha.v01, fx);
    LerpFits(alpha.v10, alpha.v11, fx);
    InterpolateBounded(alpha, fx, fy, 255);
    InterpolateBounded(p, fx, fy, 63 * 255);
    ProductFits(background, 255 - Interpolate(alpha, fx, fy));
  }

  lemma ProductFits(c: nat, a: nat)
    requires c <= 63 && a <= 255
    ensures c * a <= 63 * 255
  {
    Scale(c, 63, a);
  }
}
