/** The mip chain of an owned texture: every level half the one before, down to a single texel, and the level chosen
    for a projected rectangle. */
module MipChain {
  import opened Common
  import opened Rgb565
  import opened Compositing
  import opened SpanDrawing
  import opened Mipmap

  function Full(t: Texture): Region {
    Region(0, 0, t.width, t.height, t.width)
  }

  /** A texture whose pixel and coverage planes are complete. */
  predicate Whole(t: Texture) {
    t.width > 0 && t.height > 0 && |t.pixels| >= t.width * t.height && Covers(t.coverage, t.width * t.height)
  }

  lemma WholeIsValid(t: Texture)
    requires Whole(t)
    ensures Invalid(t, Size(t.width, t.height), Full(t)).None?
    ensures Inside(t, Full(t))
  {
    NextRow(t.height - 1, t.width);
    ValidIsInside(t, Size(t.width, t.height), Full(t));
  }

  // Cutout masks.

  ghost predicate Binary(alpha: seq<Alpha>) {
    forall i: nat :: i < |alpha| ==> alpha[i] == 0 || alpha[i] == 255
  }

  /** The bits of a byte are independent: setting the lowest bit above all set ones changes no other. */
  lemma {:induction false} SetBit(b: nat, k: nat, m: nat)
    requires b < Power2(k)
    ensures Digit(b + Power2(k), k) == 1 && Digit(b, k) == 0
    ensures m < k ==> Digit(b + Power2(k), m) == Digit(b, m)
  {
    if k > 0 {
      assert (b + Power2(k)) / 2 == b / 2 + Power2(k - 1);
      SetBit(b / 2, k - 1, if m > 0 then m - 1 else 0);
    }
  }

  lemma {:induction false} Fits(k: nat, n: nat)
    requires k <= n
    ensures Power2(k) <= Power2(n)
  {
    if k < n {
      Fits(k, n - 1);
    }
  }

  /** `bits` holds one bit per texel of the first `n`, set where the coverage is full, and nothing after them. */
  ghost predicate Packed(alpha: seq<Alpha>, bits: seq<Alpha>, n: nat) {
    && n <= |alpha| && |bits| == (|alpha| + 7) / 8
    && (forall i: nat :: i < n ==> (Bit(bits, i) <==> alpha[i] == 255))
    && (forall j: nat :: j < |bits| && n <= 8 * j ==> bits[j] == 0)
    && (n % 8 != 0 ==> bits[n / 8] < Power2(n % 8))
  }

  lemma PackedNext(alpha: seq<Alpha>, was: seq<Alpha>, now: seq<Alpha>, n: nat)
    requires Packed(alpha, was, n) && n < |alpha| && was[n / 8] < Power2(n % 8)
    requires now == if alpha[n] == 255 then was[n / 8 := Raised(was[n / 8], n % 8)] else was
    ensures Packed(alpha, now, n + 1)
  {
    hide Power2, Digit;
    SetBit(was[n / 8], n % 8, 0);
    forall i: nat | i < n + 1 ensures Bit(now, i) <==> alpha[i] == 255 {
      SetBit(was[n / 8], n % 8, i % 8);
      assert i < n ==> (Bit(was, i) <==> alpha[i] == 255);
    }
    Doubles(n % 8);
  }

  lemma One()
    ensures Power2(0) == 1
  {
  }

  lemma Doubles(k: nat)
    ensures Power2(k + 1) == 2 * Power2(k)
  {
  }

  /** The byte `b | (1 << k)`, for a byte with nothing set from bit k on. */
  function Raised(b: nat, k: nat): Alpha
    requires k < 8 && b < Power2(k)
  {
    Fits(k + 1, 8);
    assert Power2(4) == 16 && Power2(8) == 256;
    b + Power2(k)
  }

  method BuildCutoutMask(alpha: seq<Alpha>, bits: array<Alpha>) returns (ok: bool)
    modifies bits
    ensures ok <==> bits.Length == (|alpha| + 7) / 8 && Binary(alpha)
    ensures ok ==> Packed(alpha, bits[..], |alpha|)
    ensures !ok ==> bits[..] == old(bits[..])
  {
    if bits.Length != (|alpha| + 7) / 8 {
      return false;
    }
    for i := 0 to |alpha|
      invariant forall k: nat :: k < i ==> alpha[k] == 0 || alpha[k] == 255
    {
      if alpha[i] != 0 && alpha[i] != 255 {
        return false;
      }
    }
    forall j | 0 <= j < bits.Length { bits[j] := 0; }
    for i := 0 to |alpha|
      invariant Packed(alpha, bits[..], i)
    {
      ghost var was := bits[..];
      if i % 8 == 0 {
        assert was[i / 8] == 0;
      }
      if alpha[i] == 255 {
        bits[i / 8] := Raised(bits[i / 8], i % 8);
      }
      PackedNext(alpha, was, bits[..], i);
    }
    ok := true;
  }

  predicate ShowsAt(c: Coverage, i: nat, a: Alpha) {
    Covers(c, i + 1) && At(c, i) == a
  }

  /** The coverage of `t` is the plane `alpha`. */
  ghost predicate Shows(t: Texture, alpha: seq<Alpha>) {
    && Covers(t.coverage, |alpha|)
    && (forall i: nat :: i < |alpha| ==> ShowsAt(t.coverage, i, alpha[i]))
  }

  lemma PackedShows(t: Texture, alpha: seq<Alpha>)
    requires t.coverage.Cutout? && Packed(alpha, t.coverage.bits, |alpha|) && Binary(alpha)
    ensures Shows(t, alpha)
  {
    forall i: nat | i < |alpha| ensures ShowsAt(t.coverage, i, alpha[i]) {
      assert (i + 8) / 8 <= (|alpha| + 7) / 8;
      assert Bit(t.coverage.bits, i) <==> alpha[i] == 255;
    }
  }

  /** Chooses the smallest representation of an alpha plane; none of the three changes what it shows. */
  method WithAlpha(size: Size, pixels: seq<U16>, alpha: seq<Alpha>) returns (t: Texture)
    requires size.width > 0 && size.height > 0 && |alpha| == size.width * size.height
    ensures t.width == size.width && t.height == size.height && t.pixels == pixels && Shows(t, alpha)
    ensures t.coverage.Opaque? <==> forall i: nat :: i < |alpha| ==> alpha[i] == 255
    ensures t.coverage.Alpha8? <==> !Binary(alpha)
  {
    var opaque8, binary := true, true;
    for i := 0 to |alpha|
      invariant opaque8 <==> forall k: nat :: k < i ==> alpha[k] == 255
      invariant binary <==> forall k: nat :: k < i ==> alpha[k] == 0 || alpha[k] == 255
    {
      opaque8 := opaque8 && alpha[i] == 255;
      binary := binary && (alpha[i] == 0 || alpha[i] == 255);
    }
    if opaque8 {
      t := Texture(size.width, size.height, pixels, Opaque);
    } else if binary {
      var bits := new Alpha[(|alpha| + 7) / 8](_ => 0);
      var ok := BuildCutoutMask(alpha, bits);
      t := Texture(size.width, size.height, pixels, Cutout(bits[..]));
      PackedShows(t, alpha);
    } else {
      t := Texture(size.width, size.height, pixels, Alpha8(alpha));
    }
  }

  // The chain.

  /** `m` is the reduction of all of `t`. */
  ghost predicate Halves(t: Texture, m: Texture) {
    && Whole(t) && Inside(t, Full(t)) && Whole(m)
    && m.width == Ceil2(t.width) && m.height == Ceil2(t.height)
    && |m.pixels| == m.width * m.height
    && (forall i: nat :: i < |m.pixels| ==>
          && m.pixels[i] == ColorAt(t, Full(t), m.width, i)
          && ShowsAt(m.coverage, i, AlphaAt(t, Full(t), m.width, i)))
  }

  lemma HalfSizes(t: Texture, m: Texture)
    requires Halves(t, m)
    ensures m.width == Ceil2(t.width) <= t.width && m.height == Ceil2(t.height) <= t.height
    ensures Whole(t) && Whole(m)
  {
    hide ColorAt, AlphaAt, Inside;
  }

  lemma LevelHalves(base: Texture, mips: seq<Texture>, k: nat)
    requires Chained(base, mips) && k < |mips|
    ensures Halves(Level(base, mips, k), Level(base, mips, k + 1)) && !Single(Level(base, mips, k))
  {
    hide Halves;
  }

  function Level(base: Texture, mips: seq<Texture>, k: nat): Texture
    requires k <= |mips|
  {
    if k == 0 then base else mips[k - 1]
  }

  ghost predicate Chained(base: Texture, mips: seq<Texture>) {
    forall k: nat :: k < |mips| ==> Halves(Level(base, mips, k), mips[k]) && !Single(Level(base, mips, k))
  }

  predicate Single(t: Texture) {
    t.width <= 1 && t.height <= 1
  }

  lemma GatheredHalf(t: Texture, m: Texture, colors: seq<U16>, alpha: seq<Alpha>)
    requires Whole(t) && Inside(t, Full(t)) && m.width == Ceil2(t.width) && m.height == Ceil2(t.height)
    requires m.pixels == colors && |colors| == |alpha| == m.width * m.height && Shows(m, alpha)
    requires forall i: nat :: i < |colors| ==> colors[i] == ColorAt(t, Full(t), m.width, i)
    requires forall i: nat :: i < |alpha| ==> alpha[i] == AlphaAt(t, Full(t), m.width, i)
    ensures Halves(t, m)
  {
    hide ColorAt, AlphaAt, Inside;
  }

  /** One reduction: what the body of the preparing loop appends. */
  method HalfOf(t: Texture) returns (m: Texture)
    requires Whole(t)
    ensures Halves(t, m)
  {
    var size := Size(Ceil2(t.width), Ceil2(t.height));
    var colors := new U16[size.width * size.height](_ => 0);
    var alpha := new Alpha[size.width * size.height](_ => 0);
    hide ColorAt, AlphaAt, Inside, Halves, Invalid;
    WholeIsValid(t);
    var outcome := Downsample(t, Size(t.width, t.height), Full(t), colors, alpha, size.width);
    m := WithAlpha(size, colors[..], alpha[..]);
    GatheredHalf(t, m, colors[..], alpha[..]);
  }

  class OwnedTexture {
    var base: Texture
    var mips: seq<Texture>

    constructor (size: Size, pixels: seq<U16>, alpha: seq<Alpha>)
      requires size.width > 0 && size.height > 0 && |alpha| == size.width * size.height == |pixels|
      ensures Whole(base) && base.width == size.width && base.height == size.height
      ensures base.pixels == pixels && Shows(base, alpha) && mips == []
    {
      var t := WithAlpha(size, pixels, alpha);
      base, mips := t, [];
    }

    method PrepareMips()
      requires Whole(base) && Chained(base, mips)
      modifies this
      ensures base == old(base) && old(mips) <= mips
      ensures Chained(base, mips) && Single(Level(base, mips, |mips|))
    {
      var source := Level(base, mips, |mips|);
      while source.width > 1 || source.height > 1
        invariant base == old(base) && old(mips) <= mips && Chained(base, mips)
        invariant source == Level(base, mips, |mips|) && Whole(source)
        decreases source.width + source.height
      {
        var m := HalfOf(source);
        Append(base, mips, m);
        mips := mips + [m];
        source := m;
      }
    }

    /** The smallest prepared level that covers the rectangle in both directions, or the base when none does. */
    method ForProjection(width: int, height: int) returns (selected: Texture, k: nat, mipped: bool)
      requires Chained(base, mips)
      ensures k <= |mips| && selected == Level(base, mips, k) && (mipped <==> k > 0)
      ensures k > 0 ==> CoversRect(selected, width, height)
      ensures forall j: nat :: k <= j < |mips| ==> !CoversRect(mips[j], width, height)
    {
      hide Halves;
      selected, k, mipped := base, 0, false;
      for i := 0 to |mips|
        invariant k == i && selected == Level(base, mips, k) && (mipped <==> k > 0)
        invariant k > 0 ==> CoversRect(selected, width, height)
      {
        if mips[i].width < width || mips[i].height < height {
          forall j: nat | k <= j < |mips| ensures !CoversRect(mips[j], width, height) {
            Shrinks(base, mips, i + 1, j + 1);
          }
          return;
        }
        selected, k, mipped := mips[i], i + 1, true;
      }
    }
  }

  predicate CoversRect(t: Texture, width: int, height: int) {
    t.width >= width && t.height >= height
  }

  lemma Append(base: Texture, mips: seq<Texture>, m: Texture)
    requires Chained(base, mips) && Halves(Level(base, mips, |mips|), m) && !Single(Level(base, mips, |mips|))
    ensures Chained(base, mips + [m])
  {
    hide Halves;
    var all := mips + [m];
    forall k: nat | k < |all| ensures Halves(Level(base, all, k), all[k]) && !Single(Level(base, all, k)) {
      assert Level(base, all, k) == Level(base, mips, k);
    }
  }

  lemma {:induction false} Shrinks(base: Texture, mips: seq<Texture>, j: nat, k: nat)
    requires Chained(base, mips) && j <= k <= |mips|
    ensures Level(base, mips, k).width <= Level(base, mips, j).width
    ensures Level(base, mips, k).height <= Level(base, mips, j).height
    decreases k
  {
    hide Chained, Level, Halves;
    if j < k {
      Shrinks(base, mips, j, k - 1);
      LevelHalves(base, mips, k - 1);
      HalfSizes(Level(base, mips, k - 1), Level(base, mips, k));
    }
  }

  // Sizes.

  function CeilDiv(n: nat, d: nat): nat
    requires d > 0
  {
    (n + d - 1) / d
  }

  lemma CeilBounds(n: nat, d: nat)
    requires n > 0 && d > 0
    ensures CeilDiv(n, d) > 0 && d * (CeilDiv(n, d) - 1) < n <= d * CeilDiv(n, d)
  {
    var q := (n + d - 1) / d;
    assert d * q + (n + d - 1) % d == n + d - 1;
    DistributeOne(d, q);
    assert q == 0 ==> d * q == 0;
  }

  lemma DistributeOne(d: int, q: int)
    ensures d * (q - 1) == d * q - d
  {
  }

  lemma CeilUnique(n: nat, d: nat, c: nat)
    requires n > 0 && d > 0 && c > 0 && d * (c - 1) < n <= d * c
    ensures CeilDiv(n, d) == c
  {
    CeilBounds(n, d);
    var q := CeilDiv(n, d);
    if q < c {
      Scale(q, c - 1, d);
    } else if c < q {
      Scale(c, q - 1, d);
    }
  }

  lemma Twice(d: int, h: int)
    ensures 2 * d * h == d * (2 * h)
  {
  }

  lemma CeilHalves(n: nat, d: nat)
    requires n > 0 && d > 0
    ensures Ceil2(CeilDiv(n, d)) == CeilDiv(n, 2 * d)
  {
    CeilBounds(n, d);
    var c := CeilDiv(n, d);
    var h := Ceil2(c);
    Twice(d, h);
    Twice(d, h - 1);
    Scale(c, 2 * h, d);
    Scale(2 * h - 2, c - 1, d);
    CeilUnique(n, 2 * d, h);
  }

  /** Level k of a chain is the base divided by the kth power of two, rounded up. */
  lemma {:induction false} LevelSize(base: Texture, mips: seq<Texture>, k: nat)
    requires Whole(base) && Chained(base, mips) && k <= |mips|
    ensures Level(base, mips, k).width == CeilDiv(base.width, Power2(k))
    ensures Level(base, mips, k).height == CeilDiv(base.height, Power2(k))
  {
    hide CeilDiv, Halves, Chained, Power2;
    if k == 0 {
      One();
      CeilUnique(base.width, 1, base.width);
      CeilUnique(base.height, 1, base.height);
    } else {
      LevelSize(base, mips, k - 1);
      LevelHalves(base, mips, k - 1);
      HalfSizes(Level(base, mips, k - 1), Level(base, mips, k));
      Doubles(k - 1);
      CeilHalves(base.width, Power2(k - 1));
      CeilHalves(base.height, Power2(k - 1));
    }
  }

  /** A prepared chain has exactly as many levels as it takes a power of two to reach both sides of the base. */
  lemma ChainLength(base: Texture, mips: seq<Texture>, n: nat)
    requires Whole(base) && Chained(base, mips) && Single(Level(base, mips, |mips|)) && n <= |mips|
    ensures base.width <= Power2(n) && base.height <= Power2(n) <==> n == |mips|
  {
    hide CeilDiv, Halves, Chained, Power2, Level;
    LevelSize(base, mips, n);
    CeilBounds(base.width, Power2(n));
    CeilBounds(base.height, Power2(n));
    if n < |mips| && base.width <= Power2(n) && base.height <= Power2(n) {
      LevelHalves(base, mips, n);
      OneStep(base.width, Power2(n));
      OneStep(base.height, Power2(n));
    }
  }

  lemma OneStep(n: nat, d: nat)
    requires 0 < n <= d
    ensures CeilDiv(n, d) == 1
  {
    CeilUnique(n, d, 1);
  }

  // Colors and coverage down the chain.

  ghost predicate ShownWithin(t: Texture, f: Field, lo: nat, hi: nat) {
    forall i: nat :: Texel(t, i) && At(t.coverage, i) > 0 ==> lo <= Component(t.pixels[i], f) <= hi
  }

  lemma HalfWord(t: Texture, m: Texture, i: nat)
    requires Halves(t, m) && Texel(m, i)
    ensures m.width == Ceil2(t.width) > 0 && Inside(t, Full(t)) && i < m.width * Ceil2(t.height)
    ensures m.pixels[i] == ColorAt(t, Full(t), m.width, i) && At(m.coverage, i) == AlphaAt(t, Full(t), m.width, i)
  {
    hide Inside, ColorAt, AlphaAt;
  }

  lemma BlockOf(t: Texture, region: Region, stride: nat, i: nat) returns (x: nat, y: nat)
    requires Inside(t, region) && stride == Ceil2(region.width) > 0 && i < stride * Ceil2(region.height)
    ensures x < Ceil2(region.width) && y < Ceil2(region.height)
    ensures ColorAt(t, region, stride, i) == ReducedColor(t, region, x, y)
    ensures AlphaAt(t, region, stride, i) == ReducedAlpha(t, region, x, y)
  {
    hide Inside, ReducedColor, ReducedAlpha, Ceil2;
    x, y := i % stride, i / stride;
    RowOf(i, stride, Ceil2(region.height));
  }

  /** Word i of a half is the reduction of one block. */
  lemma HalfAt(t: Texture, m: Texture, i: nat) returns (x: nat, y: nat)
    requires Halves(t, m) && Texel(m, i)
    ensures Inside(t, Full(t)) && x < Ceil2(t.width) && y < Ceil2(t.height)
    ensures m.pixels[i] == ReducedColor(t, Full(t), x, y) && At(m.coverage, i) == ReducedAlpha(t, Full(t), x, y)
  {
    hide Inside, ColorAt, AlphaAt, Halves, ReducedColor, ReducedAlpha;
    HalfWord(t, m, i);
    x, y := BlockOf(t, Full(t), m.width, i);
  }

  lemma HalfIsConvex(t: Texture, m: Texture, f: Field, lo: nat, hi: nat)
    requires Halves(t, m) && ShownWithin(t, f, lo, hi)
    ensures ShownWithin(m, f, lo, hi)
  {
    hide Halves, Inside, ReducedAlpha, ReducedColor;
    forall i: nat | Texel(m, i) && At(m.coverage, i) > 0 ensures lo <= Component(m.pixels[i], f) <= hi {
      var x, y := HalfAt(t, m, i);
      ReducedTexelIsConvex(t, Full(t), x, y, f, lo, hi);
    }
  }

  /** No level shows a component outside the range that the base shows: hidden colors never bleed in. */
  lemma {:induction false} ChainIsConvex(base: Texture, mips: seq<Texture>, k: nat, f: Field, lo: nat, hi: nat)
    requires Chained(base, mips) && k <= |mips| && ShownWithin(base, f, lo, hi)
    ensures ShownWithin(Level(base, mips, k), f, lo, hi)
  {
    hide ShownWithin, Halves;
    if k > 0 {
      ChainIsConvex(base, mips, k - 1, f, lo, hi);
      assert Halves(Level(base, mips, k - 1), mips[k - 1]);
      HalfIsConvex(Level(base, mips, k - 1), mips[k - 1], f, lo, hi);
    }
  }

  ghost predicate FullyOpaque(t: Texture) {
    forall i: nat :: Texel(t, i) ==> At(t.coverage, i) == 255
  }

  lemma OpaqueBlock(t: Texture, x: nat, y: nat)
    requires Inside(t, Full(t)) && FullyOpaque(t) && x < Ceil2(t.width) && y < Ceil2(t.height)
    ensures ReducedAlpha(t, Full(t), x, y) == 255
  {
    hide Block;
    CoverageIsConvex(Coverages(t, Block(t, Full(t), x, y)), 255, 255);
  }

  lemma HalfStaysOpaque(t: Texture, m: Texture)
    requires Halves(t, m) && FullyOpaque(t)
    ensures FullyOpaque(m)
  {
    hide Halves, Inside, ReducedAlpha, ReducedColor;
    forall i: nat | Texel(m, i) ensures At(m.coverage, i) == 255 {
      var x, y := HalfAt(t, m, i);
      OpaqueBlock(t, x, y);
    }
  }

  /** Reducing an opaque texture never lets the background through. */
  lemma {:induction false} ChainStaysOpaque(base: Texture, mips: seq<Texture>, k: nat)
    requires Chained(base, mips) && k <= |mips| && FullyOpaque(base)
    ensures FullyOpaque(Level(base, mips, k))
  {
    hide FullyOpaque, Halves;
    if k > 0 {
      ChainStaysOpaque(base, mips, k - 1);
      assert Halves(Level(base, mips, k - 1), mips[k - 1]);
      HalfStaysOpaque(Level(base, mips, k - 1), mips[k - 1]);
    }
  }
}
