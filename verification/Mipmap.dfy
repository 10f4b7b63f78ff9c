/** Reduction of a texture region by two: premultiplied colors and coverage averaged over 2 by 2 blocks. */
module Mipmap {
  import opened Common
  import opened Rgb565
  import opened Compositing
  import opened SpanDrawing

  datatype Size = Size(width: U16, height: U16)

  datatype Region = Region(sourceX: U16, sourceY: U16, width: U16, height: U16, stride: U16)

  datatype RasterError = InvalidTexture | InvalidMask

  datatype Outcome = Done(size: Size) | Failed(error: RasterError)

  function Ceil2(n: nat): nat {
    (n + 1) / 2
  }

  function ReducedSize(region: Region): Size {
    Size(Ceil2(region.width), Ceil2(region.height))
  }

  function Required(region: Region): nat {
    var bottom := region.sourceY + region.height;
    (if bottom == 0 then 0 else bottom - 1) * region.stride + region.sourceX + region.width
  }

  /** What is wrong with a region of a texture whose mask of opaque blocks was built for `blocks`. */
  function Invalid(t: Texture, blocks: Size, region: Region): Option<RasterError> {
    var right, bottom := region.sourceX + region.width, region.sourceY + region.height;
    if region.width == 0 || region.height == 0 || right > region.stride || right > t.width || bottom > t.height
       || region.stride != t.width || |t.pixels| < Required(region) || !Covers(t.coverage, Required(region))
    then Some(InvalidTexture)
    else if !t.coverage.Opaque? && blocks != Size(t.width, t.height) then Some(InvalidMask)
    else None
  }

  /** The region lies inside its texture. */
  predicate Inside(t: Texture, region: Region) {
    && region.width > 0 && region.height > 0
    && region.sourceX + region.width <= region.stride
    && Texel(t, Required(region) - 1)
  }

  function Index(region: Region, x: nat, y: nat): nat {
    (region.sourceY + y) * region.stride + region.sourceX + x
  }

  lemma IndexInside(t: Texture, region: Region, x: nat, y: nat)
    requires Inside(t, region) && x < region.width && y < region.height
    ensures Texel(t, Index(region, x, y))
  {
    Scale(region.sourceY + y, region.sourceY + region.height - 1, region.stride);
    TexelBefore(t, Index(region, x, y), Required(region) - 1);
  }

  function Edge(i: nat, limit: nat): nat
    requires limit > 0
  {
    if i < limit then i else limit - 1
  }

  /** The four texels under output (x, y); an odd edge repeats its last one. */
  function Block(t: Texture, region: Region, x: nat, y: nat): (q: Quad)
    requires Inside(t, region) && x < Ceil2(region.width) && y < Ceil2(region.height)
    ensures Texels(t, q)
  {
    var x1, y1 := Edge(2 * x + 1, region.width), Edge(2 * y + 1, region.height);
    IndexInside(t, region, 2 * x, 2 * y);
    IndexInside(t, region, x1, 2 * y);
    IndexInside(t, region, 2 * x, y1);
    IndexInside(t, region, x1, y1);
    Quad(Index(region, 2 * x, 2 * y), Index(region, x1, 2 * y), Index(region, 2 * x, y1), Index(region, x1, y1))
  }

  /** Every texel of the region is under the output that halves its coordinates. */
  lemma EveryTexelIsReduced(t: Texture, region: Region, x: nat, y: nat)
    requires Inside(t, region) && x < region.width && y < region.height
    ensures var q := Block(t, region, x / 2, y / 2);
      Index(region, x, y) in {q.v00, q.v01, q.v10, q.v11}
  {
    assert x == 2 * (x / 2) || x == Edge(2 * (x / 2) + 1, region.width);
    assert y == 2 * (y / 2) || y == Edge(2 * (y / 2) + 1, region.height);
  }

  function Sum(q: Quad): nat {
    q.v00 + q.v01 + q.v10 + q.v11
  }

  function Average(alpha: Quad): (a: Alpha)
    requires Within(alpha, 255)
  {
    (Sum(alpha) + 2) / 4
  }

  function WeightedMean(c: Quad, alpha: Quad): nat {
    if Sum(alpha) == 0 then 0 else (Sum(Premultiplied(c, alpha)) + Sum(alpha) / 2) / Sum(alpha)
  }

  lemma RoundedQuotient(weighted: nat, sum: nat, lo: nat, hi: nat)
    requires sum > 0 && lo * sum <= weighted <= hi * sum
    ensures lo <= (weighted + sum / 2) / sum <= hi
  {
    var q := (weighted + sum / 2) / sum;
    assert q * sum <= weighted + sum / 2 < (q + 1) * sum;
    if q > hi {
      Scale(hi + 1, q, sum);
    }
    if q < lo {
      Scale(q + 1, lo, sum);
    }
  }

  function Scaled(q: Quad, k: nat): Quad {
    Quad(k * q.v00, k * q.v01, k * q.v10, k * q.v11)
  }

  predicate Below(p: Quad, q: Quad) {
    p.v00 <= q.v00 && p.v01 <= q.v01 && p.v10 <= q.v10 && p.v11 <= q.v11
  }

  lemma BelowSum(p: Quad, q: Quad)
    requires Below(p, q)
    ensures Sum(p) <= Sum(q)
  {
  }

  lemma ScaledSum(q: Quad, k: nat)
    ensures Sum(Scaled(q, k)) == k * Sum(q)
  {
  }

  lemma ProductBetween(c: nat, a: nat, lo: nat, hi: nat)
    requires a > 0 ==> lo <= c <= hi
    ensures lo * a <= c * a <= hi * a
  {
    if a > 0 {
      Scale(lo, c, a);
      Scale(c, hi, a);
    }
  }

  lemma PremultipliedBetween(c: Quad, alpha: Quad, lo: nat, hi: nat)
    requires Between(c, alpha, lo, hi)
    ensures Below(Scaled(alpha, lo), Premultiplied(c, alpha)) && Below(Premultiplied(c, alpha), Scaled(alpha, hi))
  {
    ProductBetween(c.v00, alpha.v00, lo, hi);
    ProductBetween(c.v01, alpha.v01, lo, hi);
    ProductBetween(c.v10, alpha.v10, lo, hi);
    ProductBetween(c.v11, alpha.v11, lo, hi);
  }

  /** A reduced component lies between the least and the greatest of the covered texels it stands for. */
  lemma ReductionIsConvex(c: Quad, alpha: Quad, lo: nat, hi: nat)
    requires Sum(alpha) > 0 && Between(c, alpha, lo, hi)
    ensures lo <= WeightedMean(c, alpha) <= hi
  {
    hide Sum, Scaled, Below, Premultiplied, Between;
    PremultipliedBetween(c, alpha, lo, hi);
    BelowSum(Scaled(alpha, lo), Premultiplied(c, alpha));
    BelowSum(Premultiplied(c, alpha), Scaled(alpha, hi));
    ScaledSum(alpha, lo);
    ScaledSum(alpha, hi);
    RoundedQuotient(Sum(Premultiplied(c, alpha)), Sum(alpha), lo, hi);
  }

  /** The mean is the exact coverage-weighted mean rounded to the nearest integer. */
  lemma MeanIsNearest(c: Quad, alpha: Quad)
    requires Sum(alpha) > 0
    ensures 2 * Sum(Premultiplied(c, alpha)) - Sum(alpha) <= 2 * (WeightedMean(c, alpha) * Sum(alpha))
    ensures 2 * (WeightedMean(c, alpha) * Sum(alpha)) <= 2 * Sum(Premultiplied(c, alpha)) + Sum(alpha)
  {
    hide Sum, Premultiplied;
    var sum, weighted := Sum(alpha), Sum(Premultiplied(c, alpha));
    var q := (weighted + sum / 2) / sum;
    assert q * sum <= weighted + sum / 2 < q * sum + sum;
  }

  lemma MeanFits(c: Quad, alpha: Quad, f: Field)
    requires Within(c, Mask(f))
    ensures WeightedMean(c, alpha) <= Mask(f)
  {
    if Sum(alpha) > 0 {
      ReductionIsConvex(c, alpha, 0, Mask(f));
    }
  }

  /** Coverage stays between the least and the greatest of the block, so full and empty blocks stay full and empty. */
  lemma CoverageIsConvex(alpha: Quad, lo: nat, hi: nat)
    requires Within(alpha, 255)
    requires lo <= alpha.v00 <= hi && lo <= alpha.v01 <= hi && lo <= alpha.v10 <= hi && lo <= alpha.v11 <= hi
    ensures lo <= Average(alpha) <= hi
    ensures alpha == Quad(255, 255, 255, 255) ==> Average(alpha) == 255
    ensures Sum(alpha) <= 1 <==> Average(alpha) == 0
  {
  }

  function ReducedAlpha(t: Texture, region: Region, x: nat, y: nat): Alpha
    requires Inside(t, region) && x < Ceil2(region.width) && y < Ceil2(region.height)
  {
    Average(Coverages(t, Block(t, region, x, y)))
  }

  function ReducedComponent(t: Texture, region: Region, x: nat, y: nat, f: Field): (c: nat)
    requires Inside(t, region) && x < Ceil2(region.width) && y < Ceil2(region.height)
    ensures c <= Mask(f)
  {
    var q := Block(t, region, x, y);
    MeanFits(Components(t, q, f), Coverages(t, q), f);
    WeightedMean(Components(t, q, f), Coverages(t, q))
  }

  function ReducedColor(t: Texture, region: Region, x: nat, y: nat): U16
    requires Inside(t, region) && x < Ceil2(region.width) && y < Ceil2(region.height)
  {
    Pack(ReducedComponent(t, region, x, y, Red), ReducedComponent(t, region, x, y, Green),
         ReducedComponent(t, region, x, y, Blue))
  }

  // Word `i` of an output whose rows are `stride` apart: the reduced texel, or transparent padding.

  lemma RowOf(i: nat, stride: nat, rows: nat)
    requires stride > 0 && i < stride * rows
    ensures i / stride < rows
  {
    if i / stride >= rows {
      Scale(rows, i / stride, stride);
    }
  }

  function RowIn(i: nat, stride: nat, rows: nat): (y: nat)
    requires stride > 0 && i < stride * rows
    ensures y < rows
  {
    RowOf(i, stride, rows);
    i / stride
  }

  function ColumnIn(i: nat, stride: nat): (x: nat)
    requires stride > 0
    ensures x < stride
  {
    i % stride
  }

  function PaddedAlpha(t: Texture, region: Region, x: nat, y: nat): Alpha
    requires Inside(t, region) && y < Ceil2(region.height)
  {
    if x < Ceil2(region.width) then ReducedAlpha(t, region, x, y) else 0
  }

  function PaddedColor(t: Texture, region: Region, x: nat, y: nat): U16
    requires Inside(t, region) && y < Ceil2(region.height)
  {
    if x < Ceil2(region.width) then ReducedColor(t, region, x, y) else 0
  }

  function AlphaAt(t: Texture, region: Region, stride: nat, i: nat): Alpha
    requires Inside(t, region) && Ceil2(region.width) <= stride && i < stride * Ceil2(region.height)
  {
    PaddedAlpha(t, region, ColumnIn(i, stride), RowIn(i, stride, Ceil2(region.height)))
  }

  function ColorAt(t: Texture, region: Region, stride: nat, i: nat): U16
    requires Inside(t, region) && Ceil2(region.width) <= stride && i < stride * Ceil2(region.height)
  {
    PaddedColor(t, region, ColumnIn(i, stride), RowIn(i, stride, Ceil2(region.height)))
  }

  lemma Place(x: nat, y: nat, stride: nat)
    requires x < stride
    ensures (y * stride + x) / stride == y && (y * stride + x) % stride == x
  {
    var i := y * stride + x;
    var q, r := i / stride, i % stride;
    assert i == q * stride + r && 0 <= r < stride;
    if q < y {
      Scale(q + 1, y, stride);
    } else if q > y {
      Scale(y + 1, q, stride);
    }
  }

  lemma ValidIsInside(t: Texture, blocks: Size, region: Region)
    requires Invalid(t, blocks, region).None?
    ensures Inside(t, region)
  {
    hide Covers;
    var above := region.sourceY + region.height - 1;
    ProductIsNat(above, region.stride);
    assert Required(region) == above * region.stride + region.sourceX + region.width;
    CoversLast(t.coverage, Required(region));
  }

  /** A region is taken exactly if it is not empty, its rows are those of the texture, it lies inside the texture, its
      last texel exists with its coverage, and a covered texture's mask was built for its size. */
  lemma ValidExactly(t: Texture, blocks: Size, region: Region)
    ensures Invalid(t, blocks, region).None? <==>
      && region.width > 0 && region.height > 0 && region.stride == t.width
      && region.sourceX + region.width <= t.width && region.sourceY + region.height <= t.height
      && Texel(t, Index(region, region.width - 1, region.height - 1))
      && (t.coverage.Opaque? || blocks == Size(t.width, t.height))
  {
    hide Covers;
    if region.width > 0 && region.height > 0 {
      ProductIsNat(region.sourceY + region.height - 1, region.stride);
      assert Required(region) == Index(region, region.width - 1, region.height - 1) + 1;
    }
  }

  lemma CoversLast(c: Coverage, n: nat)
    requires n > 0 && Covers(c, n)
    ensures Covers(c, n - 1 + 1)
  {
  }

  lemma ComponentOf(t: Texture, region: Region, x: nat, y: nat, f: Field)
    requires Inside(t, region) && x < Ceil2(region.width) && y < Ceil2(region.height)
    ensures ReducedComponent(t, region, x, y, f)
         == WeightedMean(Components(t, Block(t, region, x, y), f), Coverages(t, Block(t, region, x, y)))
  {
  }

  /** The color of one output texel, gathered field by field from the lowest. */
  method GatherColor(t: Texture, region: Region, x: nat, y: nat) returns (color: U16)
    requires Inside(t, region) && x < Ceil2(region.width) && y < Ceil2(region.height)
    requires Sum(Coverages(t, Block(t, region, x, y))) > 0
    ensures color == ReducedColor(t, region, x, y)
  {
    hide ReducedComponent, Components, Coverages, Block, Sum, Premultiplied, Inside, Ceil2, FieldWord, Value, OrIn;
    var fields := [Blue, Green, Red];
    var q := Block(t, region, x, y);
    var coverage := Coverages(t, q);
    var sum := Sum(coverage);
    ghost var red, green := ReducedComponent(t, region, x, y, Red), ReducedComponent(t, region, x, y, Green);
    ghost var blue := ReducedComponent(t, region, x, y, Blue);
    var word: bv16 := 0;
    for i := 0 to 3
      invariant i == 0 ==> word == 0
      invariant i == 1 ==> word == OrIn(0, FieldWord(blue), Blue)
      invariant i == 2 ==> word == OrIn(OrIn(0, FieldWord(blue), Blue), FieldWord(green), Green)
      invariant i == 3 ==> word == OrIn(OrIn(OrIn(0, FieldWord(blue), Blue), FieldWord(green), Green), FieldWord(red), Red)
    {
      var weighted := Sum(Premultiplied(Components(t, q, fields[i]), coverage));
      ComponentOf(t, region, x, y, fields[i]);
      word := OrIn(word, FieldWord((weighted + sum / 2) / sum), fields[i]);
    }
    GatheredIsPacked(red, green, blue);
    color := Value(word);
  }

  method Downsample(t: Texture, blocks: Size, region: Region, colors: array<U16>, alpha: array<Alpha>, stride: U16)
    returns (r: Outcome)
    modifies colors, alpha
    ensures r == match Invalid(t, blocks, region)
                 case Some(e) => Failed(e)
                 case None =>
                   var size := ReducedSize(region);
                   if stride < size.width || colors.Length != stride * size.height || alpha.Length != stride * size.height
                   then Failed(InvalidTexture) else Done(size)
    ensures r.Failed? ==> colors[..] == old(colors[..]) && alpha[..] == old(alpha[..])
    ensures r.Done? ==> Inside(t, region) && r.size == ReducedSize(region) && r.size.width <= stride
    ensures r.Done? ==> colors.Length == alpha.Length == stride * r.size.height
    ensures r.Done? ==> forall i: nat :: i < colors.Length ==> colors[i] == ColorAt(t, region, stride, i)
    ensures r.Done? ==> forall i: nat :: i < alpha.Length ==> alpha[i] == AlphaAt(t, region, stride, i)
  {
    var invalid := Invalid(t, blocks, region);
    if invalid.Some? {
      return Failed(invalid.value);
    }
    ValidIsInside(t, blocks, region);
    var size := ReducedSize(region);
    var required := stride * size.height;
    if stride < size.width || colors.Length != required || alpha.Length != required {
      return Failed(InvalidTexture);
    }
    Reduce(t, region, size, colors, alpha, stride);
    r := Done(size);
  }

  method Reduce(t: Texture, region: Region, size: Size, colors: array<U16>, alpha: array<Alpha>, stride: U16)
    requires Inside(t, region) && size == ReducedSize(region) && size.width <= stride
    requires colors.Length == alpha.Length == stride * size.height
    modifies colors, alpha
    ensures forall i: nat :: i < colors.Length ==> colors[i] == ColorAt(t, region, stride, i)
    ensures forall i: nat :: i < alpha.Length ==> alpha[i] == AlphaAt(t, region, stride, i)
  {
    forall i | 0 <= i < colors.Length { colors[i] := 0; }
    forall i | 0 <= i < alpha.Length { alpha[i] := 0; }
    ReduceRows(t, region, size, colors, alpha, stride);
  }

  method ReduceRows(t: Texture, region: Region, size: Size, colors: array<U16>, alpha: array<Alpha>, stride: U16)
    requires Inside(t, region) && size == ReducedSize(region) && size.width <= stride
    requires colors.Length == alpha.Length == stride * size.height
    requires DoneUpTo(t, region, colors[..], alpha[..], stride, 0)
    modifies colors, alpha
    ensures DoneUpTo(t, region, colors[..], alpha[..], stride, stride * size.height)
  {
    hide ColorAt, AlphaAt, Inside, DoneUpTo;
    for y := 0 to size.height
      invariant DoneUpTo(t, region, colors[..], alpha[..], stride, y * stride)
    {
      Scale(y + 1, size.height, stride);
      NextRow(y, stride);
      ReduceRow(t, region, size, colors, alpha, stride, y, y * stride);
    }
  }

  /** The first `done` words are final and the rest still transparent. */
  ghost predicate DoneUpTo(t: Texture, region: Region, colors: seq<U16>, alpha: seq<Alpha>, stride: nat, done: nat)
    requires Inside(t, region) && Ceil2(region.width) <= stride
  {
    && |colors| == |alpha| == stride * Ceil2(region.height)
    && done <= |colors|
    && (forall i: nat :: i < done ==> colors[i] == ColorAt(t, region, stride, i))
    && (forall i: nat :: i < done ==> alpha[i] == AlphaAt(t, region, stride, i))
    && (forall i: nat :: done <= i < |colors| ==> colors[i] == 0)
    && (forall i: nat :: done <= i < |alpha| ==> alpha[i] == 0)
  }

  lemma Finish(t: Texture, region: Region, was: seq<U16>, wasAlpha: seq<Alpha>, colors: seq<U16>, alpha: seq<Alpha>,
               stride: nat, done: nat)
    requires Inside(t, region) && Ceil2(region.width) <= stride
    requires DoneUpTo(t, region, was, wasAlpha, stride, done) && done < |was|
    requires colors == was[done := ColorAt(t, region, stride, done)]
    requires alpha == wasAlpha[done := AlphaAt(t, region, stride, done)]
    ensures DoneUpTo(t, region, colors, alpha, stride, done + 1)
  {
    hide ColorAt, AlphaAt;
  }

  lemma {:induction false} PaddingIsDone(t: Texture, region: Region, colors: seq<U16>, alpha: seq<Alpha>, stride: nat,
                                         x: nat, y: nat)
    requires Inside(t, region) && Ceil2(region.width) <= x <= stride && y < Ceil2(region.height)
    requires DoneUpTo(t, region, colors, alpha, stride, y * stride + x)
    ensures DoneUpTo(t, region, colors, alpha, stride, (y + 1) * stride)
    decreases stride - x
  {
    hide ReducedColor, ReducedAlpha, Inside, Ceil2;
    if x < stride {
      var done := y * stride + x;
      Place(x, y, stride);
      Scale(y + 1, Ceil2(region.height), stride);
      assert ColorAt(t, region, stride, done) == 0 && AlphaAt(t, region, stride, done) == 0;
      assert colors == colors[done := 0] && alpha == alpha[done := 0];
      Finish(t, region, colors, alpha, colors, alpha, stride, done);
      PaddingIsDone(t, region, colors, alpha, stride, x + 1, y);
    }
  }

  method ReduceBlock(t: Texture, region: Region, x: nat, y: nat) returns (a: Alpha, color: U16)
    requires Inside(t, region) && x < Ceil2(region.width) && y < Ceil2(region.height)
    ensures a == ReducedAlpha(t, region, x, y) && color == ReducedColor(t, region, x, y)
  {
    hide ReducedColor, Inside, Block, Coverages;
    var coverage := Coverages(t, Block(t, region, x, y));
    var sum := Sum(coverage);
    a := (sum + 2) / 4;
    if sum == 0 {
      EmptyBlock(t, region, x, y);
      color := 0;
    } else {
      color := GatherColor(t, region, x, y);
    }
  }

  lemma TexelAt(t: Texture, region: Region, stride: nat, x: nat, y: nat, out: nat)
    requires Inside(t, region) && x < Ceil2(region.width) <= stride && y < Ceil2(region.height)
    requires out / stride == y && out % stride == x && out < stride * Ceil2(region.height)
    ensures AlphaAt(t, region, stride, out) == ReducedAlpha(t, region, x, y)
    ensures ColorAt(t, region, stride, out) == ReducedColor(t, region, x, y)
  {
    hide ReducedAlpha, ReducedColor, Inside;
  }

  method ReduceTexel(t: Texture, region: Region, colors: array<U16>, alpha: array<Alpha>, stride: U16, x: nat, y: nat,
                     out: nat)
    requires Inside(t, region) && x < Ceil2(region.width) <= stride && y < Ceil2(region.height)
    requires out / stride == y && out % stride == x && out < colors.Length == stride * Ceil2(region.height)
    requires DoneUpTo(t, region, colors[..], alpha[..], stride, out) && alpha.Length == colors.Length
    modifies colors, alpha
    ensures DoneUpTo(t, region, colors[..], alpha[..], stride, out + 1)
  {
    hide AlphaAt, ColorAt, ReducedAlpha, ReducedColor, Inside, DoneUpTo;
    ghost var was, wasAlpha := colors[..], alpha[..];
    var a, color := ReduceBlock(t, region, x, y);
    alpha[out] := a;
    colors[out] := color;
    TexelAt(t, region, stride, x, y, out);
    Finish(t, region, was, wasAlpha, colors[..], alpha[..], stride, out);
  }

  method ReduceRow(t: Texture, region: Region, size: Size, colors: array<U16>, alpha: array<Alpha>, stride: U16, y: nat,
                   start: nat)
    requires Inside(t, region) && size == ReducedSize(region) && size.width <= stride && y < size.height
    requires start == y * stride && start + stride <= colors.Length
    requires colors.Length == alpha.Length == stride * size.height
    requires DoneUpTo(t, region, colors[..], alpha[..], stride, start)
    modifies colors, alpha
    ensures DoneUpTo(t, region, colors[..], alpha[..], stride, start + stride)
  {
    hide ColorAt, AlphaAt, Inside, DoneUpTo;
    for x := 0 to size.width
      invariant DoneUpTo(t, region, colors[..], alpha[..], stride, start + x)
    {
      Place(x, y, stride);
      ReduceTexel(t, region, colors, alpha, stride, x, y, start + x);
    }
    PaddingIsDone(t, region, colors[..], alpha[..], stride, size.width, y);
    NextRow(y, stride);
  }

  lemma NextRow(y: nat, stride: nat)
    ensures (y + 1) * stride == y * stride + stride
  {
  }

  lemma EmptyBlock(t: Texture, region: Region, x: nat, y: nat)
    requires Inside(t, region) && x < Ceil2(region.width) && y < Ceil2(region.height)
    requires Sum(Coverages(t, Block(t, region, x, y))) == 0
    ensures ReducedColor(t, region, x, y) == 0
  {
    hide Block, Coverages, Components;
  }

  /** Every component of a texel that keeps some color stays within the bounds of the covered texels beneath it. */
  lemma ReducedTexelIsConvex(t: Texture, region: Region, x: nat, y: nat, f: Field, lo: nat, hi: nat)
    requires Inside(t, region) && x < Ceil2(region.width) && y < Ceil2(region.height)
    requires ReducedAlpha(t, region, x, y) > 0
    requires forall i: nat :: Texel(t, i) && At(t.coverage, i) > 0 ==> lo <= Component(t.pixels[i], f) <= hi
    ensures lo <= Component(ReducedColor(t, region, x, y), f) <= hi
  {
    var q := Block(t, region, x, y);
    ReductionIsConvex(Components(t, q, f), Coverages(t, q), lo, hi);
  }

  /** The reduced coverage is the mean of the four, rounded to the nearest integer. */
  lemma AverageIsNearest(alpha: Quad)
    requires Within(alpha, 255)
    ensures -2 <= 4 * Average(alpha) - Sum(alpha) <= 2
  {
  }

  /** The texels a reduction combines: the one at twice the coordinates, the one right of it, the one below it and the
      one below that; an odd edge repeats its last column or row. */
  function Beneath(region: Region, x: nat, y: nat): Quad {
    var left := region.sourceX + 2 * x;
    var right := if 2 * x + 1 < region.width then left + 1 else left;
    var top := (region.sourceY + 2 * y) * region.stride;
    var bottom := if 2 * y + 1 < region.height then top + region.stride else top;
    Quad(top + left, top + right, bottom + left, bottom + right)
  }

  lemma BlockIsBeneath(t: Texture, region: Region, x: nat, y: nat)
    requires Inside(t, region) && x < Ceil2(region.width) && y < Ceil2(region.height)
    ensures Block(t, region, x, y) == Beneath(region, x, y)
  {
    hide Inside, Texel;
    NextRow(region.sourceY + 2 * y, region.stride);
  }

  /** What a component of a reduced texel is, for the coverages and components beneath it: nothing without coverage,
      and otherwise the nearest integer to their mean weighted by coverage. */
  predicate NearestMean(component: nat, c: Quad, a: Quad) {
    var sum := a.v00 + a.v01 + a.v10 + a.v11;
    var weighted := c.v00 * a.v00 + c.v01 * a.v01 + c.v10 * a.v10 + c.v11 * a.v11;
    if sum == 0 then component == 0 else 2 * weighted - sum <= 2 * (component * sum) <= 2 * weighted + sum
  }

  lemma MeanIsNearestMean(c: Quad, alpha: Quad)
    ensures NearestMean(WeightedMean(c, alpha), c, alpha)
  {
    if Sum(alpha) > 0 {
      MeanIsNearest(c, alpha);
    }
  }

  /** What a reduction leaves at output texel (x, y), from the texture itself: the nearest integer to the mean of the
      coverages beneath it, and a color whose every component is their nearest weighted mean. */
  lemma ReducedTexel(t: Texture, region: Region, stride: nat, x: nat, y: nat, f: Field)
    requires Inside(t, region) && x < Ceil2(region.width) <= stride && y < Ceil2(region.height)
    ensures y * stride + x < stride * Ceil2(region.height)
    ensures Texels(t, Beneath(region, x, y))
    ensures var q := Beneath(region, x, y);
      var alpha, color := AlphaAt(t, region, stride, y * stride + x), ColorAt(t, region, stride, y * stride + x);
      && -2 <= 4 * alpha - Sum(Coverages(t, q)) <= 2
      && NearestMean(Component(color, f), Components(t, q, f), Coverages(t, q))
  {
    hide Component, AlphaAt, ColorAt, Coverages, Components, Inside, Average, WeightedMean, NearestMean, Beneath, Block,
         ReducedComponent, Sum, Texel;
    Scale(y + 1, Ceil2(region.height), stride);
    NextRow(y, stride);
    Place(x, y, stride);
    TexelAt(t, region, stride, x, y, y * stride + x);
    BlockIsBeneath(t, region, x, y);
    var q := Block(t, region, x, y);
    AverageIsNearest(Coverages(t, q));
    ComponentOf(t, region, x, y, f);
    MeanIsNearestMean(Components(t, q, f), Coverages(t, q));
  }
}
