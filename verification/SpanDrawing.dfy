/** Drawing sampled spans, blits and cutouts into a slice of the frame buffer. A slice is an array and the index it
    starts at. The blend of two colors is any pure function; destination words are in native or in wire order. */
module SpanDrawing {
  import opened Common
  import opened Rgb565
  import opened Compositing

  type Blend = (U16, U16, Alpha) -> U16

  datatype Column = Column(first: U16, fraction: U16)

  /** A validated row mapping: two texture rows and, for each destination pixel, a texel column. */
  datatype Span = Span(texture: Texture, columns: seq<Column>, row0: nat, row1: nat, lastColumn: U16,
                       fractionY: U16, bilinear: bool)
  {
    /** Every texel a column can name exists in both rows, and the column after it is a u16. */
    predicate Valid() {
      && lastColumn < 65535
      && Texel(texture, row0 + lastColumn) && Texel(texture, row1 + lastColumn)
      && forall k :: 0 <= k < |columns| ==> columns[k].first <= lastColumn
    }

    function Slice(from: nat, end: nat): (s: Span)
      requires from <= end <= |columns|
      ensures Valid() ==> s.Valid()
    {
      this.(columns := columns[from..end])
    }

    predicate HasAlpha() {
      !texture.coverage.Opaque?
    }

    /** The texel right of column `k`, repeating the last one at the edge. */
    function Next(k: nat): (x: nat)
      requires Valid() && k < |columns|
      ensures x <= lastColumn
    {
      if columns[k].first + 1 < lastColumn then columns[k].first + 1 else lastColumn
    }

    /** The indices of the four texels around column `k`. */
    function Around(k: nat): (q: Quad)
      requires Valid() && k < |columns|
      ensures Texel(texture, q.v00) && Texel(texture, q.v01) && Texel(texture, q.v10) && Texel(texture, q.v11)
    {
      TexelBefore(texture, row0 + columns[k].first, row0 + lastColumn);
      TexelBefore(texture, row0 + Next(k), row0 + lastColumn);
      TexelBefore(texture, row1 + columns[k].first, row1 + lastColumn);
      TexelBefore(texture, row1 + Next(k), row1 + lastColumn);
      Quad(row0 + columns[k].first, row0 + Next(k), row1 + columns[k].first, row1 + Next(k))
    }
  }

  lemma TexelBefore(t: Texture, i: nat, j: nat)
    requires Texel(t, j) && i <= j
    ensures Texel(t, i)
  {
    if t.coverage.Cutout? {
      assert (i + 8) / 8 <= (j + 8) / 8;
    }
  }

  predicate Texels(t: Texture, q: Quad) {
    Texel(t, q.v00) && Texel(t, q.v01) && Texel(t, q.v10) && Texel(t, q.v11)
  }

  function Coverages(t: Texture, q: Quad): (r: Quad)
    requires Texels(t, q)
    ensures Within(r, 255)
  {
    Quad(At(t.coverage, q.v00), At(t.coverage, q.v01), At(t.coverage, q.v10), At(t.coverage, q.v11))
  }

  function Components(t: Texture, q: Quad, f: Field): (r: Quad)
    requires Texels(t, q)
    ensures Within(r, Mask(f))
  {
    Quad(Component(t.pixels[q.v00], f), Component(t.pixels[q.v01], f),
         Component(t.pixels[q.v10], f), Component(t.pixels[q.v11], f))
  }

  function MixComponent(first: U16, second: U16, fraction: U16, f: Field): (c: nat)
    ensures c <= Mask(f)
  {
    LerpBounded(Component(first, f), Component(second, f), fraction, Mask(f));
    Lerp(Component(first, f), Component(second, f), fraction)
  }

  /** Two straight colors interpolated component by component. */
  function Mix(first: U16, second: U16, fraction: U16): U16 {
    Pack(MixComponent(first, second, fraction, Red), MixComponent(first, second, fraction, Green),
         MixComponent(first, second, fraction, Blue))
  }

  // What a pixel becomes, in native colors: nothing, when nothing covers it.

  function Over(background: U16, color: U16, alpha: Alpha, blend: Blend): Option<U16> {
    if alpha == 0 then None else if alpha == 255 then Some(color) else Some(blend(background, color, alpha))
  }

  function Straight(s: Span, k: nat): U16
    requires s.Valid() && k < |s.columns|
  {
    var q, p := s.Around(k), s.texture.pixels;
    if s.bilinear then
      Mix(Mix(p[q.v00], p[q.v01], s.columns[k].fraction), Mix(p[q.v10], p[q.v11], s.columns[k].fraction), s.fractionY)
    else p[q.v00]
  }

  function Filtered(s: Span, k: nat, background: U16, f: Field): (c: nat)
    requires s.Valid() && k < |s.columns|
    ensures c <= Mask(f)
  {
    var components, coverages := Components(s.texture, s.Around(k), f), Coverages(s.texture, s.Around(k));
    ClampIsIdle(components, coverages, s.columns[k].fraction, s.fractionY, Component(background, f), f);
    Composite(components, coverages, s.columns[k].fraction, s.fractionY, Component(background, f))
  }

  function Paint(s: Span, k: nat, background: U16, blend: Blend): Option<U16>
    requires s.Valid() && k < |s.columns|
  {
    if s.bilinear && s.HasAlpha() then
      if Coverages(s.texture, s.Around(k)) == Quad(0, 0, 0, 0) then None
      else Some(Pack(Filtered(s, k, background, Red), Filtered(s, k, background, Green), Filtered(s, k, background, Blue)))
    else Over(background, Straight(s, k), At(s.texture.coverage, s.Around(k).v00), blend)
  }

  /** A destination word after native paint is put on it. */
  function Word(word: U16, paint: Option<U16>, wire: bool): U16 {
    match paint
    case None => word
    case Some(color) => Ordered(color, wire)
  }

  ghost function Drawn(s: Span, before: seq<U16>, wire: bool, blend: Blend): (after: seq<U16>)
    requires s.Valid() && |before| == |s.columns|
    ensures |after| == |before|
  {
    seq(|before|, k requires 0 <= k < |before| => Word(before[k], Paint(s, k, Ordered(before[k], wire), blend), wire))
  }

  ghost function Blitted(before: seq<U16>, source: seq<U16>, alpha: Option<seq<Alpha>>, wire: bool, blend: Blend)
    : (after: seq<U16>)
    requires |before| == |source| && (alpha.Some? ==> |alpha.value| == |source|)
    ensures |after| == |before|
  {
    seq(|before|, k requires 0 <= k < |before| =>
      Word(before[k], Over(Ordered(before[k], wire), source[k], if alpha.Some? then alpha.value[k] else 255, blend), wire))
  }

  /** The slice of `a` from `start`, replaced. */
  ghost predicate OnlySlice(now: seq<U16>, was: seq<U16>, start: nat, slice: seq<U16>) {
    start + |slice| <= |was| == |now| && now == was[..start] + slice + was[start + |slice|..]
  }

  lemma SliceWritten(now: seq<U16>, was: seq<U16>, start: nat, slice: seq<U16>)
    requires start + |slice| <= |was| == |now|
    requires forall k: nat :: k < |slice| ==> now[start + k] == slice[k]
    requires forall j: nat :: j < |was| && !(start <= j < start + |slice|) ==> now[j] == was[j]
    ensures OnlySlice(now, was, start, slice)
  {
    var all := was[..start] + slice + was[start + |slice|..];
    forall j: nat | j < |now| ensures now[j] == all[j] {
      if start <= j < start + |slice| {
        assert now[start + (j - start)] == slice[j - start];
      }
    }
    assert now == all;
  }

  // The loops.

  method DrawKind(s: Span, d: array<U16>, start: nat, wire: bool, blend: Blend, bilinear: bool, alpha: bool)
    requires s.Valid() && start + |s.columns| <= d.Length
    requires bilinear == s.bilinear && alpha == s.HasAlpha() && !(bilinear && alpha)
    modifies d
    ensures OnlySlice(d[..], old(d[..]), start, Drawn(s, old(d[start..start + |s.columns|]), wire, blend))
  {
    hide Mix;
    ghost var was := d[..];
    ghost var goal := Drawn(s, d[start..start + |s.columns|], wire, blend);
    for i := 0 to |s.columns|
      invariant forall k: nat :: k < i ==> d[start + k] == goal[k]
      invariant forall j: nat :: j < d.Length && !(start <= j < start + i) ==> d[j] == was[j]
    {
      var word := d[start + i];
      assert word == was[start + i] == was[start..start + |s.columns|][i];
      var q := s.Around(i);
      var index := s.row0 + s.columns[i].first;
      var a: Alpha := if alpha then At(s.texture.coverage, index) else 255;
      if a == 0 {
        continue;
      }
      var color := s.texture.pixels[index];
      if bilinear {
        var top := Mix(s.texture.pixels[index], s.texture.pixels[s.row0 + s.Next(i)], s.columns[i].fraction);
        var bottom := Mix(s.texture.pixels[q.v10], s.texture.pixels[q.v11], s.columns[i].fraction);
        color := Mix(top, bottom, s.fractionY);
      }
      if a != 255 {
        color := blend(Ordered(word, wire), color, a);
      }
      d[start + i] := Ordered(color, wire);
    }
    SliceWritten(d[..], was, start, goal);
  }

  lemma FilteredOf(s: Span, k: nat, background: U16, f: Field)
    requires s.Valid() && k < |s.columns|
    ensures var components, alpha := Components(s.texture, s.Around(k), f), Coverages(s.texture, s.Around(k));
      && Filtered(s, k, background, f)
         == Composite(components, alpha, s.columns[k].fraction, s.fractionY, Component(background, f))
  {
  }

  /** The color of one filtered pixel, built up one field at a time and clamped as the source clamps it. */
  method FilteredColor(s: Span, k: nat, background: U16) returns (color: U16)
    requires s.Valid() && k < |s.columns|
    ensures forall f :: Component(color, f) == Filtered(s, k, background, f)
  {
    hide Filtered, Interpolate, Premultiplied, Components, Coverages, FieldWord, Value, OrIn, Pack;
    var fields := [Red, Green, Blue];
    var q := s.Around(k);
    var alpha := Coverages(s.texture, q);
    var coverage := Interpolate(alpha, s.columns[k].fraction, s.fractionY);
    InterpolateBounded(alpha, s.columns[k].fraction, s.fractionY, 255);
    ghost var red, green := Filtered(s, k, background, Red), Filtered(s, k, background, Green);
    ghost var blue := Filtered(s, k, background, Blue);
    var word: bv16 := 0;
    for i := 0 to 3
      invariant i == 0 ==> word == 0
      invariant i == 1 ==> word == OrIn(0, FieldWord(red), Red)
      invariant i == 2 ==> word == OrIn(OrIn(0, FieldWord(red), Red), FieldWord(green), Green)
      invariant i == 3 ==> word == OrIn(OrIn(OrIn(0, FieldWord(red), Red), FieldWord(green), Green), FieldWord(blue), Blue)
    {
      var f := fields[i];
      var components := Components(s.texture, q, f);
      FilteredOf(s, k, background, f);
      var component := (Interpolate(Premultiplied(components, alpha), s.columns[k].fraction, s.fractionY)
        + Component(background, f) * (255 - coverage) + 127) / 255;
      word := OrIn(word, FieldWord(if component < Mask(f) then component else Mask(f)), f);
    }
    GatheredIsPacked(red, green, blue);
    color := Value(word);
  }

  lemma MadeOfComponents(x: U16)
    ensures x == 2048 * Component(x, Red) + 32 * Component(x, Green) + Component(x, Blue)
  {
    var upper := x / 32;
    assert x == 32 * upper + x % 32 && upper < 2048;
    assert x / 2048 == upper / 64;
  }

  lemma SameComponents(x: U16, y: U16)
    requires forall f :: Component(x, f) == Component(y, f)
    ensures x == y
  {
    hide Component;
    MadeOfComponents(x);
    MadeOfComponents(y);
    assert Component(x, Red) == Component(y, Red) && Component(x, Green) == Component(y, Green);
    assert Component(x, Blue) == Component(y, Blue);
  }

  method DrawFilteredAlpha(s: Span, d: array<U16>, start: nat, wire: bool, blend: Blend)
    requires s.Valid() && start + |s.columns| <= d.Length && s.bilinear && s.HasAlpha()
    modifies d
    ensures OnlySlice(d[..], old(d[..]), start, Drawn(s, old(d[start..start + |s.columns|]), wire, blend))
  {
    hide Filtered, Straight, At;
    ghost var was := d[..];
    ghost var goal := Drawn(s, d[start..start + |s.columns|], wire, blend);
    for i := 0 to |s.columns|
      invariant forall k: nat :: k < i ==> d[start + k] == goal[k]
      invariant forall j: nat :: j < d.Length && !(start <= j < start + i) ==> d[j] == was[j]
    {
      var word := d[start + i];
      assert word == was[start + i] == was[start..start + |s.columns|][i];
      if Coverages(s.texture, s.Around(i)) == Quad(0, 0, 0, 0) {
        continue;
      }
      var color := FilteredColor(s, i, Ordered(word, wire));
      SameComponents(color, Paint(s, i, Ordered(word, wire), blend).value);
      d[start + i] := Ordered(color, wire);
    }
    SliceWritten(d[..], was, start, goal);
  }

  method Draw(s: Span, d: array<U16>, start: nat, wire: bool, blend: Blend)
    requires s.Valid() && start + |s.columns| <= d.Length
    modifies d
    ensures OnlySlice(d[..], old(d[..]), start, Drawn(s, old(d[start..start + |s.columns|]), wire, blend))
  {
    if s.bilinear && s.HasAlpha() {
      DrawFilteredAlpha(s, d, start, wire, blend);
    } else {
      DrawKind(s, d, start, wire, blend, s.bilinear, s.HasAlpha());
    }
  }

  method Blit(d: array<U16>, start: nat, source: seq<U16>, alpha: Option<seq<Alpha>>, wire: bool, blend: Blend)
    requires start + |source| <= d.Length && (alpha.Some? ==> |alpha.value| == |source|)
    modifies d
    ensures OnlySlice(d[..], old(d[..]), start,
                      Blitted(old(d[start..start + |source|]), source, alpha, wire, blend))
  {
    ghost var was := d[..];
    ghost var goal := Blitted(d[start..start + |source|], source, alpha, wire, blend);
    for i := 0 to |source|
      invariant forall k: nat :: k < i ==> d[start + k] == goal[k]
      invariant forall j: nat :: j < d.Length && !(start <= j < start + i) ==> d[j] == was[j]
    {
      var word := d[start + i];
      assert word == was[start + i] == was[start..start + |source|][i];
      var a: Alpha := if alpha.Some? then alpha.value[i] else 255;
      if a == 0 {
        continue;
      }
      var color := if a == 255 then source[i] else blend(Ordered(word, wire), source[i], a);
      d[start + i] := Ordered(color, wire);
    }
    SliceWritten(d[..], was, start, goal);
  }

  /** The 0 or 255 each bit stands for. */
  ghost function Denoted(bits: seq<Alpha>, offset: nat, n: nat): (alpha: seq<Alpha>)
    requires Covers(Cutout(bits), offset + n)
    ensures |alpha| == n
  {
    seq<Alpha>(n, k requires 0 <= k < n => At(Cutout(bits), offset + k))
  }

  /** A cutout does exactly what a blit does with the alpha its bits denote, whatever the blend. */
  method CutoutInto(d: array<U16>, start: nat, n: nat, source: seq<U16>, offset: nat, bits: seq<Alpha>, wire: bool,
                    ghost blend: Blend)
    requires start + n <= d.Length && offset + n <= |source| && (offset + n + 7) / 8 <= |bits|
    modifies d
    ensures OnlySlice(d[..], old(d[..]), start,
                      Blitted(old(d[start..start + n]), source[offset..offset + n], Some(Denoted(bits, offset, n)), wire,
                              blend))
  {
    ghost var was := d[..];
    ghost var goal :=
      Blitted(d[start..start + n], source[offset..offset + n], Some(Denoted(bits, offset, n)), wire, blend);
    for i := 0 to n
      invariant forall k: nat :: k < i ==> d[start + k] == goal[k]
      invariant forall j: nat :: j < d.Length && !(start <= j < start + i) ==> d[j] == was[j]
    {
      assert d[start + i] == was[start + i] == was[start..start + n][i];
      var shown: Alpha := if Bit(bits, offset + i) then 255 else 0;
      assert (offset + i + 8) / 8 <= (offset + n + 7) / 8;
      assert At(Cutout(bits), offset + i) == shown;
      assert Denoted(bits, offset, n)[i] == shown;
      assert goal[i] == Word(was[start + i], Over(Ordered(was[start + i], wire), source[offset + i], shown, blend), wire);
      if shown != 0 {
        d[start + i] := Ordered(source[offset + i], wire);
      }
    }
    SliceWritten(d[..], was, start, goal);
  }

  // Laws.

  ghost function SwapAll(words: seq<U16>): (r: seq<U16>)
    ensures |r| == |words| && forall k: nat :: k < |words| ==> r[k] == Swap(words[k])
  {
    seq(|words|, k requires 0 <= k < |words| => Swap(words[k]))
  }

  /** Drawing in wire order is drawing natively with every word byte-swapped before and after. */
  lemma WireDrawingIsConjugate(s: Span, before: seq<U16>, blend: Blend)
    requires s.Valid() && |before| == |s.columns|
    ensures Drawn(s, before, true, blend) == SwapAll(Drawn(s, SwapAll(before), false, blend))
  {
    forall k: nat | k < |before|
      ensures Drawn(s, before, true, blend)[k] == Swap(Drawn(s, SwapAll(before), false, blend)[k])
    {
      SwapTwice(before[k]);
    }
  }

  lemma WireBlitIsConjugate(before: seq<U16>, source: seq<U16>, alpha: Option<seq<Alpha>>, blend: Blend)
    requires |before| == |source| && (alpha.Some? ==> |alpha.value| == |source|)
    ensures Blitted(before, source, alpha, true, blend) == SwapAll(Blitted(SwapAll(before), source, alpha, false, blend))
  {
    forall k: nat | k < |before|
      ensures Blitted(before, source, alpha, true, blend)[k]
           == Swap(Blitted(SwapAll(before), source, alpha, false, blend)[k])
    {
      SwapTwice(before[k]);
    }
  }

  /** Slices of the given widths drawn one after another, from column `from` on. */
  ghost function DrawnInSlices(s: Span, from: nat, widths: seq<nat>, before: seq<U16>, wire: bool, blend: Blend)
    : (after: seq<U16>)
    requires s.Valid() && |before| == |s.columns| && from + Total(widths) == |s.columns|
    ensures |after| == |before|
    decreases |widths|
  {
    if widths == [] then before
    else
      var end := from + widths[0];
      var drawn := before[..from] + Drawn(s.Slice(from, end), before[from..end], wire, blend) + before[end..];
      DrawnInSlices(s, end, widths[1..], drawn, wire, blend)
  }

  function Total(widths: seq<nat>): nat {
    if widths == [] then 0 else widths[0] + Total(widths[1..])
  }

  lemma SlicePaints(s: Span, from: nat, end: nat, k: nat, background: U16, blend: Blend)
    requires s.Valid() && from <= end <= |s.columns| && k < end - from
    ensures Paint(s.Slice(from, end), k, background, blend) == Paint(s, from + k, background, blend)
  {
    hide Composite, Mix;
    var t := s.Slice(from, end);
    assert t.columns[k] == s.columns[from + k];
    assert t.Around(k) == s.Around(from + k);
    assert forall f :: Filtered(t, k, background, f) == Filtered(s, from + k, background, f);
  }

  lemma SliceDraws(s: Span, from: nat, end: nat, before: seq<U16>, wire: bool, blend: Blend)
    requires s.Valid() && from <= end <= |s.columns| == |before|
    ensures Drawn(s.Slice(from, end), before[from..end], wire, blend) == Drawn(s, before, wire, blend)[from..end]
  {
    hide Paint, Word, Ordered;
    var piece := Drawn(s.Slice(from, end), before[from..end], wire, blend);
    var whole := Drawn(s, before, wire, blend);
    forall k: nat | k < end - from ensures piece[k] == whole[from + k] {
      SlicePaints(s, from, end, k, Ordered(before[from + k], wire), blend);
    }
  }

  /** Columns from `end` on do not depend on what came before them. */
  lemma RestDraws(s: Span, end: nat, before: seq<U16>, after: seq<U16>, wire: bool, blend: Blend)
    requires s.Valid() && end <= |s.columns| == |before| == |after| && before[end..] == after[end..]
    ensures Drawn(s, before, wire, blend)[end..] == Drawn(s, after, wire, blend)[end..]
  {
    hide Paint, Word, Ordered;
    forall k: nat | end <= k < |before| ensures before[k] == after[k] {
      assert before[end..][k - end] == after[end..][k - end];
    }
  }

  lemma Rejoin(front: seq<U16>, whole: seq<U16>, end: nat, tail: seq<U16>)
    requires |front| <= end <= |whole|
    ensures (front + whole[|front|..end] + tail)[..end] + whole[end..] == front + whole[|front|..]
    ensures (front + whole[|front|..end] + tail)[end..] == tail
  {
  }

  lemma {:induction false} SlicesDrawTheRest(s: Span, from: nat, widths: seq<nat>, before: seq<U16>, wire: bool,
                                             blend: Blend)
    requires s.Valid() && |before| == |s.columns| && from + Total(widths) == |s.columns|
    ensures DrawnInSlices(s, from, widths, before, wire, blend)
         == before[..from] + Drawn(s, before, wire, blend)[from..]
    decreases |widths|
  {
    hide Drawn;
    var whole := Drawn(s, before, wire, blend);
    if widths == [] {
      assert before == before[..from] + whole[from..];
    } else {
      var end := from + widths[0];
      SliceDraws(s, from, end, before, wire, blend);
      var drawn := before[..from] + whole[from..end] + before[end..];
      Rejoin(before[..from], whole, end, before[end..]);
      SlicesDrawTheRest(s, end, widths[1..], drawn, wire, blend);
      RestDraws(s, end, before, drawn, wire, blend);
    }
  }

  /** However a span is cut into consecutive slices, drawing them in turn is drawing the span. */
  lemma SlicingDoesNotShow(s: Span, widths: seq<nat>, before: seq<U16>, wire: bool, blend: Blend)
    requires s.Valid() && |before| == |s.columns| == Total(widths)
    ensures DrawnInSlices(s, 0, widths, before, wire, blend) == Drawn(s, before, wire, blend)
  {
    SlicesDrawTheRest(s, 0, widths, before, wire, blend);
  }

  /** The alpha a blit needs to show the coverage of a row of texels. */
  ghost function RowAlpha(t: Texture, row: nat, n: nat): (alpha: seq<Alpha>)
    requires n > 0 && Texel(t, row + n - 1)
    ensures |alpha| == n
  {
    seq<Alpha>(n, k requires 0 <= k < n => (TexelBefore(t, row + k, row + n - 1); At(t.coverage, row + k)))
  }

  /** A nearest span that names texel k at column k is a blit of the row, on every kind of coverage. */
  lemma NearestRowIsBlit(s: Span, before: seq<U16>, wire: bool, blend: Blend)
    requires s.Valid() && !s.bilinear && |before| == |s.columns| == s.lastColumn + 1
    requires forall k: nat :: k < |s.columns| ==> s.columns[k].first == k
    ensures Drawn(s, before, wire, blend)
         == Blitted(before, s.texture.pixels[s.row0..s.row0 + |before|], Some(RowAlpha(s.texture, s.row0, |before|)),
                    wire, blend)
  {
    hide Paint, Over;
    var row := RowAlpha(s.texture, s.row0, |before|);
    var source := s.texture.pixels[s.row0..s.row0 + |before|];
    forall k: nat | k < |before|
      ensures Paint(s, k, Ordered(before[k], wire), blend) == Over(Ordered(before[k], wire), source[k], row[k], blend)
    {
      NearestPaint(s, k, Ordered(before[k], wire), blend);
      TexelBefore(s.texture, s.row0 + k, s.row0 + |before| - 1);
      assert row[k] == At(s.texture.coverage, s.row0 + k) && source[k] == s.texture.pixels[s.row0 + k];
    }
    var drawn, blitted := Drawn(s, before, wire, blend), Blitted(before, source, Some(row), wire, blend);
    assert forall k: nat :: k < |before| ==> drawn[k] == blitted[k];
  }

  lemma NearestPaint(s: Span, k: nat, background: U16, blend: Blend)
    requires s.Valid() && !s.bilinear && k < |s.columns| && s.columns[k].first == k
    ensures Texel(s.texture, s.row0 + k)
    ensures Paint(s, k, background, blend)
         == Over(background, s.texture.pixels[s.row0 + k], At(s.texture.coverage, s.row0 + k), blend)
  {
    assert s.Around(k).v00 == s.row0 + k;
  }

  /** A filtered pixel never leaves the range of the background and the covered texels around it, in any field. */
  lemma FilteredPixelIsConvex(s: Span, k: nat, background: U16, blend: Blend, f: Field, lo: nat, hi: nat)
    requires s.Valid() && k < |s.columns| && s.bilinear && s.HasAlpha()
    requires Between(Components(s.texture, s.Around(k), f), Coverages(s.texture, s.Around(k)), lo, hi)
    requires lo <= Component(background, f) <= hi <= 63
    requires Paint(s, k, background, blend).Some?
    ensures lo <= Component(Paint(s, k, background, blend).value, f) <= hi
  {
    hide Composite, Interpolate;
    CompositeIsConvex(Components(s.texture, s.Around(k), f), Coverages(s.texture, s.Around(k)),
                      s.columns[k].fraction, s.fractionY, Component(background, f), lo, hi);
  }

  // What is drawn, from the texture itself.

  /** `east` is the texel column right of column `k`, or the same one at the last column of the mapping. */
  predicate IsEast(s: Span, k: nat, east: nat)
    requires s.Valid() && k < |s.columns|
  {
    var x := s.columns[k].first;
    if x < s.lastColumn then east == x + 1 else east == x
  }

  lemma CornersOf(s: Span, k: nat, east: nat)
    requires s.Valid() && k < |s.columns| && IsEast(s, k, east)
    ensures var x := s.columns[k].first;
      && s.Around(k) == Quad(s.row0 + x, s.row0 + east, s.row1 + x, s.row1 + east)
      && Texel(s.texture, s.row0 + x) && Texel(s.texture, s.row0 + east)
      && Texel(s.texture, s.row1 + x) && Texel(s.texture, s.row1 + east)
  {
  }

  lemma OrderedTwice(color: U16, wire: bool)
    ensures Ordered(Ordered(color, wire), wire) == color
  {
    SwapTwice(color);
  }

  /** The straight color interpolates each component of the four texels. */
  lemma StraightComponents(s: Span, k: nat, f: Field)
    requires s.Valid() && k < |s.columns| && s.bilinear
    ensures Component(Straight(s, k), f) == Interpolate(Components(s.texture, s.Around(k), f), s.columns[k].fraction, s.fractionY)
  {
    hide Lerp, Component;
  }

  /** Over an opaque texture every component of a bilinear pixel is within one of the exact interpolation of the texels
      of two rows, at the column and right of it; the background does not show. */
  lemma OpaquePixelIsAccurate(s: Span, k: nat, east: nat, before: seq<U16>, wire: bool, blend: Blend, f: Field)
    requires s.Valid() && s.bilinear && !s.HasAlpha() && k < |before| == |s.columns| && IsEast(s, k, east)
    ensures var x := s.columns[k].first;
      s.row0 + east < |s.texture.pixels| && s.row1 + east < |s.texture.pixels|
      && s.row0 + x < |s.texture.pixels| && s.row1 + x < |s.texture.pixels|
    ensures var x, p := s.columns[k].first, s.texture.pixels;
      var texels := Quad(Component(p[s.row0 + x], f), Component(p[s.row0 + east], f),
                         Component(p[s.row1 + x], f), Component(p[s.row1 + east], f));
      var shown := Component(Ordered(Drawn(s, before, wire, blend)[k], wire), f);
      && Near(UNIT * shown, ExactInterpolation(texels, s.columns[k].fraction, s.fractionY), UNIT)
      && (s.columns[k].fraction == 0 && s.fractionY == 0 ==> shown == texels.v00)
  {
    hide Straight, Component, Ordered, Interpolate, ExactInterpolation, Near;
    CornersOf(s, k, east);
    StraightComponents(s, k, f);
    OrderedTwice(Straight(s, k), wire);
    InterpolateIsAccurate(Components(s.texture, s.Around(k), f), s.columns[k].fraction, s.fractionY);
    AtTheTexel(Components(s.texture, s.Around(k), f));
  }

  lemma AtTheTexel(q: Quad)
    ensures Interpolate(q, 0, 0) == q.v00
  {
  }

  /** Over a covered texture every component of a filtered pixel is within 191 255ths of the exact composition of
      those four texels, each by its own coverage, over the background. Texels without coverage leave the word. */
  lemma FilteredPixelIsAccurate(s: Span, k: nat, east: nat, before: seq<U16>, wire: bool, blend: Blend, f: Field)
    requires s.Valid() && s.bilinear && s.HasAlpha() && k < |before| == |s.columns| && IsEast(s, k, east)
    ensures var x := s.columns[k].first;
      && Texel(s.texture, s.row0 + x) && Texel(s.texture, s.row0 + east)
      && Texel(s.texture, s.row1 + x) && Texel(s.texture, s.row1 + east)
    ensures var x, p, a := s.columns[k].first, s.texture.pixels, s.texture.coverage;
      var texels := Quad(Component(p[s.row0 + x], f), Component(p[s.row0 + east], f),
                         Component(p[s.row1 + x], f), Component(p[s.row1 + east], f));
      var alpha := Quad(At(a, s.row0 + x), At(a, s.row0 + east), At(a, s.row1 + x), At(a, s.row1 + east));
      var shown := Ordered(Drawn(s, before, wire, blend)[k], wire);
      var background := Component(Ordered(before[k], wire), f);
      if alpha == Quad(0, 0, 0, 0) then Drawn(s, before, wire, blend)[k] == before[k]
      else Near(255 * UNIT * Component(shown, f),
                ExactComposite(texels, alpha, s.columns[k].fraction, s.fractionY, background), 191 * UNIT)
  {
    hide Component, Ordered, Composite, ExactComposite, Near, At, Straight;
    CornersOf(s, k, east);
    var q, background := s.Around(k), Ordered(before[k], wire);
    FilteredOf(s, k, background, f);
    CompositeIsAccurate(Components(s.texture, q, f), Coverages(s.texture, q), s.columns[k].fraction, s.fractionY,
                        Component(background, f));
    if Coverages(s.texture, q) != Quad(0, 0, 0, 0) {
      OrderedTwice(Paint(s, k, background, blend).value, wire);
    }
  }

  /** Without filtering, the texel at the column is skipped, copied or blended as its own coverage says. */
  lemma NearestPixel(s: Span, k: nat, before: seq<U16>, wire: bool, blend: Blend)
    requires s.Valid() && !s.bilinear && k < |before| == |s.columns|
    ensures Texel(s.texture, s.row0 + s.columns[k].first)
    ensures var i := s.row0 + s.columns[k].first;
      var alpha, color, word := At(s.texture.coverage, i), s.texture.pixels[i], Drawn(s, before, wire, blend)[k];
      && (alpha == 0 ==> word == before[k])
      && (alpha == 255 ==> Ordered(word, wire) == color)
      && (0 < alpha < 255 ==> Ordered(word, wire) == blend(Ordered(before[k], wire), color, alpha))
  {
    hide Ordered, At;
    var i := s.row0 + s.columns[k].first;
    assert s.Around(k).v00 == i;
    var alpha := At(s.texture.coverage, i);
    OrderedTwice(s.texture.pixels[i], wire);
    OrderedTwice(blend(Ordered(before[k], wire), s.texture.pixels[i], alpha), wire);
  }

  /** A blit does the same with the color and the alpha given for each pixel. */
  lemma BlitPixel(before: seq<U16>, source: seq<U16>, alpha: Option<seq<Alpha>>, k: nat, wire: bool, blend: Blend)
    requires k < |before| == |source| && (alpha.Some? ==> |alpha.value| == |source|)
    ensures var word := Blitted(before, source, alpha, wire, blend)[k];
      && (alpha.None? || alpha.value[k] == 255 ==> Ordered(word, wire) == source[k])
      && (alpha.Some? && alpha.value[k] == 0 ==> word == before[k])
      && (alpha.Some? && 0 < alpha.value[k] < 255 ==>
            Ordered(word, wire) == blend(Ordered(before[k], wire), source[k], alpha.value[k]))
  {
    hide Ordered;
    OrderedTwice(source[k], wire);
    if alpha.Some? {
      OrderedTwice(blend(Ordered(before[k], wire), source[k], alpha.value[k]), wire);
    }
  }
}
