/** Rounded frames drawn as a stretched nine-patch (launcher/rounded_style.py).

    A 13 x 13 corner tile is mixed from three colours by coverage; a larger frame
    repeats the tile's middle row and column.  This module proves that the mixing
    weights are proper and that the stretched tile is pixel for pixel the frame
    that would have been drawn directly at the larger size. */
module RoundedStyle {
  import opened Antialias
  import opened ShapeRegions

  const RADIUS: int := 5
  const STRETCH_CENTER: int := 64
  const TILE: int := 2 * (RADIUS + 1) + 1
  const STRETCHED: int := 2 * (RADIUS + 1) + STRETCH_CENTER

  datatype Palette = Palette(fill: Rgb, border: Rgb, outer: Rgb)

  function OuterBox(size: int): Shape {
    RoundedBox(0.0, 0.0, size as real, size as real, RADIUS as real)
  }

  function InnerBox(size: int): Shape {
    RoundedBox(1.0, 1.0, size as real - 1.0, size as real - 1.0, RADIUS as real - 1.0)
  }

  /** `_mix` on one channel before rounding, with the three weights `_corner_tile` passes. */
  function Blend(outer: real, border: real, fill: real, shape: real, body: real): real {
    outer * (1.0 - shape) + border * (shape - body) + fill * body
  }

  function MixChannel(outer: int, border: int, fill: int, shape: real, body: real): int {
    Round(Blend(outer as real, border as real, fill as real, shape, body))
  }

  function Mix(p: Palette, shape: real, body: real): Rgb {
    Rgb(MixChannel(p.outer.r, p.border.r, p.fill.r, shape, body),
        MixChannel(p.outer.g, p.border.g, p.fill.g, shape, body),
        MixChannel(p.outer.b, p.border.b, p.fill.b, shape, body))
  }

  /** The colour at (x, y) of a frame of any size. */
  function FramePixel(h: HypotFn, size: int, p: Palette, x: int, y: int): Rgb
    requires IsHypot(h)
  {
    Mix(p, CoverageAt(SURE, ShapeSdf(h, OuterBox(size)), x, y),
        CoverageAt(SURE, ShapeSdf(h, InnerBox(size)), x, y))
  }

  /** The row's colours are those of the frame drawn directly. */
  ghost predicate IsFrameRow(h: HypotFn, size: int, p: Palette, y: int, row: seq<Rgb>)
    requires IsHypot(h)
  {
    |row| == size && forall x :: 0 <= x < size ==> row[x] == FramePixel(h, size, p, x, y)
  }

  /** The pixels are the first ones of the row. */
  ghost predicate StartsRow(h: HypotFn, size: int, p: Palette, y: int, row: seq<Rgb>)
    requires IsHypot(h)
  {
    forall x :: 0 <= x < |row| ==> row[x] == FramePixel(h, size, p, x, y)
  }

  lemma OnePixelMore(h: HypotFn, size: int, p: Palette, y: int, row: seq<Rgb>, pixel: Rgb)
    requires IsHypot(h) && StartsRow(h, size, p, y, row) && pixel == FramePixel(h, size, p, |row|, y)
    ensures StartsRow(h, size, p, y, row + [pixel])
  {}

  method CornerTile(h: HypotFn, p: Palette) returns (tile: seq<seq<Rgb>>)
    requires IsHypot(h)
    ensures |tile| == TILE && forall y :: 0 <= y < TILE ==> IsFrameRow(h, TILE, p, y, tile[y])
  {
    tile := [];
    for y := 0 to TILE
      invariant |tile| == y && forall j :: 0 <= j < y ==> IsFrameRow(h, TILE, p, j, tile[j])
    {
      var row := TileRow(h, p, y);
      tile := tile + [row];
    }
  }

  /** The inner loop over the pixels of one row. */
  method TileRow(h: HypotFn, p: Palette, y: int) returns (row: seq<Rgb>)
    requires IsHypot(h)
    ensures IsFrameRow(h, TILE, p, y, row)
  {
    var (shapeSdf, bodySdf) := (ShapeSdf(h, OuterBox(TILE)), ShapeSdf(h, InnerBox(TILE)));
    row := [];
    for x := 0 to TILE
      invariant |row| == x && StartsRow(h, TILE, p, y, row)
    {
      var shape := Coverage(shapeSdf, x, y);
      var body := Coverage(bodySdf, x, y);
      OnePixelMore(h, TILE, p, y, row, Mix(p, shape, body));
      row := row + [Mix(p, shape, body)];
    }
  }

  function StretchIndex(i: int, size: int): int {
    if i <= RADIUS + 1 then i
    else if i >= size - (RADIUS + 1) then i - (size - (2 * (RADIUS + 1) + 1))
    else RADIUS + 1
  }

  // ----- the mixing weights are proper -----

  /** The inner box is the outer one with every distance lowered by one pixel. */
  lemma InnerBoxIsInset(h: HypotFn, size: int, px: real, py: real)
    requires IsHypot(h)
    ensures Eval(h, InnerBox(size), px, py) == Eval(h, Inset(OuterBox(size), 1.0), px, py)
  {
    var far := size as real - RADIUS as real;
    assert (size as real - 1.0) - (RADIUS as real - 1.0) == far;
    assert 1.0 + (RADIUS as real - 1.0) == 0.0 + RADIUS as real;
  }

  lemma BodyWithinShape(h: HypotFn, size: int, x: int, y: int)
    requires IsHypot(h)
    ensures
      0.0 <= CoverageAt(SURE, ShapeSdf(h, InnerBox(size)), x, y)
          <= CoverageAt(SURE, ShapeSdf(h, OuterBox(size)), x, y) <= 1.0
  {
    var (inner, outer) := (ShapeSdf(h, InnerBox(size)), ShapeSdf(h, OuterBox(size)));
    forall px, py
      ensures inner(px, py) <= outer(px, py)
    {
      InnerBoxIsInset(h, size, px, py);
    }
    CoverageMonotone(inner, outer, x, y);
  }

  lemma ThreeWayMean(low: real, high: real, outer: real, border: real, fill: real, shape: real, body: real)
    requires low <= outer <= high && low <= border <= high && low <= fill <= high
    requires 0.0 <= body <= shape <= 1.0
    ensures low <= Blend(outer, border, fill, shape, body) <= high
  {
    ProductSameSign(outer - low, 1.0 - shape);
    ProductSameSign(border - low, shape - body);
    ProductSameSign(fill - low, body);
    ProductSameSign(high - outer, 1.0 - shape);
    ProductSameSign(high - border, shape - body);
    ProductSameSign(high - fill, body);
    var sum := Blend(outer, border, fill, shape, body);
    assert sum - low == Mul(outer - low, 1.0 - shape) + Mul(border - low, shape - body) + Mul(fill - low, body);
    assert high - sum == Mul(high - outer, 1.0 - shape) + Mul(high - border, shape - body) + Mul(high - fill, body);
  }

  /** Every emitted channel fits the two hex digits `_mix` formats it with. */
  lemma FrameColoursAreBytes(h: HypotFn, size: int, p: Palette, x: int, y: int)
    requires IsHypot(h)
    requires ByteColour(p.fill) && ByteColour(p.border) && ByteColour(p.outer)
    ensures ByteColour(FramePixel(h, size, p, x, y))
  {
    BodyWithinShape(h, size, x, y);
    var shape := CoverageAt(SURE, ShapeSdf(h, OuterBox(size)), x, y);
    var body := CoverageAt(SURE, ShapeSdf(h, InnerBox(size)), x, y);
    ChannelIsByte(p.outer.r, p.border.r, p.fill.r, shape, body);
    ChannelIsByte(p.outer.g, p.border.g, p.fill.g, shape, body);
    ChannelIsByte(p.outer.b, p.border.b, p.fill.b, shape, body);
  }

  lemma ChannelIsByte(outer: int, border: int, fill: int, shape: real, body: real)
    requires IsByte(outer) && IsByte(border) && IsByte(fill)
    requires 0.0 <= body <= shape <= 1.0
    ensures IsByte(MixChannel(outer, border, fill, shape, body))
  {
    ThreeWayMean(0.0, 255.0, outer as real, border as real, fill as real, shape, body);
    RoundWithin(Blend(outer as real, border as real, fill as real, shape, body), 0, 255);
  }

  lemma BlendIs(outer: int, border: int, fill: int, n: int, m: int)
    ensures
      Mul(Blend(outer as real, border as real, fill as real, n as real / 16.0, m as real / 16.0), 16.0)
      == (outer * (16 - n) + border * (n - m) + fill * m) as real
  {
    assert (outer * (16 - n)) as real == outer as real * (16.0 - n as real);
    assert (border * (n - m)) as real == border as real * (n as real - m as real);
    assert (fill * m) as real == fill as real * m as real;
  }

  lemma ThreeWayIs(outer: int, border: int, fill: int, n: int, m: int)
    ensures
      IsNearest(MixChannel(outer, border, fill, n as real / 16.0, m as real / 16.0),
                outer * (16 - n) + border * (n - m) + fill * m, 16)
  {
    var v := Blend(outer as real, border as real, fill as real, n as real / 16.0, m as real / 16.0);
    RoundIsNear(v);
    BlendIs(outer, border, fill, n, m);
    NearQuotient(Round(v), v, outer * (16 - n) + border * (n - m) + fill * m, 16);
  }

  /** A pixel of the frame: with n samples in the outer box and m in the inner one, the
      colours around it, of the border and of the fill mixed 16 - n to n - m to m. */
  lemma FramePixelIs(h: HypotFn, size: int, p: Palette, x: int, y: int)
    requires IsHypot(h)
    ensures
      var n := |SamplesIn(h, RoundedBox(0.0, 0.0, size as real, size as real, 5.0), x, y, 16)|;
      var m := |SamplesIn(h, RoundedBox(1.0, 1.0, size as real - 1.0, size as real - 1.0, 4.0), x, y, 16)|;
      var c := FramePixel(h, size, p, x, y);
      && IsNearest(c.r, p.outer.r * (16 - n) + p.border.r * (n - m) + p.fill.r * m, 16)
      && IsNearest(c.g, p.outer.g * (16 - n) + p.border.g * (n - m) + p.fill.g * m, 16)
      && IsNearest(c.b, p.outer.b * (16 - n) + p.border.b * (n - m) + p.fill.b * m, 16)
  {
    var (n, m) := (|SamplesIn(h, OuterBox(size), x, y, 16)|, |SamplesIn(h, InnerBox(size), x, y, 16)|);
    CoverageCounts(h, OuterBox(size), x, y);
    CoverageCounts(h, InnerBox(size), x, y);
    ThreeWayIs(p.outer.r, p.border.r, p.fill.r, n, m);
    ThreeWayIs(p.outer.g, p.border.g, p.fill.g, n, m);
    ThreeWayIs(p.outer.b, p.border.b, p.fill.b, n, m);
  }

  // ----- stretching the tile draws the larger frame -----

  /** Within a pixel, the distance to the straight part of an edge is the same
      before and after the middle of the tile is stretched. */
  lemma OutsideSurvivesStretch(i: int, size: int, f: real)
    requires size >= TILE && 0 <= i < size && 0.0 <= f <= 1.0
    ensures
      Outside(RADIUS as real, TILE as real - RADIUS as real, StretchIndex(i, size) as real + f)
      == Outside(RADIUS as real, size as real - RADIUS as real, i as real + f)
  {}

  lemma BoxesSurviveStretch(h: HypotFn, size: int, x: int, y: int, fx: real, fy: real)
    requires IsHypot(h)
    requires size >= TILE && 0 <= x < size && 0 <= y < size
    requires 0.0 <= fx <= 1.0 && 0.0 <= fy <= 1.0
    ensures
      var (u, v) := (StretchIndex(x, size) as real + fx, StretchIndex(y, size) as real + fy);
      && Eval(h, OuterBox(TILE), u, v) == Eval(h, OuterBox(size), x as real + fx, y as real + fy)
      && Eval(h, InnerBox(TILE), u, v) == Eval(h, InnerBox(size), x as real + fx, y as real + fy)
  {
    OutsideSurvivesStretch(x, size, fx);
    OutsideSurvivesStretch(y, size, fy);
    InnerBoxIsInset(h, TILE, StretchIndex(x, size) as real + fx, StretchIndex(y, size) as real + fy);
    InnerBoxIsInset(h, size, x as real + fx, y as real + fy);
  }

  predicate AgreeAt(f: Sdf, u: int, v: int, g: Sdf, x: int, y: int, fx: real, fy: real) {
    f(u as real + fx, v as real + fy) == g(x as real + fx, y as real + fy)
  }

  /** The two distances read the same all over pixel (u, v) and pixel (x, y). */
  ghost predicate Agree(f: Sdf, u: int, v: int, g: Sdf, x: int, y: int) {
    forall fx, fy {:trigger AgreeAt(f, u, v, g, x, y, fx, fy)} ::
      0.0 <= fx <= 1.0 && 0.0 <= fy <= 1.0 ==> AgreeAt(f, u, v, g, x, y, fx, fy)
  }

  lemma {:induction false} HitsDependOnSamples(f: Sdf, u: int, v: int, g: Sdf, x: int, y: int, n: nat)
    requires Agree(f, u, v, g, x, y)
    requires n <= 16
    ensures Hits(f, u, v, n) == Hits(g, x, y, n)
  {
    if n > 0 {
      HitsDependOnSamples(f, u, v, g, x, y, n - 1);
      var fx := (((n - 1) % SUPERSAMPLE) as real + 0.5) / SUPERSAMPLE as real;
      var fy := (((n - 1) / SUPERSAMPLE) as real + 0.5) / SUPERSAMPLE as real;
      assert AgreeAt(f, u, v, g, x, y, fx, fy);
    }
  }

  lemma CoverageDependsOnSamples(f: Sdf, u: int, v: int, g: Sdf, x: int, y: int)
    requires Agree(f, u, v, g, x, y)
    ensures CoverageAt(SURE, f, u, v) == CoverageAt(SURE, g, x, y)
  {
    HitsDependOnSamples(f, u, v, g, x, y, 16);
    assert AgreeAt(f, u, v, g, x, y, 0.5, 0.5);
  }

  lemma BoxesAgree(h: HypotFn, size: int, x: int, y: int)
    requires IsHypot(h)
    requires size >= TILE && 0 <= x < size && 0 <= y < size
    ensures
      var (u, v) := (StretchIndex(x, size), StretchIndex(y, size));
      && Agree(ShapeSdf(h, OuterBox(TILE)), u, v, ShapeSdf(h, OuterBox(size)), x, y)
      && Agree(ShapeSdf(h, InnerBox(TILE)), u, v, ShapeSdf(h, InnerBox(size)), x, y)
  {
    var (u, v) := (StretchIndex(x, size), StretchIndex(y, size));
    forall fx, fy | 0.0 <= fx <= 1.0 && 0.0 <= fy <= 1.0
      ensures AgreeAt(ShapeSdf(h, OuterBox(TILE)), u, v, ShapeSdf(h, OuterBox(size)), x, y, fx, fy)
      ensures AgreeAt(ShapeSdf(h, InnerBox(TILE)), u, v, ShapeSdf(h, InnerBox(size)), x, y, fx, fy)
    {
      BoxesSurviveStretch(h, size, x, y, fx, fy);
    }
  }

  /** The nine-patch preserves meaning: stretching the tile to any size of at
      least the tile's own gives exactly the frame drawn at that size. */
  lemma StretchedTileIsDirectFrame(h: HypotFn, size: int, p: Palette, x: int, y: int)
    requires IsHypot(h)
    requires size >= TILE && 0 <= x < size && 0 <= y < size
    ensures 0 <= StretchIndex(x, size) < TILE && 0 <= StretchIndex(y, size) < TILE
    ensures
      FramePixel(h, TILE, p, StretchIndex(x, size), StretchIndex(y, size)) == FramePixel(h, size, p, x, y)
  {
    var (u, v) := (StretchIndex(x, size), StretchIndex(y, size));
    BoxesAgree(h, size, x, y);
    CoverageDependsOnSamples(ShapeSdf(h, OuterBox(TILE)), u, v, ShapeSdf(h, OuterBox(size)), x, y);
    CoverageDependsOnSamples(ShapeSdf(h, InnerBox(TILE)), u, v, ShapeSdf(h, InnerBox(size)), x, y);
  }

  /** One pixel of a stretched row. */
  lemma StretchedPixel(h: HypotFn, p: Palette, src: seq<Rgb>, x: int, y: int)
    requires IsHypot(h) && 0 <= x < STRETCHED && 0 <= y < STRETCHED
    requires IsFrameRow(h, TILE, p, StretchIndex(y, STRETCHED), src)
    ensures 0 <= StretchIndex(x, STRETCHED) < |src|
    ensures src[StretchIndex(x, STRETCHED)] == FramePixel(h, STRETCHED, p, x, y)
  {
    StretchedTileIsDirectFrame(h, STRETCHED, p, x, y);
  }

  method StretchRow(h: HypotFn, p: Palette, src: seq<Rgb>, ghost y: int) returns (row: seq<Rgb>)
    requires IsHypot(h) && 0 <= y < STRETCHED
    requires IsFrameRow(h, TILE, p, StretchIndex(y, STRETCHED), src)
    ensures IsFrameRow(h, STRETCHED, p, y, row)
  {
    row := [];
    for x := 0 to STRETCHED
      invariant |row| == x && StartsRow(h, STRETCHED, p, y, row)
    {
      StretchedPixel(h, p, src, x, y);
      OnePixelMore(h, STRETCHED, p, y, row, src[StretchIndex(x, STRETCHED)]);
      row := row + [src[StretchIndex(x, STRETCHED)]];
    }
  }

  method RenderFrame(h: HypotFn, p: Palette) returns (rows: seq<seq<Rgb>>)
    requires IsHypot(h)
    ensures |rows| == STRETCHED
    ensures forall y :: 0 <= y < STRETCHED ==> IsFrameRow(h, STRETCHED, p, y, rows[y])
  {
    var tile := CornerTile(h, p);
    rows := [];
    for y := 0 to STRETCHED
      invariant |rows| == y
      invariant forall j :: 0 <= j < y ==> IsFrameRow(h, STRETCHED, p, j, rows[j])
    {
      var row := StretchRow(h, p, tile[StretchIndex(y, STRETCHED)], y);
      rows := rows + [row];
    }
  }
}
