/** What a frame of the bokeh desktop shows (ce_apps/cerf_demo/desktop.c): where the
    discs are, how bright, and how the first five seconds fade in. */
module BokehLaws {
  import opened BokehDesktop

  // ----- what place, size and light are -----

  /** q is a / b rounded down. */
  predicate IsFloor(q: int, a: int, b: int) { q * b <= a < (q + 1) * b }

  lemma FloorIs(a: int, b: int)
    requires b > 0
    ensures IsFloor(a / b, a, b)
  {
    assert a == a / b * b + a % b;
    assert (a / b + 1) * b == a / b * b + b;
  }

  /** A disc's radius and centre: the fractions of height and width given, rounded down,
      and as far above the place below the bottom edge as it has travelled, modulo the
      way from there to the place above the top edge. */
  lemma PlaceIs(d: Disc, v: View)
    requires InitialRange(d) && ValidView(v)
    ensures IsFloor(Radius(d, v), d.rf as int * v.height, 1000)
    ensures IsFloor(CentreX(d, v), d.xf as int * v.width, 1000)
    ensures
      var (way, steps) := (v.height + 2 * Radius(d, v), v.tick / d.div as int + d.off as int);
      && way > 0 && (v.height + Radius(d, v) - CentreY(d, v) - steps) % way == 0
      && 0 <= v.height + Radius(d, v) - CentreY(d, v) < way
  {
    DiscRanges(d, v);
    FloorIs(d.rf as int * v.height, 1000);
    FloorIs(d.xf as int * v.width, 1000);
    var (way, steps) := (Span(d, v), v.tick / d.div as int + d.off as int);
    assert steps % way - steps == -(steps / way) * way;
    DivModUnique(steps % way - steps, way, -(steps / way), 0);
  }

  /** Full from the bottom edge down, none from the top edge up, in between the height
      above the top in 256ths. */
  lemma GlowIs(d: Disc, v: View)
    requires InitialRange(d) && ValidView(v)
    ensures CentreY(d, v) >= v.height ==> Glow(d, v) == 256
    ensures CentreY(d, v) <= 0 ==> Glow(d, v) == 0
    ensures 0 <= CentreY(d, v) <= v.height ==> IsFloor(Glow(d, v), CentreY(d, v) * 256, v.height)
  {
    var (cy, height) := (CentreY(d, v), v.height);
    if cy <= 0 {
      NoGlow(cy, height);
      FloorIs(0, height);
    } else {
      FloorIs(cy * 256, height);
      if cy >= height {
        GlowAtBottom(cy, height);
      } else {
        QuotientBound(cy * 256, height, 256);
      }
    }
  }

  lemma GlowAtBottom(cy: int, height: int)
    requires cy >= height > 0
    ensures cy * 256 / height >= 256
  {
    FloorIs(cy * 256, height);
    if cy * 256 / height < 256 {
      MulMonotone(cy * 256 / height + 1, 256, height);
    }
  }

  /** The brightness at the centre, none from the rim on, in between in proportion to
      what the squared distance is short of the squared radius. */
  lemma SoftIs(r2: int, d2: int, amp: int)
    requires r2 > 0 && d2 >= 0 && amp >= 0
    ensures d2 == 0 ==> Soft(r2, d2, amp) == amp
    ensures d2 >= r2 ==> Soft(r2, d2, amp) == 0
    ensures d2 <= r2 ==> IsFloor(Soft(r2, d2, amp), (r2 - d2) * amp, r2)
  {
    FloorIs((r2 - d2) * amp, r2);
    if d2 == 0 {
      DivModUnique(r2 * amp, r2, amp, 0);
    }
  }

  lemma QuotientsOrdered(a: int, b: int, n: int)
    requires a <= b && n > 0
    ensures a / n <= b / n
  {
    FloorIs(a, n);
    FloorIs(b, n);
    if a / n > b / n {
      MulMonotone(b / n + 1, a / n, n);
    }
  }

  /** It does not grow with the distance nor shrink with the brightness. */
  lemma SoftMonotone(r2: int, near: int, far: int, amp: int, more: int)
    requires r2 > 0 && 0 <= near <= far && 0 <= amp <= more
    ensures 0 <= Soft(r2, far, amp) <= Soft(r2, near, more)
  {
    if near < r2 {
      MulBounds(r2 - near, more, r2 - near, more);
      QuotientsOrdered(0, (r2 - near) * more, r2);
      if far < r2 {
        MulBounds(r2 - far, amp, r2 - near, more);
        QuotientsOrdered(0, (r2 - far) * amp, r2);
        QuotientsOrdered((r2 - far) * amp, (r2 - near) * more, r2);
      }
    }
  }

  /** What a disc adds: its colour, times its glow, times the fade-in, times the falloff,
      each product in 256ths rounded down. */
  lemma LightIs(d: Disc, v: View, px: int, py: int)
    requires InitialRange(d) && ValidView(v)
    ensures IsFloor(Brightness(d, v), Glow(d, v) * v.fade, 256)
    ensures
      var (dx, dy, r) := (px - CentreX(d, v), py - CentreY(d, v), Radius(d, v));
      && (dx == 0 && dy == 0 ==> Falloff(d, v, px, py) == Brightness(d, v))
      && (dx * dx + dy * dy >= r * r ==> Falloff(d, v, px, py) == 0)
      && (dx * dx + dy * dy <= r * r ==>
            IsFloor(Falloff(d, v, px, py), (r * r - (dx * dx + dy * dy)) * Brightness(d, v), r * r))
    ensures
      var (c, f, l) := (DISC_COLOURS[d.col], Falloff(d, v, px, py), Light(d, v, px, py));
      IsFloor(l.r, c.r * f, 256) && IsFloor(l.g, c.g * f, 256) && IsFloor(l.b, c.b * f, 256)
  {
    RadiusRange(d, v);
    BrightnessRange(d, v);
    FloorIs(Glow(d, v) * v.fade, 256);
    SquareNonNegative(px - CentreX(d, v));
    SquareNonNegative(py - CentreY(d, v));
    SoftIs(Square(Radius(d, v)), Distance2(d, v, px, py), Brightness(d, v));
    var (c, f) := (ColourOf(d), Falloff(d, v, px, py));
    FloorIs(c.r * f, 256);
    FloorIs(c.g * f, 256);
    FloorIs(c.b * f, 256);
  }

  // ----- the fade-in -----

  /** The difference of the clocks as a signed 32-bit number. */
  predicate Elapsed(clock: uint32, start: uint32, el: int) {
    -0x8000_0000 <= el < 0x8000_0000 && (clock as int - start as int - el) % 0x1_0000_0000 == 0
  }

  /** In the first five seconds the fade-in is the part of them elapsed, in 256ths rounded
      down; after them, and for a difference below zero, it is full. */
  lemma FadeIs(clock: uint32, start: uint32, el: int)
    requires Elapsed(clock, start, el)
    ensures if 0 <= el < 5000 then IsFloor(Fade(clock, start), 256 * el, 5000) else Fade(clock, start) == 256
  {}

  /** The discs are at the same places and as large. */
  ghost predicate SamePlaces(ds: seq<Disc>, v: View, w: View)
    requires AllInitial(ds) && ValidView(v) && ValidView(w)
  {
    v.width == w.width && v.height == w.height && forall i :: 0 <= i < |ds| ==> CentreY(ds[i], v) == CentreY(ds[i], w)
  }

  lemma LightGrows(d: Disc, v: View, w: View, px: int, py: int)
    requires InitialRange(d) && ValidView(v) && ValidView(w) && v.fade <= w.fade
    requires v.width == w.width && v.height == w.height && CentreY(d, v) == CentreY(d, w)
    ensures
      var (a, b) := (Light(d, v, px, py), Light(d, w, px, py));
      a.r <= b.r && a.g <= b.g && a.b <= b.b
  {
    RadiusRange(d, v);
    MulBounds(Glow(d, v), v.fade, Glow(d, v), w.fade);
    QuotientsOrdered(Glow(d, v) * v.fade, Glow(d, w) * w.fade, 256);
    BrightnessRange(d, v);
    SquareNonNegative(px - CentreX(d, v));
    SquareNonNegative(py - CentreY(d, v));
    var d2 := Distance2(d, v, px, py);
    SoftMonotone(Square(Radius(d, v)), d2, d2, Brightness(d, v), Brightness(d, w));
    ColourGrows(ColourOf(d), Falloff(d, v, px, py), Falloff(d, w, px, py));
  }

  lemma ColourGrows(c: Rgb, f: int, g: int)
    requires 0 <= f <= g && 0 <= c.r && 0 <= c.g && 0 <= c.b
    ensures c.r * f / 256 <= c.r * g / 256 && c.g * f / 256 <= c.g * g / 256 && c.b * f / 256 <= c.b * g / 256
  {
    MulBounds(c.r, f, c.r, g);
    MulBounds(c.g, f, c.g, g);
    MulBounds(c.b, f, c.b, g);
    QuotientsOrdered(c.r * f, c.r * g, 256);
    QuotientsOrdered(c.g * f, c.g * g, 256);
    QuotientsOrdered(c.b * f, c.b * g, 256);
  }

  lemma {:induction false} TotalLightGrows(ds: seq<Disc>, v: View, w: View, px: int, py: int)
    requires AllInitial(ds) && ValidView(v) && ValidView(w) && v.fade <= w.fade && SamePlaces(ds, v, w)
    ensures
      var (a, b) := (TotalLight(ds, v, px, py), TotalLight(ds, w, px, py));
      a.r <= b.r && a.g <= b.g && a.b <= b.b
  {
    if |ds| > 0 {
      TotalLightGrows(ds[..|ds| - 1], v, w, px, py);
      LightGrows(ds[|ds| - 1], v, w, px, py);
    }
  }

  /** Every channel of a pixel is the total light, cut off at 255. */
  lemma FrameChannels(ds: seq<Disc>, v: View, px: int, py: int)
    requires AllInitial(ds) && ValidView(v)
    ensures
      var (c, t) := (Unpack(FramePixel(ds, v, px, py)), TotalLight(ds, v, px, py));
      && c.r == (if t.r <= 255 then t.r else 255) && c.g == (if t.g <= 255 then t.g else 255)
      && c.b == (if t.b <= 255 then t.b else 255)
  {
    TotalLightNonNegative(ds, v, px, py);
    var t := TotalLight(ds, v, px, py);
    UnpackPacked(Saturate(t.r), Saturate(t.g), Saturate(t.b));
  }

  /** As long as the discs stay where they are, no channel of a pixel gets darker while
      the frame fades in. */
  lemma FadesIn(ds: seq<Disc>, v: View, w: View, start: uint32, px: int, py: int, el: int, later: int)
    requires AllInitial(ds) && ValidView(v) && ValidView(w) && SamePlaces(ds, v, w)
    requires Elapsed(v.tick as uint32, start, el) && v.fade == Fade(v.tick as uint32, start)
    requires Elapsed(w.tick as uint32, start, later) && w.fade == Fade(w.tick as uint32, start)
    requires 0 <= el <= later
    ensures
      var (a, b) := (Unpack(FramePixel(ds, v, px, py)), Unpack(FramePixel(ds, w, px, py)));
      a.r <= b.r && a.g <= b.g && a.b <= b.b
  {
    FadeIs(v.tick as uint32, start, el);
    FadeIs(w.tick as uint32, start, later);
    TotalLightGrows(ds, v, w, px, py);
    FrameChannels(ds, v, px, py);
    FrameChannels(ds, w, px, py);
  }

  lemma {:induction false} NoLight(ds: seq<Disc>, v: View, px: int, py: int)
    requires AllInitial(ds) && ValidView(v) && v.fade == 0
    ensures TotalLight(ds, v, px, py) == Rgb(0, 0, 0)
  {
    if |ds| > 0 {
      NoLight(ds[..|ds| - 1], v, px, py);
      NoBrightness(ds[|ds| - 1], v, px, py);
    }
  }

  /** The first frame is black. */
  lemma FirstFrameIsBlack(ds: seq<Disc>, v: View, start: uint32, px: int, py: int)
    requires AllInitial(ds) && ValidView(v) && v.fade == Fade(start, start)
    ensures FramePixel(ds, v, px, py) == 0
  {
    FadeIs(start, start, 0);
    NoLight(ds, v, px, py);
  }
}
