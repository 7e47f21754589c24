/** The bokeh desktop compositor (ce_apps/cerf_demo/desktop.c).

    28 discs drift up a small 32-bit buffer; each adds a soft, saturating light to
    the pixels it covers.  The methods below work in place on the buffer with the
    source's own 32-bit types, so that verifying them also shows that no signed
    overflow and no index outside the buffer can occur.  Their specification is a
    pixel's mathematical meaning: per channel, the sum of all discs' light cut off
    at 255. */
module BokehDesktop {
  newtype int32 = x: int | -0x8000_0000 <= x < 0x8000_0000
  newtype uint32 = x: int | 0 <= x < 0x1_0000_0000

  const NDISC: int32 := 28
  const FADE_MS: int32 := 5000

  datatype Disc = Disc(xf: int32, rf: int32, col: int32, div: int32, off: int32)
  datatype Rgb = Rgb(r: int, g: int, b: int)

  const DISC_COLOURS: seq<Rgb> :=
    [Rgb(118, 58, 198), Rgb(54, 86, 214), Rgb(92, 48, 182), Rgb(44, 74, 200), Rgb(138, 66, 206)]

  /** What `InitDiscs` guarantees of every disc. */
  predicate InitialRange(d: Disc) {
    && 0 <= d.xf < 1000 && 90 <= d.rf < 300 && 0 <= d.col < 5
    && 28 <= d.div < 98 && 0 <= d.off < 4000
  }

  // ----- the generator -----

  function LcgNext(state: uint32): uint32 {
    ((state as int * 1103515245 + 12345) % 0x1_0000_0000) as uint32
  }

  function LcgAfter(state: uint32, n: nat): uint32 {
    if n == 0 then state else LcgNext(LcgAfter(state, n - 1))
  }

  /** The n-th number drawn from a generator in the given state, counting from 1. */
  function Draw(state: uint32, n: nat): int { LcgAfter(state, n) as int / 256 }

  /** The disc built from five consecutive draws. */
  function DrawnDisc(state: uint32, i: nat): Disc {
    Disc((Draw(state, 5 * i + 1) % 1000) as int32, (90 + Draw(state, 5 * i + 2) % 210) as int32,
         (Draw(state, 5 * i + 3) % 5) as int32, (28 + Draw(state, 5 * i + 4) % 70) as int32,
         (Draw(state, 5 * i + 5) % 4000) as int32)
  }

  // ----- the meaning of a frame -----

  /** What a frame depends on besides the discs: the buffer's size, the animation
      clock and the fade-in factor. */
  datatype View = View(width: int, height: int, tick: int, fade: int)

  predicate ValidView(v: View) {
    && 200 <= v.width <= 480 && 120 <= v.height <= 300
    && 0 <= v.tick < 0x1_0000_0000 && 0 <= v.fade <= 256
  }

  /** C's division, which truncates toward zero. */
  function TruncDiv(a: int, b: int): int
    requires b > 0
  {
    if a >= 0 then a / b else -(-a / b)
  }

  function Clamp(a: int, low: int, high: int): int {
    if a < low then low else if a > high then high else a
  }

  function Radius(d: Disc, v: View): int {
    var r := d.rf as int * v.height / 1000;
    if r < 4 then 4 else r
  }

  function CentreX(d: Disc, v: View): int { d.xf as int * v.width / 1000 }

  function Span(d: Disc, v: View): int { v.height + 2 * Radius(d, v) }

  function Travel(d: Disc, v: View): int
    requires InitialRange(d) && ValidView(v)
  {
    (v.tick / d.div as int + d.off as int) % Span(d, v)
  }

  function CentreY(d: Disc, v: View): int
    requires InitialRange(d) && ValidView(v)
  {
    v.height + Radius(d, v) - Travel(d, v)
  }

  /** Brightness by height, before the fade-in: full at the bottom, none at the top. */
  function Glow(d: Disc, v: View): int
    requires InitialRange(d) && ValidView(v)
  {
    Clamp(TruncDiv(CentreY(d, v) * 256, v.height), 0, 256)
  }

  function Brightness(d: Disc, v: View): int
    requires InitialRange(d) && ValidView(v)
  {
    Glow(d, v) * v.fade / 256
  }

  function Square(a: int): int { a * a }

  function Distance2(d: Disc, v: View, px: int, py: int): int
    requires InitialRange(d) && ValidView(v)
  {
    Square(px - CentreX(d, v)) + Square(py - CentreY(d, v))
  }

  /** Soft falloff: full brightness at the centre, none at the rim. */
  function Soft(r2: int, d2: int, amp: int): int
    requires r2 > 0
  {
    if d2 < r2 then (r2 - d2) * amp / r2 else 0
  }

  /** The falloff factor (0..256) of a disc at any pixel of the plane. */
  function Falloff(d: Disc, v: View, px: int, py: int): int
    requires InitialRange(d) && ValidView(v)
  {
    RadiusRange(d, v);
    Soft(Square(Radius(d, v)), Distance2(d, v, px, py), Brightness(d, v))
  }

  function ColourOf(d: Disc): Rgb
    requires InitialRange(d)
  {
    DISC_COLOURS[d.col]
  }

  /** The light a disc adds to a pixel, per channel. */
  function Light(d: Disc, v: View, px: int, py: int): Rgb
    requires InitialRange(d) && ValidView(v)
  {
    var (c, f) := (ColourOf(d), Falloff(d, v, px, py));
    Rgb(c.r * f / 256, c.g * f / 256, c.b * f / 256)
  }

  ghost predicate AllInitial(ds: seq<Disc>) { forall i :: 0 <= i < |ds| ==> InitialRange(ds[i]) }

  /** The light of all discs together, without any limit. */
  function TotalLight(ds: seq<Disc>, v: View, px: int, py: int): Rgb
    requires AllInitial(ds) && ValidView(v)
  {
    if |ds| == 0 then Rgb(0, 0, 0)
    else
      var (rest, last) := (TotalLight(ds[..|ds| - 1], v, px, py), Light(ds[|ds| - 1], v, px, py));
      Rgb(rest.r + last.r, rest.g + last.g, rest.b + last.b)
  }

  function Saturate(a: int): int { if a > 255 then 255 else a }

  function Pack(r: int, g: int, b: int): int { r * 65536 + g * 256 + b }

  function PackSaturated(c: Rgb): int { Pack(Saturate(c.r), Saturate(c.g), Saturate(c.b)) }

  /** The finished pixel: every channel is the total light cut off at 255. */
  function FramePixel(ds: seq<Disc>, v: View, px: int, py: int): int
    requires AllInitial(ds) && ValidView(v)
  {
    PackSaturated(TotalLight(ds, v, px, py))
  }

  // ----- ranges -----

  lemma MulBounds(a: int, b: int, high: int, most: int)
    requires 0 <= a <= high && 0 <= b <= most
    ensures 0 <= a * b <= high * most
  {}

  lemma RadiusRange(d: Disc, v: View)
    requires InitialRange(d) && ValidView(v)
    ensures 10 <= Radius(d, v) <= 89 && 100 <= Square(Radius(d, v)) <= 7921
  {
    MulBounds(d.rf as int - 90, v.height, 209, 300);
    assert d.rf as int * v.height == (d.rf as int - 90) * v.height + 90 * v.height;
    SquareRange(Radius(d, v), 10, 89);
  }

  lemma SquareRange(r: int, low: int, high: int)
    requires 0 <= low <= r <= high
    ensures low * low <= Square(r) <= high * high
  {}

  lemma CentredSquare(a: int, high: int)
    requires -high <= a <= high
    ensures 0 <= a * a <= high * high
  {
    MulBounds(high - a, high + a, 2 * high, 2 * high);
  }

  lemma DiscRanges(d: Disc, v: View)
    requires InitialRange(d) && ValidView(v)
    ensures 10 <= Radius(d, v) <= 89 && 100 <= Square(Radius(d, v)) <= 7921
    ensures 0 <= CentreX(d, v) < v.width
    ensures 0 <= Travel(d, v) < Span(d, v)
    ensures 1 - Radius(d, v) <= CentreY(d, v) <= v.height + Radius(d, v)
  {
    RadiusRange(d, v);
    MulBounds(d.xf as int, v.width, 999, v.width);
  }

  lemma BrightnessRange(d: Disc, v: View)
    requires InitialRange(d) && ValidView(v)
    ensures 0 <= Brightness(d, v) <= 256
  {
    MulBounds(Glow(d, v), v.fade, 256, 256);
  }

  lemma SoftRange(r2: int, d2: int, amp: int)
    requires r2 > 0 && d2 >= 0 && 0 <= amp <= 256
    ensures 0 <= Soft(r2, d2, amp) <= 256
    ensures amp == 0 ==> Soft(r2, d2, amp) == 0
  {
    if d2 < r2 {
      MulBounds(r2 - d2, amp, r2, 256);
      QuotientBound((r2 - d2) * amp, r2, 256);
    }
  }

  lemma LightRange(d: Disc, v: View, px: int, py: int)
    requires InitialRange(d) && ValidView(v)
    ensures 0 <= Falloff(d, v, px, py) <= 256
    ensures var l := Light(d, v, px, py); 0 <= l.r <= 255 && 0 <= l.g <= 255 && 0 <= l.b <= 255
  {
    RadiusRange(d, v);
    BrightnessRange(d, v);
    SquareNonNegative(px - CentreX(d, v));
    SquareNonNegative(py - CentreY(d, v));
    SoftRange(Square(Radius(d, v)), Distance2(d, v, px, py), Brightness(d, v));
    var (c, f) := (ColourOf(d), Falloff(d, v, px, py));
    MulBounds(c.r, f, 255, 256);
    MulBounds(c.g, f, 255, 256);
    MulBounds(c.b, f, 255, 256);
  }

  lemma SquareNonNegative(a: int)
    ensures Square(a) >= 0
  {}

  lemma MulMonotone(a: int, b: int, c: int)
    requires a <= b && c >= 0
    ensures a * c <= b * c
  {}

  lemma DivModUnique(a: int, n: int, q: int, r: int)
    requires n > 0 && a == q * n + r && 0 <= r < n
    ensures a / n == q && a % n == r
  {
    if a / n > q { MulMonotone(q + 1, a / n, n); }
    if a / n < q { MulMonotone(a / n + 1, q, n); }
  }

  lemma QuotientBound(a: int, b: int, q: int)
    requires b > 0 && 0 <= a <= b * q
    ensures 0 <= a / b <= q
  {
    if a / b > q {
      MulMonotone(q + 1, a / b, b);
    }
  }

  lemma SmallerQuotient(a: int, small: int, big: int)
    requires a >= 0 && 0 < small <= big
    ensures a / big <= a / small
  {
    MulMonotone(small, big, a / big);
    assert (a / big) * small <= a;
    if a / big > a / small { MulMonotone(a / small + 1, a / big, small); }
  }

  lemma SquareBeyond(a: int, r: int)
    requires r >= 0 && (a <= -r || a >= r)
    ensures Square(a) >= Square(r)
    decreases a < 0
  {
    if a >= 0 {
      MulBounds(a - r, r, a - r, r);
      assert Square(a) - Square(r) == (a - r) * (a - r) + 2 * ((a - r) * r);
      SquareNonNegative(a - r);
      assert Square(a - r) == (a - r) * (a - r);
    } else {
      SquareBeyond(-a, r);
      assert Square(-a) == Square(a);
    }
  }

  // ----- what one disc can light -----

  /** Pixels outside a disc's bounding square get no light from it, so clipping
      the loops to that square drops nothing. */
  lemma DarkOutsideBox(d: Disc, v: View, px: int, py: int)
    requires InitialRange(d) && ValidView(v)
    requires
      var (cx, cy, r) := (CentreX(d, v), CentreY(d, v), Radius(d, v));
      !(cx - r <= px < cx + r && cy - r <= py < cy + r)
    ensures Falloff(d, v, px, py) == 0 && Light(d, v, px, py) == Rgb(0, 0, 0)
  {
    var (cx, cy, r) := (CentreX(d, v), CentreY(d, v), Radius(d, v));
    DiscRanges(d, v);
    SquareNonNegative(px - cx);
    SquareNonNegative(py - cy);
    if !(cx - r <= px < cx + r) {
      SquareBeyond(px - cx, r);
    } else {
      SquareBeyond(py - cy, r);
    }
  }

  lemma NoBrightness(d: Disc, v: View, px: int, py: int)
    requires InitialRange(d) && ValidView(v) && Brightness(d, v) == 0
    ensures Falloff(d, v, px, py) == 0 && Light(d, v, px, py) == Rgb(0, 0, 0)
  {
    RadiusRange(d, v);
    SquareNonNegative(px - CentreX(d, v));
    SquareNonNegative(py - CentreY(d, v));
    SoftRange(Square(Radius(d, v)), Distance2(d, v, px, py), Brightness(d, v));
  }

  /** A disc whose centre is at or above the top edge has no brightness left. */
  lemma DarkAboveTop(d: Disc, v: View, px: int, py: int)
    requires InitialRange(d) && ValidView(v) && CentreY(d, v) <= 0
    ensures Light(d, v, px, py) == Rgb(0, 0, 0)
  {
    NoGlow(CentreY(d, v), v.height);
    NoBrightness(d, v, px, py);
  }

  lemma NoGlow(cy: int, height: int)
    requires cy <= 0 && height > 0
    ensures Clamp(TruncDiv(cy * 256, height), 0, 256) == 0
  {}

  /** One step of the disc's own clock moves it up one row, or wraps it. */
  lemma TravelStep(d: Disc, v: View, next: View)
    requires InitialRange(d) && ValidView(v) && ValidView(next)
    requires next == v.(tick := v.tick + d.div as int)
    ensures Travel(d, next) == if Travel(d, v) + 1 == Span(d, v) then 0 else Travel(d, v) + 1
  {
    DiscRanges(d, v);
    var div := d.div as int;
    DivModUnique(v.tick + div, div, v.tick / div + 1, v.tick % div);
    ModStep(v.tick / div + d.off as int, Span(d, v));
  }

  lemma ModStep(a: int, n: int)
    requires n > 1
    ensures (a + 1) % n == if a % n + 1 == n then 0 else a % n + 1
  {
    var (q, r) := (a / n, a % n);
    if r + 1 == n {
      DivModUnique(a + 1, n, q + 1, 0);
    } else {
      DivModUnique(a + 1, n, q, r + 1);
    }
  }

  /** In at most d.div ticks a disc stands or makes one step. */
  lemma TravelWithinStep(d: Disc, v: View, next: View)
    requires InitialRange(d) && ValidView(v) && ValidView(next)
    requires v.tick <= next.tick <= v.tick + d.div as int && next == v.(tick := next.tick)
    ensures
      || Travel(d, next) == Travel(d, v)
      || Travel(d, next) == if Travel(d, v) + 1 == Span(d, v) then 0 else Travel(d, v) + 1
  {
    DiscRanges(d, v);
    StepsWithin(v.tick, next.tick, d.div as int);
    ModStep(v.tick / d.div as int + d.off as int, Span(d, v));
  }

  lemma StepsWithin(a: int, b: int, n: int)
    requires 0 <= a <= b <= a + n && 0 < n
    ensures b / n == a / n || b / n == a / n + 1
  {
    DivModUnique(a + n, n, a / n + 1, a % n);
    QuotientMonotone(a, b, n);
    QuotientMonotone(b, a + n, n);
  }

  lemma QuotientMonotone(a: int, b: int, n: int)
    requires 0 <= a <= b && 0 < n
    ensures a / n <= b / n
  {
    if b / n < a / n {
      MulMonotone(b / n + 1, a / n, n);
    }
  }

  /** Whenever a disc jumps from the top back to the bottom between two frames no more
      than one step of its clock apart, it lights no pixel of the buffer in the frame
      before the jump and none in the frame after it. */
  lemma WrapIsInvisible(d: Disc, v: View, next: View, px: int, py: int)
    requires InitialRange(d) && ValidView(v) && ValidView(next)
    requires v.tick <= next.tick <= v.tick + d.div as int && next == v.(tick := next.tick)
    requires CentreY(d, next) > CentreY(d, v)
    requires 0 <= px < v.width && 0 <= py < v.height
    ensures CentreY(d, v) == 1 - Radius(d, v) && CentreY(d, next) == v.height + Radius(d, v)
    ensures Light(d, v, px, py) == Rgb(0, 0, 0) && Light(d, next, px, py) == Rgb(0, 0, 0)
  {
    TravelWithinStep(d, v, next);
    DiscRanges(d, v);
    DarkAboveTop(d, v, px, py);
    DarkOutsideBox(d, next, px, py);
  }

  // ----- saturating addition and order -----

  lemma {:induction false} TotalLightNonNegative(ds: seq<Disc>, v: View, px: int, py: int)
    requires AllInitial(ds) && ValidView(v)
    ensures var t := TotalLight(ds, v, px, py); t.r >= 0 && t.g >= 0 && t.b >= 0
  {
    if |ds| > 0 {
      TotalLightNonNegative(ds[..|ds| - 1], v, px, py);
      LightRange(ds[|ds| - 1], v, px, py);
    }
  }

  function Unpack(p: int): Rgb { Rgb(p / 65536 % 256, p / 256 % 256, p % 256) }

  predicate IsPixel(p: int) { 0 <= p < 0x100_0000 }

  /** What the inner loop stores over pixel p: the clipped sum, channel by channel. */
  function AddLight(p: int, l: Rgb): int {
    var c := Unpack(p);
    PackSaturated(Rgb(c.r + l.r, c.g + l.g, c.b + l.b))
  }

  lemma AddLightIsPixel(p: int, l: Rgb)
    requires l.r >= 0 && l.g >= 0 && l.b >= 0
    ensures IsPixel(AddLight(p, l))
  {}

  lemma UnpackPacked(r: int, g: int, b: int)
    requires 0 <= r <= 255 && 0 <= g <= 255 && 0 <= b <= 255
    ensures IsPixel(Pack(r, g, b)) && Unpack(Pack(r, g, b)) == Rgb(r, g, b)
  {}

  lemma AddNothing(p: int)
    requires IsPixel(p)
    ensures AddLight(p, Rgb(0, 0, 0)) == p
  {}

  /** Clipping after every disc is the same as clipping the sum once. */
  lemma SaturatingSum(c: Rgb, l: Rgb)
    requires c.r >= 0 && c.g >= 0 && c.b >= 0
    requires 0 <= l.r && 0 <= l.g && 0 <= l.b
    ensures AddLight(PackSaturated(c), l) == PackSaturated(Rgb(c.r + l.r, c.g + l.g, c.b + l.b))
    ensures IsPixel(PackSaturated(c))
  {
    UnpackPacked(Saturate(c.r), Saturate(c.g), Saturate(c.b));
  }

  /** The source's shifts and masks on 32 bits compute these divisions and sums. */
  lemma ShiftsAreDivisions(p: bv32, r: bv32, g: bv32, b: bv32)
    requires r <= 255 && g <= 255 && b <= 255
    ensures (p >> 16) & 255 == (p / 65536) % 256 && (p >> 8) & 255 == (p / 256) % 256 && p & 255 == p % 256
    ensures (r << 16) | (g << 8) | b == r * 65536 + g * 256 + b
  {}

  function Plus(a: Rgb, b: Rgb): Rgb { Rgb(a.r + b.r, a.g + b.g, a.b + b.b) }

  lemma AllInitialParts(front: seq<Disc>, d: Disc, back: seq<Disc>)
    requires AllInitial(front) && InitialRange(d) && AllInitial(back)
    ensures AllInitial(front + [d] + back) && AllInitial(front + back)
  {}

  lemma OneMoreLight(ds: seq<Disc>, d: Disc, v: View, px: int, py: int)
    requires AllInitial(ds) && InitialRange(d) && ValidView(v)
    ensures AllInitial(ds + [d])
    ensures TotalLight(ds + [d], v, px, py) == Plus(TotalLight(ds, v, px, py), Light(d, v, px, py))
  {
    assert (ds + [d])[..|ds|] == ds;
  }

  lemma PlusCommutes(a: Rgb, b: Rgb, c: Rgb)
    ensures Plus(Plus(a, b), c) == Plus(Plus(a, c), b)
  {}

  lemma {:induction false} TotalLightSplit(front: seq<Disc>, d: Disc, back: seq<Disc>, v: View, px: int, py: int)
    requires AllInitial(front) && InitialRange(d) && AllInitial(back) && ValidView(v)
    ensures AllInitial(front + [d] + back) && AllInitial(front + back)
    ensures
      TotalLight(front + [d] + back, v, px, py)
      == Plus(TotalLight(front + back, v, px, py), Light(d, v, px, py))
  {
    AllInitialParts(front, d, back);
    if |back| == 0 {
      assert front + [d] + back == front + [d] && front + back == front;
      OneMoreLight(front, d, v, px, py);
    } else {
      var (rest, last) := (back[..|back| - 1], back[|back| - 1]);
      TotalLightSplit(front, d, rest, v, px, py);
      assert front + [d] + back == front + [d] + rest + [last] && front + back == front + rest + [last];
      OneMoreLight(front + [d] + rest, last, v, px, py);
      OneMoreLight(front + rest, last, v, px, py);
      PlusCommutes(TotalLight(front + rest, v, px, py), Light(d, v, px, py), Light(last, v, px, py));
    }
  }

  lemma RemoveOne<T>(a: multiset<T>, b: multiset<T>, x: T)
    requires a + multiset{x} == b + multiset{x}
    ensures a == b
  {
    assert a == (a + multiset{x}) - multiset{x};
    assert b == (b + multiset{x}) - multiset{x};
  }

  lemma Extract<T>(a: seq<T>, b: seq<T>) returns (front: seq<T>, back: seq<T>)
    requires |a| > 0 && multiset(a) == multiset(b)
    ensures b == front + [a[|a| - 1]] + back
    ensures multiset(a[..|a| - 1]) == multiset(front + back)
  {
    var (rest, last) := (a[..|a| - 1], a[|a| - 1]);
    assert a == rest + [last];
    assert last in multiset(b);
    var i :| 0 <= i < |b| && b[i] == last;
    front, back := b[..i], b[i + 1..];
    assert b == front + [last] + back;
    assert multiset(b) == multiset(front + back) + multiset{last};
    RemoveOne(multiset(rest), multiset(front + back), last);
  }

  lemma {:induction false} TotalLightOfPermutation(ds: seq<Disc>, es: seq<Disc>, v: View, px: int, py: int)
    requires AllInitial(ds) && AllInitial(es) && ValidView(v)
    requires multiset(ds) == multiset(es)
    ensures TotalLight(ds, v, px, py) == TotalLight(es, v, px, py)
  {
    if |ds| == 0 {
      assert |multiset(es)| == |es|;
    } else {
      var front, back := Extract(ds, es);
      assert forall i :: 0 <= i < |front| ==> front[i] == es[i];
      assert forall i :: 0 <= i < |back| ==> back[i] == es[|front| + 1 + i];
      TotalLightSplit(front, ds[|ds| - 1], back, v, px, py);
      TotalLightOfPermutation(ds[..|ds| - 1], front + back, v, px, py);
    }
  }

  /** The discs' order does not matter: any permutation gives the same frame. */
  lemma OrderIsIrrelevant(ds: seq<Disc>, es: seq<Disc>, v: View, px: int, py: int)
    requires AllInitial(ds) && AllInitial(es) && ValidView(v)
    requires multiset(ds) == multiset(es)
    ensures FramePixel(ds, v, px, py) == FramePixel(es, v, px, py)
  {
    TotalLightOfPermutation(ds, es, v, px, py);
  }

  lemma OneMoreDisc(ds: seq<Disc>, i: nat, v: View, px: int, py: int)
    requires AllInitial(ds) && ValidView(v) && i < |ds|
    ensures AllInitial(ds[..i]) && AllInitial(ds[..i + 1])
    ensures IsPixel(FramePixel(ds[..i], v, px, py))
    ensures AddLight(FramePixel(ds[..i], v, px, py), Light(ds[i], v, px, py)) == FramePixel(ds[..i + 1], v, px, py)
  {
    TotalLightNonNegative(ds[..i], v, px, py);
    LightRange(ds[i], v, px, py);
    SaturatingSum(TotalLight(ds[..i], v, px, py), Light(ds[i], v, px, py));
    assert ds[..i + 1][..i] == ds[..i];
  }

  // ----- the compositor: the source's globals and the methods that update them -----

  /** The fade-in factor, with the clock difference taken as a signed 32-bit number. */
  function Fade(clock: uint32, start: uint32): int {
    var elapsed := (clock as int - start as int) % 0x1_0000_0000;
    var el := if elapsed >= 0x8000_0000 then elapsed - 0x1_0000_0000 else elapsed;
    if el >= FADE_MS as int || el < 0 then 256 else el * 256 / FADE_MS as int
  }

  /** Buffer index k lies in row k / width at column k % width. */
  function RowOf(k: int, width: int): int requires width > 0 { k / width }
  function ColOf(k: int, width: int): int requires width > 0 { k % width }

  lemma RowMajor(row: int, col: int, width: int, height: int)
    requires 0 <= row < height && 0 <= col < width
    ensures 0 <= row * width + col < width * height
    ensures RowOf(row * width + col, width) == row && ColOf(row * width + col, width) == col
  {
    DivModUnique(row * width + col, width, row, col);
    MulMonotone(row + 1, height, width);
    MulBounds(row, width, row, width);
  }

  lemma IndexOf(k: int, width: int, height: int)
    requires width > 0 && 0 <= k < width * height
    ensures k == RowOf(k, width) * width + ColOf(k, width)
    ensures 0 <= RowOf(k, width) < height && 0 <= ColOf(k, width) < width
  {
    if k / width >= height { MulMonotone(height, k / width, width); }
  }

  /** Every pixel of the buffer is the finished pixel of the given discs. */
  ghost predicate Shows(b: seq<uint32>, ds: seq<Disc>, v: View)
    requires AllInitial(ds) && ValidView(v)
  {
    forall k :: 0 <= k < |b| ==> b[k] as int == FramePixel(ds, v, ColOf(k, v.width), RowOf(k, v.width))
  }

  lemma ShownArePixels(b: seq<uint32>, ds: seq<Disc>, i: nat, v: View)
    requires AllInitial(ds) && ValidView(v) && i < |ds| && Shows(b, ds[..i], v)
    ensures forall k :: 0 <= k < |b| ==> IsPixel(b[k] as int)
  {
    forall k | 0 <= k < |b|
      ensures IsPixel(b[k] as int)
    {
      OneMoreDisc(ds, i, v, ColOf(k, v.width), RowOf(k, v.width));
    }
  }

  lemma OneMoreShown(before: seq<uint32>, after: seq<uint32>, ds: seq<Disc>, i: nat, v: View)
    requires AllInitial(ds) && ValidView(v) && i < |ds| && |before| == |after|
    requires Shows(before, ds[..i], v)
    requires
      forall k :: 0 <= k < |after| ==>
        after[k] as int == AddLight(before[k] as int, Light(ds[i], v, ColOf(k, v.width), RowOf(k, v.width)))
    ensures Shows(after, ds[..i + 1], v)
  {
    forall k | 0 <= k < |after|
      ensures after[k] as int == FramePixel(ds[..i + 1], v, ColOf(k, v.width), RowOf(k, v.width))
    {
      OneMoreDisc(ds, i, v, ColOf(k, v.width), RowOf(k, v.width));
    }
  }

  class Compositor {
    var discs: array<Disc>
    var lcg: uint32
    var bits: array?<uint32>
    var fxw: int32
    var fxh: int32

    ghost predicate HasBuffer()
      reads this
    {
      bits != null && 200 <= fxw <= 480 && 120 <= fxh <= 300 && bits.Length == fxw as int * fxh as int
    }

    /** From the start of the program on: the buffer is there or not yet allocated. */
    ghost predicate Started()
      reads this
    {
      discs.Length == NDISC as int && (bits == null || HasBuffer())
    }

    /** A frame can be drawn. */
    ghost predicate Valid()
      reads this
    {
      Started() && HasBuffer()
    }

    /** The globals as the program is loaded: a seeded generator and no buffer. */
    constructor ()
      ensures Started() && bits == null && lcg == 0x2545F491 && fresh(discs)
    {
      discs := new Disc[NDISC as int](_ => Disc(0, 0, 0, 0, 0));
      lcg, bits, fxw, fxh := 0x2545F491, null, 0, 0;
    }

    method Lcg() returns (n: uint32)
      modifies this`lcg
      ensures lcg == LcgNext(old(lcg)) && n as int == lcg as int / 256
    {
      lcg := ((lcg as int * 1103515245 + 12345) % 0x1_0000_0000) as uint32;
      n := (lcg as int / 256) as uint32;
    }

    /** Fills the disc table from the next 140 draws; every disc is in range. */
    method InitDiscs()
      requires discs.Length == NDISC as int
      modifies this`lcg, discs
      ensures forall i :: 0 <= i < NDISC as int ==> discs[i] == DrawnDisc(old(lcg), i)
      ensures AllInitial(discs[..])
      ensures lcg == LcgAfter(old(lcg), 5 * NDISC as int)
    {
      for i := 0 to NDISC as int
        invariant lcg == LcgAfter(old(lcg), 5 * i)
        invariant forall j :: 0 <= j < i ==> discs[j] == DrawnDisc(old(lcg), j) && InitialRange(discs[j])
      {
        var a := Lcg();
        assert lcg == LcgAfter(old(lcg), 5 * i + 1);
        var b := Lcg();
        assert lcg == LcgAfter(old(lcg), 5 * i + 2);
        var c := Lcg();
        assert lcg == LcgAfter(old(lcg), 5 * i + 3);
        var d := Lcg();
        assert lcg == LcgAfter(old(lcg), 5 * i + 4);
        var e := Lcg();
        assert lcg == LcgAfter(old(lcg), 5 * i + 5);
        discs[i] := Disc((a % 1000) as int32, 90 + (b % 210) as int32, (c % 5) as int32,
                         28 + (d % 70) as int32, (e % 4000) as int32);
      }
    }

    /** Sizes the buffer to a quarter of the client area, within fixed limits, and
        allocates it on the first call; an unchanged size keeps the buffer. */
    method EnsureFx(right: int32, bottom: int32)
      requires Started()
      modifies this`fxw, this`fxh, this`bits
      ensures Valid()
      ensures bits == old(bits) || fresh(bits)
      ensures fxw as int == Clamp((if right < 1 then 1 else right as int) / 4, 200, 480)
      ensures fxh as int == Clamp((if bottom < 1 then 1 else bottom as int) / 4, 120, 300)
      ensures old(bits) != null && fxw == old(fxw) && fxh == old(fxh) ==> bits == old(bits)
    {
      var w, ht := right, bottom;
      if w < 1 { w := 1; }
      if ht < 1 { ht := 1; }
      var fw := w / 4;
      if fw < 200 { fw := 200; }
      if fw > 480 { fw := 480; }
      var fh := ht / 4;
      if fh < 120 { fh := 120; }
      if fh > 300 { fh := 300; }
      if bits != null && fw == fxw && fh == fxh { return; }
      MulBounds(fw as int, fh as int, 480, 300);
      bits := new uint32[fw as int * fh as int];
      fxw, fxh := fw, fh;
    }

    /** One pixel of the inner loop: a clipped sum, packed again. */
    static method Blend(p: uint32, c: Rgb, it: int32) returns (q: uint32)
      requires IsPixel(p as int) && 0 <= it <= 256
      requires 0 <= c.r <= 255 && 0 <= c.g <= 255 && 0 <= c.b <= 255
      ensures IsPixel(q as int)
      ensures q as int == AddLight(p as int, Rgb(c.r * it as int / 256, c.g * it as int / 256, c.b * it as int / 256))
    {
      MulBounds(c.r, it as int, 255, 256);
      MulBounds(c.g, it as int, 255, 256);
      MulBounds(c.b, it as int, 255, 256);
      var pr := (p / 65536 % 256) as int32 + c.r as int32 * it / 256;
      var pg := (p / 256 % 256) as int32 + c.g as int32 * it / 256;
      var pb := (p % 256) as int32 + c.b as int32 * it / 256;
      if pr > 255 { pr := 255; }
      if pg > 255 { pg := 255; }
      if pb > 255 { pb := 255; }
      q := pr as uint32 * 65536 + pg as uint32 * 256 + pb as uint32;
    }

    /** The squared distance and the falloff, in 32-bit arithmetic. */
    static method FalloffAt(d: Disc, ghost v: View, r2: int32, amp: int32, dx: int32, dy: int32,
                            ghost px: int, ghost py: int) returns (lit: bool, it: int32)
      requires InitialRange(d) && ValidView(v)
      requires r2 as int == Square(Radius(d, v)) && amp as int == Brightness(d, v)
      requires dx as int == px - CentreX(d, v) && dy as int == py - CentreY(d, v)
      requires -600 <= dx <= 600 && -600 <= dy <= 600
      ensures 0 <= it <= 256
      ensures Falloff(d, v, px, py) == if lit then it as int else 0
    {
      DiscRanges(d, v);
      BrightnessRange(d, v);
      LightRange(d, v, px, py);
      CentredSquare(dx as int, 600);
      CentredSquare(dy as int, 600);
      var d2 := dx * dx + dy * dy;
      lit, it := d2 < r2, 0;
      if lit {
        MulBounds((r2 - d2) as int, amp as int, 7921, 256);
        it := (r2 - d2) * amp / r2;
      }
    }

    /** One pixel of one disc: blended where the disc reaches it. */
    static method Lit(d: Disc, ghost v: View, r2: int32, amp: int32, dx: int32, dy: int32, c: Rgb, p: uint32,
                      ghost px: int, ghost py: int) returns (q: uint32)
      requires InitialRange(d) && ValidView(v) && c == DISC_COLOURS[d.col] && IsPixel(p as int)
      requires r2 as int == Square(Radius(d, v)) && amp as int == Brightness(d, v)
      requires dx as int == px - CentreX(d, v) && dy as int == py - CentreY(d, v)
      requires -600 <= dx <= 600 && -600 <= dy <= 600
      ensures q as int == AddLight(p as int, Light(d, v, px, py))
    {
      var lit, it := FalloffAt(d, v, r2, amp, dx, dy, px, py);
      q := p;
      if lit {
        q := Blend(p, c, it);
      } else {
        AddNothing(p as int);
      }
    }

    /** One row of one disc's square: the inner pixel loop. */
    method AddRow(d: Disc, ghost v: View, r2: int32, amp: int32, cx: int32, cy: int32,
                  x0: int32, x1: int32, py: int32)
      requires Valid() && InitialRange(d) && ValidView(v)
      requires v.width == fxw as int && v.height == fxh as int
      requires r2 as int == Square(Radius(d, v)) && amp as int == Brightness(d, v)
      requires cx as int == CentreX(d, v) && cy as int == CentreY(d, v)
      requires 0 <= x0 <= x1 <= fxw && 0 <= py < fxh
      requires forall k :: 0 <= k < bits.Length ==> IsPixel(bits[k] as int)
      modifies bits
      ensures
        forall k :: 0 <= k < bits.Length ==>
          bits[k] as int ==
            if RowOf(k, v.width) == py as int && x0 as int <= ColOf(k, v.width) < x1 as int
            then AddLight(old(bits[k]) as int, Light(d, v, ColOf(k, v.width), py as int))
            else old(bits[k]) as int
    {
      var c := DISC_COLOURS[d.col];
      DiscRanges(d, v);
      var dy := py - cy;
      ghost var before := bits[..];
      var px := x0;
      while px < x1
        invariant x0 <= px <= x1
        invariant
          forall k :: 0 <= k < bits.Length ==>
            bits[k] as int ==
              if RowOf(k, v.width) == py as int && x0 as int <= ColOf(k, v.width) < px as int
              then AddLight(before[k] as int, Light(d, v, ColOf(k, v.width), py as int))
              else before[k] as int
      {
        RowMajor(py as int, px as int, fxw as int, fxh as int);
        var at := py as int * fxw as int + px as int;
        forall k | 0 <= k < bits.Length && RowOf(k, v.width) == py as int && ColOf(k, v.width) == px as int
          ensures k == at
        {
          IndexOf(k, v.width, v.height);
        }
        var q := Lit(d, v, r2, amp, px - cx, dy, c, bits[at], px as int, py as int);
        bits[at] := q;
        px := px + 1;
      }
    }

    ghost predicate IsView(v: View)
      reads this
    {
      ValidView(v) && v.width == fxw as int && v.height == fxh as int
    }

    static method StepsOf(tick: uint32, div: int32) returns (steps: uint32)
      requires div >= 28
      ensures steps as int == tick as int / div as int && steps as int <= 0xFFFF_FFFF / 28
    {
      SmallerQuotient(tick as int, 28, div as int);
      steps := tick / div as uint32;
    }

    static method Remainder(sum: uint32, span: int32) returns (rest: uint32)
      requires span > 0
      ensures rest as int == sum as int % span as int && rest as int < span as int
    {
      rest := sum % span as uint32;
    }

    /** How far up its path a disc is, in unsigned 32-bit arithmetic. */
    static method TravelOf(d: Disc, ghost v: View, tick: uint32, span: int32) returns (travel: int32)
      requires InitialRange(d) && ValidView(v)
      requires v.tick == tick as int && span as int == Span(d, v)
      ensures travel as int == Travel(d, v)
    {
      RadiusRange(d, v);
      var steps := StepsOf(tick, d.div);
      var sum := steps + d.off as uint32;
      assert sum as int == v.tick / d.div as int + d.off as int;
      var rest := Remainder(sum, span);
      travel := rest as int32;
    }

    static method Quotient(a: int, b: int) returns (q: int)
      requires a >= 0 && b > 0
      ensures 0 <= q <= a && q == a / b
    {
      SmallerQuotient(a, 1, b);
      q := a / b;
    }

    static method NonNegativeQuotient(a: int32, b: int32) returns (q: int32)
      requires a >= 0 && b > 0
      ensures q >= 0 && q as int == a as int / b as int
    {
      var n := Quotient(a as int, b as int);
      q := n as int32;
    }

    /** C's `/` on 32-bit operands. */
    static method Divide(a: int32, b: int32) returns (q: int32)
      requires b > 0 && -0x8000_0000 < a
      ensures q as int == TruncDiv(a as int, b as int)
    {
      if a >= 0 {
        q := NonNegativeQuotient(a, b);
      } else {
        var m := NonNegativeQuotient(-a, b);
        q := -m;
      }
    }

    static method BrightnessOf(d: Disc, ghost v: View, height: int32, cy: int32, fade: int32) returns (amp: int32)
      requires InitialRange(d) && ValidView(v)
      requires v.height == height as int && v.fade == fade as int && cy as int == CentreY(d, v)
      ensures amp as int == Brightness(d, v)
    {
      DiscRanges(d, v);
      var vf := Divide(cy * 256, height);
      if vf < 0 { vf := 0; }
      if vf > 256 { vf := 256; }
      MulBounds(vf as int, fade as int, 256, 256);
      amp := vf * fade / 256;
    }

    /** A disc's place, size and brightness in this frame, in 32-bit arithmetic. */
    static method Place(d: Disc, ghost v: View, width: int32, height: int32, tick: uint32, fade: int32)
      returns (R: int32, cx: int32, cy: int32, amp: int32)
      requires InitialRange(d) && ValidView(v)
      requires v == View(width as int, height as int, tick as int, fade as int)
      ensures R as int == Radius(d, v) && cx as int == CentreX(d, v)
      ensures cy as int == CentreY(d, v) && amp as int == Brightness(d, v)
    {
      MulBounds(d.rf as int, height as int, 299, 300);
      MulBounds(d.xf as int, width as int, 999, 480);
      R := d.rf * height / 1000;
      cx := d.xf * width / 1000;
      if R < 4 { R := 4; }
      DiscRanges(d, v);
      var travel := TravelOf(d, v, tick, height + 2 * R);
      cy := height + R - travel;
      amp := BrightnessOf(d, v, height, cy, fade);
    }

    /** All rows of one disc's clipped square. */
    method AddBox(d: Disc, ghost v: View, r2: int32, amp: int32, cx: int32, cy: int32,
                  x0: int32, x1: int32, y0: int32, y1: int32)
      requires Valid() && InitialRange(d) && IsView(v)
      requires r2 as int == Square(Radius(d, v)) && amp as int == Brightness(d, v)
      requires cx as int == CentreX(d, v) && cy as int == CentreY(d, v)
      requires 0 <= x0 <= x1 <= fxw && 0 <= y0 && y1 <= fxh
      requires forall k :: 0 <= k < bits.Length ==> IsPixel(bits[k] as int)
      modifies bits
      ensures
        forall k :: 0 <= k < bits.Length ==>
          bits[k] as int ==
            if y0 as int <= RowOf(k, v.width) < y1 as int && x0 as int <= ColOf(k, v.width) < x1 as int
            then AddLight(old(bits[k]) as int, Light(d, v, ColOf(k, v.width), RowOf(k, v.width)))
            else old(bits[k]) as int
    {
      ghost var before := bits[..];
      var py := y0;
      while py < y1
        invariant y0 <= py && (py <= y1 || py == y0)
        invariant forall k :: 0 <= k < bits.Length ==> IsPixel(bits[k] as int)
        invariant
          forall k :: 0 <= k < bits.Length ==>
            bits[k] as int ==
              if y0 as int <= RowOf(k, v.width) < py as int && x0 as int <= ColOf(k, v.width) < x1 as int
              then AddLight(before[k] as int, Light(d, v, ColOf(k, v.width), RowOf(k, v.width)))
              else before[k] as int
      {
        AddRow(d, v, r2, amp, cx, cy, x0, x1, py);
        forall k | 0 <= k < bits.Length
          ensures IsPixel(AddLight(before[k] as int, Light(d, v, ColOf(k, v.width), RowOf(k, v.width))))
        {
          LightRange(d, v, ColOf(k, v.width), RowOf(k, v.width));
          AddLightIsPixel(before[k] as int, Light(d, v, ColOf(k, v.width), RowOf(k, v.width)));
        }
        py := py + 1;
      }
    }

    /** One disc over the whole frame: its loops run over the clipped square only,
        yet the result is as if every pixel of the buffer had been visited. */
    method AddDisc(d: Disc, ghost v: View, tick: uint32, fade: int32)
      requires Valid() && InitialRange(d) && IsView(v)
      requires v.tick == tick as int && v.fade == fade as int
      requires forall k :: 0 <= k < bits.Length ==> IsPixel(bits[k] as int)
      modifies bits
      ensures
        forall k :: 0 <= k < bits.Length ==>
          bits[k] as int == AddLight(old(bits[k]) as int, Light(d, v, ColOf(k, v.width), RowOf(k, v.width)))
    {
      ghost var before := bits[..];
      var R, cx, cy, amp := Place(d, v, fxw, fxh, tick, fade);
      DiscRanges(d, v);
      var x0, x1, y0, y1 := cx - R, cx + R, cy - R, cy + R;
      if x0 < 0 { x0 := 0; }
      if x1 > fxw { x1 := fxw; }
      if y0 < 0 { y0 := 0; }
      if y1 > fxh { y1 := fxh; }
      if amp > 0 {
        CentredSquare(R as int, 89);
        AddBox(d, v, R * R, amp, cx, cy, x0, x1, y0, y1);
      }
      forall k | 0 <= k < bits.Length
        ensures bits[k] as int
                == AddLight(before[k] as int, Light(d, v, ColOf(k, v.width), RowOf(k, v.width)))
      {
        IndexOf(k, v.width, v.height);
        var (px, row) := (ColOf(k, v.width), RowOf(k, v.width));
        AddNothing(before[k] as int);
        if amp <= 0 {
          BrightnessRange(d, v);
          NoBrightness(d, v, px, row);
        } else if !(x0 as int <= px < x1 as int && y0 as int <= row < y1 as int) {
          DarkOutsideBox(d, v, px, row);
        }
      }
    }

    method FadeIn(clock: uint32, start: uint32) returns (f: int32)
      ensures f as int == Fade(clock, start) && 0 <= f <= 256
    {
      var elapsed := (clock as int - start as int) % 0x1_0000_0000;
      var el := (if elapsed >= 0x8000_0000 then elapsed - 0x1_0000_0000 else elapsed) as int32;
      f := if el >= FADE_MS || el < 0 then 256 else el * 256 / FADE_MS;
    }

    /** One disc more over the discs drawn so far. */
    method DrawDisc(ghost v: View, tick: uint32, fade: int32, i: nat)
      requires Valid() && IsView(v) && AllInitial(discs[..]) && i < discs.Length
      requires v.tick == tick as int && v.fade == fade as int
      requires Shows(bits[..], discs[..i], v)
      modifies bits
      ensures Shows(bits[..], discs[..i + 1], v)
    {
      ghost var (ds, before) := (discs[..], bits[..]);
      assert ds[..i] == discs[..i] && ds[..i + 1] == discs[..i + 1];
      ShownArePixels(before, ds, i, v);
      AddDisc(discs[i], v, tick, fade);
      OneMoreShown(before, bits[..], ds, i, v);
    }

    /** The disc loop, over a buffer cleared to black. */
    method DrawDiscs(ghost v: View, tick: uint32, fade: int32)
      requires Valid() && IsView(v) && AllInitial(discs[..])
      requires v.tick == tick as int && v.fade == fade as int
      requires forall k :: 0 <= k < bits.Length ==> bits[k] == 0
      modifies bits
      ensures Shows(bits[..], discs[..], v)
    {
      var i := 0;
      while i < NDISC
        invariant 0 <= i <= NDISC && discs[..] == old(discs[..])
        invariant Shows(bits[..], discs[..i], v)
      {
        DrawDisc(v, tick, fade, i as int);
        i := i + 1;
      }
      assert discs[..NDISC] == discs[..];
    }

    /** A whole frame: every channel of every pixel is the sum of all discs' light
        cut off at 255. */
    method PresentBg(right: int32, bottom: int32, clock: uint32, start: uint32) returns (ghost v: View)
      requires Started() && AllInitial(discs[..])
      modifies this`fxw, this`fxh, this`bits, bits
      ensures Valid() && IsView(v) && v.tick == clock as int && v.fade == Fade(clock, start)
      ensures discs[..] == old(discs[..])
      ensures Shows(bits[..], discs[..], v)
    {
      EnsureFx(right, bottom);
      var f := FadeIn(clock, start);
      v := View(fxw as int, fxh as int, clock as int, f as int);
      forall k | 0 <= k < bits.Length {
        bits[k] := 0;
      }
      DrawDiscs(v, clock, f);
    }
  }
}
