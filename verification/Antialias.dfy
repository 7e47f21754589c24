/** Signed-distance antialiasing (launcher/antialias.py).

    A shape is a closure from a point to a signed distance that is positive
    inside.  `coverage` counts 16 samples of a pixel, except that it answers 1 or
    0 at once when the distance at the centre is beyond 0.75.  This module proves
    that the short cut is exact for every shape the constructors can build,
    because all of them are 1-Lipschitz and no sample lies farther than 0.75 from
    the centre.  Floats are exact reals, and `math.hypot` is a parameter known
    only by its specification. */
module Antialias {
  type Sdf = (real, real) -> real
  type HypotFn = (real, real) -> real

  datatype Point = Point(x: real, y: real)

  const SUPERSAMPLE: int := 4
  const SURE: real := 0.75

  /** What `math.hypot` promises: the non-negative root of dx^2 + dy^2. */
  ghost predicate IsHypot(h: HypotFn) {
    forall dx, dy {:trigger HypotAt(h, dx, dy)} :: HypotAt(h, dx, dy)
  }

  ghost predicate HypotAt(h: HypotFn, dx: real, dy: real) {
    h(dx, dy) >= 0.0 && Sq(h(dx, dy)) == Norm2(dx, dy)
  }

  function Abs(a: real): real { if a >= 0.0 then a else -a }
  function Max(a: real, b: real): real { if a >= b then a else b }
  function Min(a: real, b: real): real { if a <= b then a else b }
  function Mul(a: real, b: real): real { a * b }
  function Sq(a: real): real { a * a }
  function Norm2(x: real, y: real): real { x * x + y * y }
  function Dot(ax: real, ay: real, wx: real, wy: real): real { ax * wx + ay * wy }

  // ----- shapes: what a closure built by the constructors computes -----

  datatype Shape =
    | RoundedBox(x0: real, y0: real, x1: real, y1: real, radius: real)
    | Box(x0: real, y0: real, x1: real, y1: real)
    | Circle(cx: real, cy: real, radius: real)
    | Ring(cx: real, cy: real, radius: real, stroke: real)
    | Segment(a: Point, b: Point, stroke: real)
    | ConvexPolygon(points: seq<Point>)
    | Union(parts: seq<Shape>)
    | Inset(part: Shape, width: real)

  /** The arguments on which the constructors and closures do not raise: a segment
      or polygon edge of length 0 divides by zero, and `min`/`max` refuse an
      empty sequence. */
  predicate WellFormed(s: Shape) {
    match s
    case Segment(a, b, _) => a != b
    case ConvexPolygon(points) =>
      |points| > 0 && forall i :: 0 <= i < |points| ==> Previous(points, i) != points[i]
    case Union(parts) => |parts| > 0 && forall i :: 0 <= i < |parts| ==> WellFormed(parts[i])
    case Inset(part, _) => WellFormed(part)
    case _ => true
  }

  function Eval(h: HypotFn, s: Shape, px: real, py: real): real
    requires IsHypot(h) && WellFormed(s)
    decreases s, 0
  {
    match s
    case RoundedBox(x0, y0, x1, y1, radius) =>
      radius - h(Outside(x0 + radius, x1 - radius, px), Outside(y0 + radius, y1 - radius, py))
    case Box(x0, y0, x1, y1) => Min(Min(px - x0, x1 - px), Min(py - y0, y1 - py))
    case Circle(cx, cy, radius) => radius - h(px - cx, py - cy)
    case Ring(cx, cy, radius, stroke) => stroke / 2.0 - Abs(radius - h(px - cx, py - cy))
    case Segment(a, b, stroke) =>
      var (dx, dy) := (b.x - a.x, b.y - a.y);
      var foot := Along(dx, dy, Foot(px - a.x, py - a.y, dx, dy));
      stroke / 2.0 - h(px - a.x - foot.x, py - a.y - foot.y)
    case ConvexPolygon(points) => MinOverEdges(h, points, |points|, px, py)
    case Union(parts) => MaxOverParts(h, parts, px, py)
    case Inset(part, width) => Eval(h, part, px, py) - width
  }

  /** How far p lies outside the interval [lo, hi]: `max(lo - p, 0.0, p - hi)`. */
  function Outside(lo: real, hi: real, p: real): real { Max(Max(lo - p, 0.0), p - hi) }

  /** The parameter of the segment's point nearest to (vx, vy), seen from its start. */
  function Foot(vx: real, vy: real, dx: real, dy: real): real
    requires dx != 0.0 || dy != 0.0
  {
    Norm2Positive(dx, dy);
    Max(0.0, Min(1.0, Dot(vx, vy, dx, dy) / Norm2(dx, dy)))
  }

  function Along(dx: real, dy: real, t: real): Point { Point(t * dx, t * dy) }

  /** Python's `points[i - 1]`, which wraps to the last point at 0. */
  function Previous(points: seq<Point>, i: nat): Point
    requires i < |points|
  {
    points[if i == 0 then |points| - 1 else i - 1]
  }

  function TwiceArea(points: seq<Point>, n: nat): real
    requires n <= |points|
  {
    if n == 0 then 0.0
    else
      var (p, q) := (points[n - 1], Previous(points, n - 1));
      TwiceArea(points, n - 1) + (p.x * q.y - q.x * p.y)
  }

  /** The unit normal of edge i, turned inwards by the sign of the area. */
  function Normal(h: HypotFn, points: seq<Point>, i: nat): Point
    requires IsHypot(h)
    requires i < |points| && Previous(points, i) != points[i]
  {
    var (a, b) := (Previous(points, i), points[i]);
    LengthPositive(h, b.x - a.x, b.y - a.y);
    var sign := if TwiceArea(points, |points|) > 0.0 then 1.0 else -1.0;
    var length := h(b.x - a.x, b.y - a.y);
    Point(sign * (b.y - a.y) / length, sign * (a.x - b.x) / length)
  }

  function EdgeDistance(h: HypotFn, points: seq<Point>, i: nat, px: real, py: real): real
    requires IsHypot(h)
    requires i < |points| && Previous(points, i) != points[i]
  {
    var (a, n) := (Previous(points, i), Normal(h, points, i));
    Dot(px - a.x, py - a.y, n.x, n.y)
  }

  function MinOverEdges(h: HypotFn, points: seq<Point>, n: nat, px: real, py: real): real
    requires IsHypot(h)
    requires 0 < n <= |points|
    requires forall i :: 0 <= i < |points| ==> Previous(points, i) != points[i]
  {
    var d := EdgeDistance(h, points, n - 1, px, py);
    if n == 1 then d else Min(MinOverEdges(h, points, n - 1, px, py), d)
  }

  function MaxOverParts(h: HypotFn, parts: seq<Shape>, px: real, py: real): real
    requires IsHypot(h)
    requires |parts| > 0 && forall i :: 0 <= i < |parts| ==> WellFormed(parts[i])
    decreases parts, 1
  {
    var d := Eval(h, parts[0], px, py);
    if |parts| == 1 then d else Max(d, MaxOverParts(h, parts[1..], px, py))
  }

  // ----- algebra: products are wrapped so that the solver treats them as terms -----

  lemma ProductPositive(a: real, b: real)
    requires a > 0.0 && b > 0.0
    ensures Mul(a, b) > 0.0
  {}

  lemma Distribute(a: real, b: real, c: real)
    ensures Mul(a + b, c) == Mul(a, c) + Mul(b, c)
  {}

  lemma SqNonNegative(a: real)
    ensures Sq(a) >= 0.0
  {}

  lemma SqPositive(a: real)
    requires a != 0.0
    ensures Sq(a) > 0.0
  {
    if a > 0.0 {
      ProductPositive(a, a);
    } else {
      ProductPositive(-a, -a);
      assert Mul(-a, -a) == Sq(a);
    }
  }

  lemma SqDifference(a: real, b: real)
    ensures Sq(a) - Sq(b) == Mul(a - b, a + b)
  {}

  lemma SqMonotone(a: real, b: real)
    requires 0.0 <= a <= b
    ensures Sq(a) <= Sq(b)
  {
    SqDifference(b, a);
  }

  lemma SqLeq(a: real, b: real)
    requires 0.0 <= b && Sq(a) <= Sq(b)
    ensures a <= b
  {
    if a > b {
      ProductPositive(a - b, a + b);
      SqDifference(a, b);
    }
  }

  lemma Norm2Positive(dx: real, dy: real)
    requires dx != 0.0 || dy != 0.0
    ensures Norm2(dx, dy) > 0.0
  {
    SqNonNegative(dx);
    SqNonNegative(dy);
    if dx != 0.0 { SqPositive(dx); }
    if dy != 0.0 { SqPositive(dy); }
    assert Norm2(dx, dy) == Sq(dx) + Sq(dy);
  }

  lemma Lagrange(ax: real, ay: real, wx: real, wy: real)
    ensures Sq(Dot(ax, ay, wx, wy)) + Sq(ax * wy - ay * wx) == Mul(Norm2(ax, ay), Norm2(wx, wy))
  {
    calc {
      Sq(Dot(ax, ay, wx, wy)) + Sq(ax * wy - ay * wx);
      ((ax * wx) * (ax * wx) + 2.0 * (ax * wx) * (ay * wy) + (ay * wy) * (ay * wy))
      + ((ax * wy) * (ax * wy) - 2.0 * (ax * wy) * (ay * wx) + (ay * wx) * (ay * wx));
      { assert (ax * wx) * (ay * wy) == (ax * wy) * (ay * wx); }
      (ax * wx) * (ax * wx) + (ay * wy) * (ay * wy) + (ax * wy) * (ax * wy) + (ay * wx) * (ay * wx);
      Mul(Norm2(ax, ay), Norm2(wx, wy));
    }
  }

  lemma Norm2OfSum(ax: real, ay: real, wx: real, wy: real)
    ensures Norm2(ax + wx, ay + wy) == Norm2(ax, ay) + 2.0 * Dot(ax, ay, wx, wy) + Norm2(wx, wy)
  {}

  lemma SqOfSum(p: real, q: real)
    ensures Sq(p + q) == Sq(p) + 2.0 * Mul(p, q) + Sq(q)
  {}

  lemma SqOfProduct(p: real, q: real)
    ensures Sq(Mul(p, q)) == Mul(Sq(p), Sq(q))
  {}

  lemma DotDifference(ax: real, ay: real, wx: real, wy: real, nx: real, ny: real)
    ensures Dot(ax, ay, nx, ny) - Dot(wx, wy, nx, ny) == Dot(ax - wx, ay - wy, nx, ny)
  {}

  // ----- facts about the Euclidean distance -----

  lemma LengthPositive(h: HypotFn, dx: real, dy: real)
    requires IsHypot(h)
    requires dx != 0.0 || dy != 0.0
    ensures h(dx, dy) > 0.0
  {
    assert HypotAt(h, dx, dy);
    Norm2Positive(dx, dy);
  }

  lemma CauchySchwarz(h: HypotFn, ax: real, ay: real, wx: real, wy: real)
    requires IsHypot(h)
    ensures Dot(ax, ay, wx, wy) <= Mul(h(ax, ay), h(wx, wy))
  {
    var (p, q) := (h(ax, ay), h(wx, wy));
    assert HypotAt(h, ax, ay) && HypotAt(h, wx, wy);
    Lagrange(ax, ay, wx, wy);
    SqNonNegative(ax * wy - ay * wx);
    SqOfProduct(p, q);
    SqLeq(Dot(ax, ay, wx, wy), Mul(p, q));
  }

  lemma Triangle(h: HypotFn, ax: real, ay: real, wx: real, wy: real)
    requires IsHypot(h)
    ensures h(ax + wx, ay + wy) <= h(ax, ay) + h(wx, wy)
  {
    var (p, q) := (h(ax, ay), h(wx, wy));
    assert HypotAt(h, ax, ay) && HypotAt(h, wx, wy) && HypotAt(h, ax + wx, ay + wy);
    CauchySchwarz(h, ax, ay, wx, wy);
    Norm2OfSum(ax, ay, wx, wy);
    SqOfSum(p, q);
    SqLeq(h(ax + wx, ay + wy), p + q);
  }

  lemma HypotLeq(h: HypotFn, ax: real, ay: real, wx: real, wy: real)
    requires IsHypot(h)
    requires Norm2(ax, ay) <= Norm2(wx, wy)
    ensures h(ax, ay) <= h(wx, wy)
  {
    assert HypotAt(h, ax, ay) && HypotAt(h, wx, wy);
    SqLeq(h(ax, ay), h(wx, wy));
  }

  lemma HypotMonotone(h: HypotFn, ax: real, ay: real, wx: real, wy: real)
    requires IsHypot(h)
    requires Abs(ax) <= Abs(wx) && Abs(ay) <= Abs(wy)
    ensures h(ax, ay) <= h(wx, wy)
  {
    SqMonotone(Abs(ax), Abs(wx));
    SqMonotone(Abs(ay), Abs(wy));
    SqOfAbs(ax); SqOfAbs(ay); SqOfAbs(wx); SqOfAbs(wy);
    assert Norm2(ax, ay) == Sq(ax) + Sq(ay) && Norm2(wx, wy) == Sq(wx) + Sq(wy);
    HypotLeq(h, ax, ay, wx, wy);
  }

  lemma SqOfAbs(a: real)
    ensures Sq(Abs(a)) == Sq(a)
  {}

  /** The lengths of two vectors differ by at most the length of any vector that
      is no shorter, coordinate by coordinate, than their difference. */
  lemma HypotDifference(h: HypotFn, ax: real, ay: real, wx: real, wy: real, dx: real, dy: real)
    requires IsHypot(h)
    requires Abs(ax - wx) <= Abs(dx) && Abs(ay - wy) <= Abs(dy)
    ensures Abs(h(ax, ay) - h(wx, wy)) <= h(dx, dy)
  {
    Triangle(h, ax - wx, ay - wy, wx, wy);
    assert (ax - wx) + wx == ax && (ay - wy) + wy == ay;
    HypotMonotone(h, ax - wx, ay - wy, dx, dy);
    Triangle(h, wx - ax, wy - ay, ax, ay);
    assert (wx - ax) + ax == wx && (wy - ay) + ay == wy;
    HypotMonotone(h, wx - ax, wy - ay, dx, dy);
  }

  lemma CoordinateBelowHypot(h: HypotFn, dx: real, dy: real)
    requires IsHypot(h)
    ensures Abs(dx) <= h(dx, dy) && Abs(dy) <= h(dx, dy)
  {
    assert HypotAt(h, dx, dy);
    SqNonNegative(dx);
    SqNonNegative(dy);
    assert Norm2(dx, dy) == Sq(dx) + Sq(dy);
    SqOfAbs(dx);
    SqOfAbs(dy);
    SqLeq(Abs(dx), h(dx, dy));
    SqLeq(Abs(dy), h(dx, dy));
  }

  // ----- every shape is 1-Lipschitz -----

  /** The squared distance from v to the point at parameter t is a quadratic in t. */
  function SquaredAt(norm2: real, dot: real, length2: real, t: real): real {
    norm2 - 2.0 * (t * dot) + t * (t * length2)
  }

  lemma SquaredDistance(vx: real, vy: real, dx: real, dy: real, t: real)
    ensures
      var p := Along(dx, dy, t);
      Norm2(vx - p.x, vy - p.y) == SquaredAt(Norm2(vx, vy), Dot(vx, vy, dx, dy), Norm2(dx, dy), t)
  {
    SquaredCoordinate(vx, dx, t);
    SquaredCoordinate(vy, dy, t);
  }

  lemma SquaredCoordinate(v: real, d: real, t: real)
    ensures (v - t * d) * (v - t * d) == v * v - 2.0 * (t * (v * d)) + t * (t * (d * d))
  {}

  lemma QuadraticGap(norm2: real, dot: real, length2: real, s: real, t: real, other: real)
    requires length2 > 0.0 && Mul(s, length2) == dot
    requires 0.0 <= other <= 1.0 && t == Max(0.0, Min(1.0, s))
    ensures SquaredAt(norm2, dot, length2, t) <= SquaredAt(norm2, dot, length2, other)
  {
    var factor := Mul(other - t, other + t - 2.0 * s);
    assert factor >= 0.0 by {
      if t == s {
        SqNonNegative(other - s);
        assert factor == Sq(other - s);
      } else if other != t {
        ProductSameSign(other - t, other + t - 2.0 * s);
      }
    }
    assert SquaredAt(norm2, dot, length2, other) - SquaredAt(norm2, dot, length2, t) == Mul(length2, factor);
    if factor > 0.0 { ProductPositive(length2, factor); }
  }

  lemma ProductSameSign(a: real, b: real)
    requires (a >= 0.0 && b >= 0.0) || (a <= 0.0 && b <= 0.0)
    ensures Mul(a, b) >= 0.0
  {}

  /** The clamped projection is the nearest point of the segment:
      no other parameter in [0, 1] gives a shorter distance. */
  lemma FootIsNearest(h: HypotFn, vx: real, vy: real, dx: real, dy: real, other: real)
    requires IsHypot(h)
    requires dx != 0.0 || dy != 0.0
    requires 0.0 <= other <= 1.0
    ensures
      var (foot, p) := (Along(dx, dy, Foot(vx, vy, dx, dy)), Along(dx, dy, other));
      h(vx - foot.x, vy - foot.y) <= h(vx - p.x, vy - p.y)
  {
    Norm2Positive(dx, dy);
    var s := Dot(vx, vy, dx, dy) / Norm2(dx, dy);
    var t := Foot(vx, vy, dx, dy);
    var (foot, p) := (Along(dx, dy, t), Along(dx, dy, other));
    SquaredDistance(vx, vy, dx, dy, t);
    SquaredDistance(vx, vy, dx, dy, other);
    QuadraticGap(Norm2(vx, vy), Dot(vx, vy, dx, dy), Norm2(dx, dy), s, t, other);
    HypotLeq(h, vx - foot.x, vy - foot.y, vx - p.x, vy - p.y);
  }

  lemma SegmentSlope(h: HypotFn, s: Shape, px: real, py: real, qx: real, qy: real)
    requires IsHypot(h) && s.Segment? && WellFormed(s)
    ensures Eval(h, s, px, py) - Eval(h, s, qx, qy) <= h(px - qx, py - qy)
  {
    // q's nearest point is a point of the segment, so it bounds p's distance.
    var (dx, dy) := (s.b.x - s.a.x, s.b.y - s.a.y);
    var (vx, vy, wx, wy) := (px - s.a.x, py - s.a.y, qx - s.a.x, qy - s.a.y);
    var p := Along(dx, dy, Foot(vx, vy, dx, dy));
    FootIsNearest(h, wx, wy, dx, dy, Foot(vx, vy, dx, dy));
    HypotDifference(h, vx - p.x, vy - p.y, wx - p.x, wy - p.y, px - qx, py - qy);
  }

  lemma UnitNormal(h: HypotFn, points: seq<Point>, i: nat)
    requires IsHypot(h)
    requires i < |points| && Previous(points, i) != points[i]
    ensures var n := Normal(h, points, i); h(n.x, n.y) == 1.0
  {
    var (a, b, n) := (Previous(points, i), points[i], Normal(h, points, i));
    var sign := if TwiceArea(points, |points|) > 0.0 then 1.0 else -1.0;
    var (ex, ey) := (b.y - a.y, a.x - b.x);
    var length := h(b.x - a.x, b.y - a.y);
    LengthPositive(h, b.x - a.x, b.y - a.y);
    assert HypotAt(h, n.x, n.y) && HypotAt(h, b.x - a.x, b.y - a.y);
    NormalisedSquare(n.x, length, sign, ex);
    NormalisedSquare(n.y, length, sign, ey);
    assert Norm2(n.x, n.y) == Sq(n.x) + Sq(n.y);
    assert Norm2(b.x - a.x, b.y - a.y) == Sq(ex) + Sq(ey) by { SqOfAbs(ey); SqOfAbs(b.x - a.x); }
    Distribute(Sq(n.x), Sq(n.y), Sq(length));
    SqPositive(length);
    UnitRoot(Norm2(n.x, n.y), Sq(length), h(n.x, n.y));
  }

  lemma NormalisedSquare(n: real, length: real, sign: real, e: real)
    requires length > 0.0 && n == sign * e / length && (sign == 1.0 || sign == -1.0)
    ensures Mul(Sq(n), Sq(length)) == Sq(e)
  {
    assert n * length == sign * e;
    calc {
      Mul(Sq(n), Sq(length));
      (n * length) * (n * length);
      (sign * e) * (sign * e);
      Sq(e);
    }
  }

  lemma UnitRoot(a: real, b: real, root: real)
    requires b > 0.0 && Mul(a, b) == b && root >= 0.0 && Sq(root) == a
    ensures root == 1.0
  {
    if a > 1.0 { ProductPositive(a - 1.0, b); }
    if a < 1.0 { ProductPositive(1.0 - a, b); }
    SqLeq(root, 1.0);
    SqLeq(1.0, root);
  }

  lemma EdgeSlope(h: HypotFn, points: seq<Point>, i: nat, px: real, py: real, qx: real, qy: real)
    requires IsHypot(h)
    requires i < |points| && Previous(points, i) != points[i]
    ensures EdgeDistance(h, points, i, px, py) - EdgeDistance(h, points, i, qx, qy) <= h(px - qx, py - qy)
  {
    var (a, n) := (Previous(points, i), Normal(h, points, i));
    UnitNormal(h, points, i);
    CauchySchwarz(h, px - qx, py - qy, n.x, n.y);
    DotDifference(px - a.x, py - a.y, qx - a.x, qy - a.y, n.x, n.y);
    assert (px - a.x) - (qx - a.x) == px - qx && (py - a.y) - (qy - a.y) == py - qy;
  }

  lemma {:induction false} PolygonSlope(
    h: HypotFn, points: seq<Point>, n: nat, px: real, py: real, qx: real, qy: real)
    requires IsHypot(h)
    requires 0 < n <= |points|
    requires forall i :: 0 <= i < |points| ==> Previous(points, i) != points[i]
    ensures MinOverEdges(h, points, n, px, py) - MinOverEdges(h, points, n, qx, qy) <= h(px - qx, py - qy)
  {
    EdgeSlope(h, points, n - 1, px, py, qx, qy);
    if n > 1 {
      PolygonSlope(h, points, n - 1, px, py, qx, qy);
    }
  }

  lemma {:induction false} UnionSlope(
    h: HypotFn, parts: seq<Shape>, px: real, py: real, qx: real, qy: real)
    requires IsHypot(h)
    requires |parts| > 0 && forall i :: 0 <= i < |parts| ==> WellFormed(parts[i])
    ensures MaxOverParts(h, parts, px, py) - MaxOverParts(h, parts, qx, qy) <= h(px - qx, py - qy)
    decreases parts, 1
  {
    Slope(h, parts[0], px, py, qx, qy);
    if |parts| > 1 {
      UnionSlope(h, parts[1..], px, py, qx, qy);
    }
  }

  lemma RoundedBoxSlope(h: HypotFn, s: Shape, px: real, py: real, qx: real, qy: real)
    requires IsHypot(h) && s.RoundedBox?
    ensures Eval(h, s, px, py) - Eval(h, s, qx, qy) <= h(px - qx, py - qy)
  {
    var (x0, y0, x1, y1) := (s.x0 + s.radius, s.y0 + s.radius, s.x1 - s.radius, s.y1 - s.radius);
    HypotDifference(h, Outside(x0, x1, px), Outside(y0, y1, py), Outside(x0, x1, qx), Outside(y0, y1, qy), px - qx, py - qy);
  }

  /** No shape changes faster than the distance walked, whatever it is built from. */
  lemma {:induction false} Slope(h: HypotFn, s: Shape, px: real, py: real, qx: real, qy: real)
    requires IsHypot(h) && WellFormed(s)
    ensures Eval(h, s, px, py) - Eval(h, s, qx, qy) <= h(px - qx, py - qy)
    decreases s, 0
  {
    match s
    case RoundedBox(_, _, _, _, _) => RoundedBoxSlope(h, s, px, py, qx, qy);
    case Box(_, _, _, _) => CoordinateBelowHypot(h, px - qx, py - qy);
    case Circle(cx, cy, _) =>
      HypotDifference(h, px - cx, py - cy, qx - cx, qy - cy, px - qx, py - qy);
    case Ring(cx, cy, _, _) =>
      HypotDifference(h, px - cx, py - cy, qx - cx, qy - cy, px - qx, py - qy);
    case Segment(_, _, _) => SegmentSlope(h, s, px, py, qx, qy);
    case ConvexPolygon(points) => PolygonSlope(h, points, |points|, px, py, qx, qy);
    case Union(parts) => UnionSlope(h, parts, px, py, qx, qy);
    case Inset(part, _) => Slope(h, part, px, py, qx, qy);
  }

  // ----- coverage: the short cut and the 16 samples it skips -----

  function ShapeSdf(h: HypotFn, s: Shape): Sdf
    requires IsHypot(h) && WellFormed(s)
  {
    (px, py) => Eval(h, s, px, py)
  }

  /** The point of pixel (x, y) at which sample (sx, sy) is taken. */
  function Sample(x: int, i: int): real { x as real + (i as real + 0.5) / SUPERSAMPLE as real }

  function Centre(sdf: Sdf, x: int, y: int): real { sdf(x as real + 0.5, y as real + 0.5) }

  predicate Inside(sdf: Sdf, x: int, y: int, sx: int, sy: int) {
    sdf(Sample(x, sx), Sample(y, sy)) >= 0.0
  }

  /** How many of the first n samples, row by row, are inside. */
  function Hits(sdf: Sdf, x: int, y: int, n: nat): nat {
    if n == 0 then 0
    else Hits(sdf, x, y, n - 1) + (if Inside(sdf, x, y, (n - 1) % SUPERSAMPLE, (n - 1) / SUPERSAMPLE) then 1 else 0)
  }

  /** The simple form: always take all 16 samples. */
  function Supersampled(sdf: Sdf, x: int, y: int): real {
    Hits(sdf, x, y, SUPERSAMPLE * SUPERSAMPLE) as real / (SUPERSAMPLE * SUPERSAMPLE) as real
  }

  /** The fast form, for any threshold of certainty. */
  function CoverageAt(sure: real, sdf: Sdf, x: int, y: int): real {
    if Centre(sdf, x, y) >= sure then 1.0
    else if Centre(sdf, x, y) < -sure then 0.0
    else Supersampled(sdf, x, y)
  }

  lemma HitsStep(sdf: Sdf, x: int, y: int, sx: nat, sy: nat)
    requires sx < SUPERSAMPLE
    ensures
      Hits(sdf, x, y, sy * 4 + sx + 1)
      == Hits(sdf, x, y, sy * 4 + sx) + (if Inside(sdf, x, y, sx, sy) then 1 else 0)
  {
    SampleIndex(sx, sy);
    assert Hits(sdf, x, y, sy * 4 + sx + 1) == Hits(sdf, x, y, sy * 4 + sx) + (if Inside(sdf, x, y, sx, sy) then 1 else 0);
  }

  lemma SampleIndex(sx: nat, sy: nat)
    requires sx < SUPERSAMPLE
    ensures (sy * 4 + sx) % SUPERSAMPLE == sx && (sy * 4 + sx) / SUPERSAMPLE == sy
  {}

  /** One row of samples. */
  method RowHits(sdf: Sdf, x: int, y: int, sy: nat, before: nat) returns (hits: nat)
    requires before == Hits(sdf, x, y, sy * 4)
    ensures hits == Hits(sdf, x, y, sy * 4 + 4)
  {
    hits := before;
    var py := Sample(y, sy);
    for sx := 0 to SUPERSAMPLE
      invariant hits == Hits(sdf, x, y, sy * 4 + sx)
    {
      HitsStep(sdf, x, y, sx, sy);
      if sdf(Sample(x, sx), py) >= 0.0 {
        hits := hits + 1;
      }
    }
  }

  method Coverage(sdf: Sdf, x: int, y: int) returns (c: real)
    ensures c == CoverageAt(SURE, sdf, x, y)
  {
    var centre := sdf(x as real + 0.5, y as real + 0.5);
    if centre >= SURE {
      return 1.0;
    }
    if centre < -SURE {
      return 0.0;
    }
    var hits := 0;
    for sy := 0 to SUPERSAMPLE
      invariant hits == Hits(sdf, x, y, sy * 4)
    {
      hits := RowHits(sdf, x, y, sy, hits);
    }
    c := hits as real / (SUPERSAMPLE * SUPERSAMPLE) as real;
  }

  lemma {:induction false} HitsBounds(sdf: Sdf, x: int, y: int, n: nat)
    ensures Hits(sdf, x, y, n) <= n
    ensures
      Hits(sdf, x, y, n) == n
      <==> forall k :: 0 <= k < n ==> Inside(sdf, x, y, k % SUPERSAMPLE, k / SUPERSAMPLE)
    ensures
      Hits(sdf, x, y, n) == 0
      <==> forall k :: 0 <= k < n ==> !Inside(sdf, x, y, k % SUPERSAMPLE, k / SUPERSAMPLE)
  {
    if n > 0 {
      HitsBounds(sdf, x, y, n - 1);
    }
  }

  lemma {:induction false} HitsMonotone(inner: Sdf, outer: Sdf, x: int, y: int, n: nat)
    requires forall px, py :: inner(px, py) <= outer(px, py)
    ensures Hits(inner, x, y, n) <= Hits(outer, x, y, n)
  {
    if n > 0 {
      HitsMonotone(inner, outer, x, y, n - 1);
      var (px, py) := (Sample(x, (n - 1) % SUPERSAMPLE), Sample(y, (n - 1) / SUPERSAMPLE));
      assert inner(px, py) <= outer(px, py);
    }
  }

  /** No sample is farther from the centre of its pixel than the corner samples. */
  lemma SampleNearCentre(h: HypotFn, x: int, y: int, sx: int, sy: int)
    requires IsHypot(h)
    requires 0 <= sx < SUPERSAMPLE && 0 <= sy < SUPERSAMPLE
    ensures h(Sample(x, sx) - (x as real + 0.5), Sample(y, sy) - (y as real + 0.5)) <= h(0.375, 0.375)
    ensures h((x as real + 0.5) - Sample(x, sx), (y as real + 0.5) - Sample(y, sy)) <= h(0.375, 0.375)
  {
    HypotMonotone(h, Sample(x, sx) - (x as real + 0.5), Sample(y, sy) - (y as real + 0.5), 0.375, 0.375);
    HypotMonotone(h, (x as real + 0.5) - Sample(x, sx), (y as real + 0.5) - Sample(y, sy), 0.375, 0.375);
  }

  lemma CornerSampleDistance(h: HypotFn)
    requires IsHypot(h)
    ensures 0.53 < h(0.375, 0.375) < SURE
  {
    assert HypotAt(h, 0.375, 0.375);
    assert Norm2(0.375, 0.375) == 0.28125 && Sq(0.53) == 0.2809 && Sq(0.74) == 0.5476;
    SqLeq(0.53, h(0.375, 0.375));
    SqLeq(h(0.375, 0.375), 0.74);
    assert Sq(h(0.375, 0.375)) != Sq(0.53);
  }

  /** A sample differs from the centre by no more than the threshold. */
  lemma SampleWithin(h: HypotFn, sure: real, s: Shape, x: int, y: int, sx: int, sy: int)
    requires IsHypot(h) && WellFormed(s) && sure >= h(0.375, 0.375)
    requires 0 <= sx < SUPERSAMPLE && 0 <= sy < SUPERSAMPLE
    ensures
      var (sdf, value) := (ShapeSdf(h, s), Eval(h, s, Sample(x, sx), Sample(y, sy)));
      Centre(sdf, x, y) - sure <= value <= Centre(sdf, x, y) + sure
  {
    var (px, py) := (Sample(x, sx), Sample(y, sy));
    SampleNearCentre(h, x, y, sx, sy);
    Slope(h, s, px, py, x as real + 0.5, y as real + 0.5);
    Slope(h, s, x as real + 0.5, y as real + 0.5, px, py);
  }

  /** The short cut answers what the 16 samples would have, for every shape. */
  lemma ShortCutIsExact(h: HypotFn, sure: real, s: Shape, x: int, y: int)
    requires IsHypot(h) && WellFormed(s)
    requires sure >= h(0.375, 0.375)
    ensures CoverageAt(sure, ShapeSdf(h, s), x, y) == Supersampled(ShapeSdf(h, s), x, y)
  {
    var (sdf, n) := (ShapeSdf(h, s), SUPERSAMPLE * SUPERSAMPLE);
    forall k | 0 <= k < n
      ensures Centre(sdf, x, y) >= sure ==> Inside(sdf, x, y, k % SUPERSAMPLE, k / SUPERSAMPLE)
      ensures Centre(sdf, x, y) < -sure ==> !Inside(sdf, x, y, k % SUPERSAMPLE, k / SUPERSAMPLE)
    {
      SampleWithin(h, sure, s, x, y, k % SUPERSAMPLE, k / SUPERSAMPLE);
    }
    HitsBounds(sdf, x, y, n);
  }

  /** A disc centred on a pixel shows that no smaller threshold would do. */
  lemma SmallerThresholdFails(h: HypotFn, sure: real)
    requires IsHypot(h)
    requires sure < h(0.375, 0.375)
    ensures
      var s := Circle(0.5, 0.5, sure);
      CoverageAt(sure, ShapeSdf(h, s), 0, 0) != Supersampled(ShapeSdf(h, s), 0, 0)
  {
    HypotAtOrigin(h);
    LastSampleOutside(h, sure);
    NotAllInside(ShapeSdf(h, Circle(0.5, 0.5, sure)), 15);
  }

  lemma LastSampleOutside(h: HypotFn, sure: real)
    requires IsHypot(h) && sure < h(0.375, 0.375)
    ensures !Inside(ShapeSdf(h, Circle(0.5, 0.5, sure)), 0, 0, 15 % SUPERSAMPLE, 15 / SUPERSAMPLE)
  {
    LastSample();
  }

  lemma NotAllInside(sdf: Sdf, k: nat)
    requires k < 16 && !Inside(sdf, 0, 0, k % SUPERSAMPLE, k / SUPERSAMPLE)
    ensures Hits(sdf, 0, 0, 16) < 16 && Supersampled(sdf, 0, 0) < 1.0
  {
    HitsBounds(sdf, 0, 0, 16);
  }

  lemma HypotAtOrigin(h: HypotFn)
    requires IsHypot(h)
    ensures h(0.0, 0.0) == 0.0
  {
    assert HypotAt(h, 0.0, 0.0);
    assert Norm2(0.0, 0.0) == 0.0;
    if h(0.0, 0.0) > 0.0 { SqPositive(h(0.0, 0.0)); }
  }

  lemma LastSample()
    ensures 15 % SUPERSAMPLE == 3 == 15 / SUPERSAMPLE && Sample(0, 3) - 0.5 == 0.375
  {}

  /** The exact condition on the threshold, over every shape and every pixel. */
  lemma ThresholdIsSound(h: HypotFn, sure: real)
    requires IsHypot(h)
    ensures
      (forall s: Shape, x: int, y: int :: WellFormed(s) ==>
         CoverageAt(sure, ShapeSdf(h, s), x, y) == Supersampled(ShapeSdf(h, s), x, y))
      <==> sure >= h(0.375, 0.375)
  {
    if sure >= h(0.375, 0.375) {
      forall s: Shape, x: int, y: int | WellFormed(s)
        ensures CoverageAt(sure, ShapeSdf(h, s), x, y) == Supersampled(ShapeSdf(h, s), x, y)
      {
        ShortCutIsExact(h, sure, s, x, y);
      }
    } else {
      SmallerThresholdFails(h, sure);
      assert WellFormed(Circle(0.5, 0.5, sure));
    }
  }

  /** `coverage` as shipped: exact for every shape the constructors build. */
  lemma CoverageIsExact(h: HypotFn, s: Shape, x: int, y: int)
    requires IsHypot(h) && WellFormed(s)
    ensures CoverageAt(SURE, ShapeSdf(h, s), x, y) == Supersampled(ShapeSdf(h, s), x, y)
  {
    CornerSampleDistance(h);
    ShortCutIsExact(h, SURE, s, x, y);
  }

  /** Lowering a distance function never raises the coverage, exits included. */
  lemma CoverageMonotone(inner: Sdf, outer: Sdf, x: int, y: int)
    requires forall px, py :: inner(px, py) <= outer(px, py)
    ensures 0.0 <= CoverageAt(SURE, inner, x, y) <= CoverageAt(SURE, outer, x, y) <= 1.0
  {
    var n := SUPERSAMPLE * SUPERSAMPLE;
    assert inner(x as real + 0.5, y as real + 0.5) <= outer(x as real + 0.5, y as real + 0.5);
    HitsMonotone(inner, outer, x, y, n);
    HitsBounds(inner, x, y, n);
    HitsBounds(outer, x, y, n);
  }

  // ----- render: a body inside an outline, mixed by coverage -----

  datatype Rgb = Rgb(r: int, g: int, b: int)
  datatype Rgba = Rgba(r: int, g: int, b: int, a: int)

  /** Python's `round`: to the nearest integer, ties to the even one. */
  function Round(v: real): int {
    var low := v.Floor;
    var rest := v - low as real;
    if rest < 0.5 || (rest == 0.5 && low % 2 == 0) then low else low + 1
  }

  lemma RoundWithin(v: real, low: int, high: int)
    requires low as real <= v <= high as real
    ensures low <= Round(v) <= high
  {}

  function Mean(edge: real, fill: real, shape: real, body: real): real
    requires shape > 0.0
  {
    (edge * (shape - body) + fill * body) / shape
  }

  /** One channel of a pixel whose shape is covered by `shape` and body by `body`. */
  function MixedChannel(edge: int, fill: int, shape: real, body: real): int
    requires shape > 0.0
  {
    Round(Mean(edge as real, fill as real, shape, body))
  }

  function PixelOf(edge: Rgb, fill: Rgb, shape: real, body: real): Rgba {
    if shape <= 0.0 then Rgba(0, 0, 0, 0)
    else Rgba(MixedChannel(edge.r, fill.r, shape, body), MixedChannel(edge.g, fill.g, shape, body),
              MixedChannel(edge.b, fill.b, shape, body), Round(255.0 * shape))
  }

  datatype Outline = NoOutline | Outline(colour: Rgb, width: real)

  function EdgeColour(outline: Outline, fill: Rgb): Rgb {
    if outline.Outline? then outline.colour else fill
  }

  function Lowered(sdf: Sdf, width: real): Sdf { (px, py) => sdf(px, py) - width }

  function BodyCoverage(sdf: Sdf, outline: Outline, x: int, y: int): real {
    if outline.Outline? then CoverageAt(SURE, Lowered(sdf, outline.width), x, y)
    else CoverageAt(SURE, sdf, x, y)
  }

  function RenderedPixel(sdf: Sdf, fill: Rgb, outline: Outline, x: int, y: int): Rgba {
    PixelOf(EdgeColour(outline, fill), fill, CoverageAt(SURE, sdf, x, y), BodyCoverage(sdf, outline, x, y))
  }

  method Render(width: nat, height: nat, sdf: Sdf, fill: Rgb, outline: Outline)
    returns (rows: seq<seq<Rgba>>)
    ensures |rows| == height && forall y :: 0 <= y < height ==> |rows[y]| == width
    ensures
      forall y, x :: 0 <= y < height && 0 <= x < width ==>
        rows[y][x] == RenderedPixel(sdf, fill, outline, x, y)
  {
    var edge := if outline.Outline? then outline.colour else fill;
    var bodySdf := if outline.Outline? then Lowered(sdf, outline.width) else sdf;
    rows := [];
    for y := 0 to height
      invariant |rows| == y && forall j :: 0 <= j < y ==> |rows[j]| == width
      invariant
        forall j, x :: 0 <= j < y && 0 <= x < width ==>
          rows[j][x] == RenderedPixel(sdf, fill, outline, x, j)
    {
      var row := [];
      for x := 0 to width
        invariant |row| == x
        invariant forall i :: 0 <= i < x ==> row[i] == RenderedPixel(sdf, fill, outline, i, y)
      {
        var shape := Coverage(sdf, x, y);
        if shape <= 0.0 {
          row := row + [Rgba(0, 0, 0, 0)];
        } else {
          var body := shape;
          if outline.Outline? {
            body := Coverage(bodySdf, x, y);
          }
          row := row + [Rgba(MixedChannel(edge.r, fill.r, shape, body),
                             MixedChannel(edge.g, fill.g, shape, body),
                             MixedChannel(edge.b, fill.b, shape, body),
                             Round(255.0 * shape))];
        }
      }
      rows := rows + [row];
    }
  }

  lemma NothingOfEdge(edge: real, fill: real, shape: real, body: real)
    requires body == shape
    ensures edge * (shape - body) + fill * body == fill * shape
  {
    assert edge * 0.0 == 0.0;
  }

  lemma FullMean(edge: real, fill: real, shape: real, body: real)
    requires body == shape > 0.0
    ensures Mean(edge, fill, shape, body) == fill
  {
    NothingOfEdge(edge, fill, shape, body);
    QuotientWithin(fill, fill, fill * shape, shape);
  }

  lemma WeightedMean(low: real, high: real, edge: real, fill: real, shape: real, body: real)
    requires low <= edge <= high && low <= fill <= high
    requires 0.0 <= body <= shape && shape > 0.0
    ensures low <= Mean(edge, fill, shape, body) <= high
    ensures body == shape ==> Mean(edge, fill, shape, body) == fill
  {
    var sum := edge * (shape - body) + fill * body;
    ProductSameSign(edge - low, shape - body);
    ProductSameSign(fill - low, body);
    ProductSameSign(high - edge, shape - body);
    ProductSameSign(high - fill, body);
    assert sum - low * shape == Mul(edge - low, shape - body) + Mul(fill - low, body);
    assert high * shape - sum == Mul(high - edge, shape - body) + Mul(high - fill, body);
    QuotientWithin(low, high, sum, shape);
    if body == shape { FullMean(edge, fill, shape, body); }
  }

  lemma QuotientTimes(a: real, b: real)
    requires b != 0.0
    ensures Mul(a / b, b) == a
  {}

  lemma LessTimes(a: real, b: real, c: real)
    requires a < b && c > 0.0
    ensures Mul(a, c) < Mul(b, c)
  {
    ProductPositive(b - a, c);
    Distribute(b - a, a, c);
  }

  lemma QuotientWithin(low: real, high: real, sum: real, shape: real)
    requires shape > 0.0
    requires low * shape <= sum <= high * shape
    ensures low <= sum / shape <= high
  {
    QuotientTimes(sum, shape);
    if sum / shape < low { LessTimes(sum / shape, low, shape); }
    if high < sum / shape { LessTimes(high, sum / shape, shape); }
  }

  predicate Between(v: int, a: int, b: int) { (a <= v <= b) || (b <= v <= a) }

  lemma PositiveCoverage(sdf: Sdf, x: int, y: int)
    ensures CoverageAt(SURE, sdf, x, y) > 0.0 ==> CoverageAt(SURE, sdf, x, y) >= 1.0 / 16.0
  {}

  /** Where the body covers no more than the shape does, every channel stays between
      the two colours it mixes, so `bytes(...)` does not raise; a pixel is fully
      transparent exactly when the shape covers none of it, and shows the fill colour
      itself where the body covers all that the shape does. */
  lemma RenderedPixelInRange(sdf: Sdf, fill: Rgb, outline: Outline, x: int, y: int)
    ensures
      var (p, edge, shape) := (RenderedPixel(sdf, fill, outline, x, y), EdgeColour(outline, fill),
                               CoverageAt(SURE, sdf, x, y));
      && (p.a == 0 <==> shape == 0.0) && 0 <= p.a <= 255
      && (shape == 0.0 ==> p == Rgba(0, 0, 0, 0))
      && (shape > 0.0 && BodyCoverage(sdf, outline, x, y) <= shape ==>
            Between(p.r, edge.r, fill.r) && Between(p.g, edge.g, fill.g) && Between(p.b, edge.b, fill.b))
      && (shape > 0.0 && BodyCoverage(sdf, outline, x, y) == shape ==> Rgb(p.r, p.g, p.b) == fill)
  {
    var (edge, shape, body) := (EdgeColour(outline, fill), CoverageAt(SURE, sdf, x, y),
                                BodyCoverage(sdf, outline, x, y));
    CoverageMonotone(sdf, sdf, x, y);
    RoundWithin(255.0 * shape, 0, 255);
    if outline.Outline? {
      CoverageMonotone(Lowered(sdf, outline.width), Lowered(sdf, outline.width), x, y);
    }
    if shape > 0.0 {
      if body <= shape {
        ChannelMixed(edge.r, fill.r, shape, body);
        ChannelMixed(edge.g, fill.g, shape, body);
        ChannelMixed(edge.b, fill.b, shape, body);
      }
      PositiveCoverage(sdf, x, y);
      RoundWithin(255.0 * shape, 15, 255);
    }
  }

  /** An outline of non-negative width never makes the body cover more than the shape. */
  lemma OutlineWithinShape(sdf: Sdf, outline: Outline, x: int, y: int)
    requires outline.Outline? ==> outline.width >= 0.0
    ensures BodyCoverage(sdf, outline, x, y) <= CoverageAt(SURE, sdf, x, y)
  {
    if outline.Outline? {
      CoverageMonotone(Lowered(sdf, outline.width), sdf, x, y);
    }
  }

  predicate IsByte(v: int) { 0 <= v <= 255 }

  /** For coverages in sixteenths, all byte colours mix to bytes exactly when the body
      covers no more than the shape. */
  lemma MixesToBytes(shape: int, body: int)
    requires 0 < shape <= 16 && 0 <= body <= 16
    ensures
      (forall edge, fill :: IsByte(edge) && IsByte(fill) ==>
         IsByte(MixedChannel(edge, fill, shape as real / 16.0, body as real / 16.0)))
      <==> body <= shape
  {
    var (s, b) := (shape as real / 16.0, body as real / 16.0);
    if body <= shape {
      forall edge, fill | IsByte(edge) && IsByte(fill)
        ensures IsByte(MixedChannel(edge, fill, s, b))
      {
        ChannelMixed(edge, fill, s, b);
      }
    } else {
      QuotientTimes(255.0 * b, s);
      assert Mul(256.0, s) < 255.0 * b;
      if 255.0 * b / s <= 256.0 {
        if 255.0 * b / s < 256.0 { LessTimes(255.0 * b / s, 256.0, s); }
      }
      assert Mean(0.0, 255.0, s, b) == 255.0 * b / s;
      assert IsByte(0) && IsByte(255) && !IsByte(MixedChannel(0, 255, s, b));
    }
  }

  predicate ByteColour(c: Rgb) { IsByte(c.r) && IsByte(c.g) && IsByte(c.b) }

  predicate BytePixel(p: Rgba) { IsByte(p.r) && IsByte(p.g) && IsByte(p.b) && IsByte(p.a) }

  /** A box that ends by `depth` before the last column of samples of pixel (0, 0). */
  function Shortened(depth: real): Shape { Box(-9.0, -9.0, 0.875 - depth, 9.0) }

  lemma PartlyCovered(h: HypotFn, depth: real)
    requires IsHypot(h) && 0.0 < depth <= 0.2
    ensures
      var sdf := ShapeSdf(h, Shortened(depth));
      0 < Hits(sdf, 0, 0, 16) < 16 && CoverageAt(SURE, sdf, 0, 0) == Hits(sdf, 0, 0, 16) as real / 16.0
  {
    var sdf := ShapeSdf(h, Shortened(depth));
    LastSample();
    assert Sample(0, 0) == 0.125;
    assert Inside(sdf, 0, 0, 0 % SUPERSAMPLE, 0 / SUPERSAMPLE);
    assert !Inside(sdf, 0, 0, 15 % SUPERSAMPLE, 15 / SUPERSAMPLE);
    HitsBounds(sdf, 0, 0, 16);
  }

  lemma FullBody(h: HypotFn, depth: real, width: real)
    requires IsHypot(h) && 0.0 < depth <= 0.2 && width <= -depth
    ensures BodyCoverage(ShapeSdf(h, Shortened(depth)), Outline(Rgb(0, 0, 0), width), 0, 0) == 1.0
  {
    var sdf := ShapeSdf(h, Shortened(depth));
    var body := Lowered(sdf, width);
    forall k | 0 <= k < 16
      ensures Inside(body, 0, 0, k % SUPERSAMPLE, k / SUPERSAMPLE)
    {
      var (px, py) := (Sample(0, k % SUPERSAMPLE), Sample(0, k / SUPERSAMPLE));
      assert 0.0 < px <= 0.875 && 0.0 < py <= 0.875;
      assert sdf(px, py) >= -depth;
      assert body(px, py) == sdf(px, py) - width;
    }
    HitsBounds(body, 0, 0, 16);
  }

  /** Outline widths that are safe for every shape and colour are the non-negative ones:
      below zero some rendering raises. */
  lemma SafeWidths(h: HypotFn, width: real)
    requires IsHypot(h)
    ensures
      (forall s: Shape, fill, edge, x, y :: WellFormed(s) && ByteColour(fill) && ByteColour(edge) ==>
         BytePixel(RenderedPixel(ShapeSdf(h, s), fill, Outline(edge, width), x, y)))
      <==> width >= 0.0
  {
    if width >= 0.0 {
      forall s: Shape, fill, edge, x, y | WellFormed(s) && ByteColour(fill) && ByteColour(edge)
        ensures BytePixel(RenderedPixel(ShapeSdf(h, s), fill, Outline(edge, width), x, y))
      {
        RenderedPixelInRange(ShapeSdf(h, s), fill, Outline(edge, width), x, y);
        OutlineWithinShape(ShapeSdf(h, s), Outline(edge, width), x, y);
      }
    } else {
      NegativeWidthRaises(h, width);
    }
  }

  lemma NegativeWidthRaises(h: HypotFn, width: real)
    requires IsHypot(h) && width < 0.0
    ensures
      var s := Shortened(Min(0.2, -width));
      && WellFormed(s)
      && !BytePixel(RenderedPixel(ShapeSdf(h, s), Rgb(255, 255, 255), Outline(Rgb(0, 0, 0), width), 0, 0))
  {
    var depth := Min(0.2, -width);
    PartlyCovered(h, depth);
    FullBody(h, depth, width);
    var shape := CoverageAt(SURE, ShapeSdf(h, Shortened(depth)), 0, 0);
    QuotientTimes(255.0, shape);
    if 255.0 / shape < 256.0 { LessTimes(255.0 / shape, 256.0, shape); }
    assert Mean(0.0, 255.0, shape, 1.0) == 255.0 / shape;
    assert !IsByte(MixedChannel(0, 255, shape, 1.0));
  }

  lemma ChannelMixed(edge: int, fill: int, shape: real, body: real)
    requires 0.0 <= body <= shape && shape > 0.0
    ensures Between(MixedChannel(edge, fill, shape, body), edge, fill)
    ensures body == shape ==> MixedChannel(edge, fill, shape, body) == fill
  {
    var (low, high) := if edge <= fill then (edge, fill) else (fill, edge);
    WeightedMean(low as real, high as real, edge as real, fill as real, shape, body);
    RoundWithin(Mean(edge as real, fill as real, shape, body), low, high);
  }
}
