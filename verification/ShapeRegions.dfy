/** Which points the shapes of launcher/antialias.py cover: the regions stated by
    distances and sides, and the antialiased pixels as counts of their samples. */
module ShapeRegions {
  import opened Antialias

  // ----- the regions -----

  /** Positive on the inner side of the edge from a to b of a polygon with positive
      area. */
  function Side(a: Point, b: Point, px: real, py: real): real {
    Mul(px - a.x, b.y - a.y) + Mul(py - a.y, a.x - b.x)
  }

  /** The point is inside the polygon's edge i, by at least c. */
  ghost predicate InHalfPlane(h: HypotFn, points: seq<Point>, i: nat, c: real, px: real, py: real)
    requires i < |points|
  {
    var (a, b) := (Previous(points, i), points[i]);
    var side := Side(a, b, px, py);
    Mul(c, h(b.x - a.x, b.y - a.y)) <= if TwiceArea(points, |points|) > 0.0 then side else -side
  }

  /** A point of the segment from a to b lies within r. */
  ghost predicate NearSegment(a: Point, b: Point, r: real, px: real, py: real) {
    exists t :: 0.0 <= t <= 1.0 && Reaches(a, b, t, r, px, py)
  }

  predicate Reaches(a: Point, b: Point, t: real, r: real, px: real, py: real) {
    var p := Along(b.x - a.x, b.y - a.y, t);
    Norm2(px - a.x - p.x, py - a.y - p.y) <= Sq(r)
  }

  /** The interval lo..hi, grown by a on either side, holds p. */
  predicate InGrown(lo: real, hi: real, a: real, p: real) { lo - a <= p <= hi + a }

  /** The box, grown by some a and b that are together no longer than r, holds the
      point. */
  ghost predicate NearBox(x0: real, y0: real, x1: real, y1: real, r: real, px: real, py: real) {
    exists a, b :: a >= 0.0 && b >= 0.0 && Norm2(a, b) <= Sq(r) && InGrown(x0, x1, a, px) && InGrown(y0, y1, b, py)
  }

  /** The points a shape covers, drawn in by c. */
  ghost predicate Covers(h: HypotFn, s: Shape, c: real, px: real, py: real)
    decreases s
  {
    match s
    case RoundedBox(x0, y0, x1, y1, radius) =>
      radius >= c && NearBox(x0 + radius, y0 + radius, x1 - radius, y1 - radius, radius - c, px, py)
    case Box(x0, y0, x1, y1) => x0 + c <= px <= x1 - c && y0 + c <= py <= y1 - c
    case Circle(cx, cy, radius) => radius >= c && Norm2(px - cx, py - cy) <= Sq(radius - c)
    case Ring(cx, cy, radius, stroke) =>
      var (half, n) := (stroke / 2.0 - c, Norm2(px - cx, py - cy));
      && half >= 0.0 && radius + half >= 0.0 && n <= Sq(radius + half)
      && (radius > half ==> Sq(radius - half) <= n)
    case Segment(a, b, stroke) => stroke / 2.0 >= c && NearSegment(a, b, stroke / 2.0 - c, px, py)
    case ConvexPolygon(points) => forall i :: 0 <= i < |points| ==> InHalfPlane(h, points, i, c, px, py)
    case Union(parts) => exists i :: 0 <= i < |parts| && Covers(h, parts[i], c, px, py)
    case Inset(part, width) => Covers(h, part, c + width, px, py)
  }

  // ----- they are what the distances say -----

  lemma WithinIs(h: HypotFn, dx: real, dy: real, r: real)
    requires IsHypot(h)
    ensures h(dx, dy) <= r <==> 0.0 <= r && Norm2(dx, dy) <= Sq(r)
  {
    assert HypotAt(h, dx, dy);
    if h(dx, dy) <= r { SqMonotone(h(dx, dy), r); }
    if 0.0 <= r && Norm2(dx, dy) <= Sq(r) { SqLeq(h(dx, dy), r); }
  }

  lemma BeyondIs(h: HypotFn, dx: real, dy: real, r: real)
    requires IsHypot(h)
    ensures r <= h(dx, dy) <==> (r > 0.0 ==> Sq(r) <= Norm2(dx, dy))
  {
    assert HypotAt(h, dx, dy);
    if r > 0.0 && r <= h(dx, dy) { SqMonotone(r, h(dx, dy)); }
    if r > 0.0 && Sq(r) <= Norm2(dx, dy) { SqLeq(r, h(dx, dy)); }
  }

  lemma RoundedBoxIs(h: HypotFn, s: Shape, c: real, px: real, py: real)
    requires IsHypot(h) && s.RoundedBox?
    ensures Eval(h, s, px, py) >= c <==> Covers(h, s, c, px, py)
  {
    var (x0, y0, x1, y1, r) := (s.x0 + s.radius, s.y0 + s.radius, s.x1 - s.radius, s.y1 - s.radius, s.radius - c);
    var (dx, dy) := (Outside(x0, x1, px), Outside(y0, y1, py));
    WithinIs(h, dx, dy, r);
    if h(dx, dy) <= r {
      assert InGrown(x0, x1, dx, px) && InGrown(y0, y1, dy, py);
    }
    if s.radius >= c && NearBox(x0, y0, x1, y1, r, px, py) {
      var a, b :| a >= 0.0 && b >= 0.0 && Norm2(a, b) <= Sq(r) && InGrown(x0, x1, a, px) && InGrown(y0, y1, b, py);
      HypotMonotone(h, dx, dy, a, b);
      WithinIs(h, a, b, r);
    }
  }

  lemma RingIs(h: HypotFn, s: Shape, c: real, px: real, py: real)
    requires IsHypot(h) && s.Ring?
    ensures Eval(h, s, px, py) >= c <==> Covers(h, s, c, px, py)
  {
    var half := s.stroke / 2.0 - c;
    WithinIs(h, px - s.cx, py - s.cy, s.radius + half);
    BeyondIs(h, px - s.cx, py - s.cy, s.radius - half);
  }

  lemma ReachesIs(h: HypotFn, a: Point, b: Point, t: real, r: real, px: real, py: real)
    requires IsHypot(h)
    ensures
      var p := Along(b.x - a.x, b.y - a.y, t);
      h(px - a.x - p.x, py - a.y - p.y) <= r <==> 0.0 <= r && Reaches(a, b, t, r, px, py)
  {
    var p := Along(b.x - a.x, b.y - a.y, t);
    WithinIs(h, px - a.x - p.x, py - a.y - p.y, r);
  }

  lemma SegmentIs(h: HypotFn, s: Shape, c: real, px: real, py: real)
    requires IsHypot(h) && s.Segment? && WellFormed(s)
    ensures Eval(h, s, px, py) >= c <==> Covers(h, s, c, px, py)
  {
    var (dx, dy, r) := (s.b.x - s.a.x, s.b.y - s.a.y, s.stroke / 2.0 - c);
    var t := Foot(px - s.a.x, py - s.a.y, dx, dy);
    ReachesIs(h, s.a, s.b, t, r, px, py);
    if 0.0 <= r && NearSegment(s.a, s.b, r, px, py) {
      var u :| 0.0 <= u <= 1.0 && Reaches(s.a, s.b, u, r, px, py);
      ReachesIs(h, s.a, s.b, u, r, px, py);
      FootIsNearest(h, px - s.a.x, py - s.a.y, dx, dy, u);
    }
  }

  lemma SidedProduct(x: real, y: real, ex: real, ey: real, sign: real, length: real)
    requires length > 0.0 && (sign == 1.0 || sign == -1.0)
    ensures
      Mul(Dot(x, y, sign * ex / length, sign * ey / length), length)
      == if sign > 0.0 then Mul(x, ex) + Mul(y, ey) else -(Mul(x, ex) + Mul(y, ey))
  {
    var (nx, ny) := (sign * ex / length, sign * ey / length);
    assert nx * length == sign * ex && ny * length == sign * ey;
    assert Mul(Dot(x, y, nx, ny), length) == x * (nx * length) + y * (ny * length);
  }

  lemma EdgeIs(h: HypotFn, points: seq<Point>, i: nat, c: real, px: real, py: real)
    requires IsHypot(h)
    requires i < |points| && Previous(points, i) != points[i]
    ensures EdgeDistance(h, points, i, px, py) >= c <==> InHalfPlane(h, points, i, c, px, py)
  {
    var (a, b) := (Previous(points, i), points[i]);
    var (length, d) := (h(b.x - a.x, b.y - a.y), EdgeDistance(h, points, i, px, py));
    var sign := if TwiceArea(points, |points|) > 0.0 then 1.0 else -1.0;
    LengthPositive(h, b.x - a.x, b.y - a.y);
    SidedProduct(px - a.x, py - a.y, b.y - a.y, a.x - b.x, sign, length);
    if d < c { LessTimes(d, c, length); }
    if d > c { LessTimes(c, d, length); }
  }

  lemma MinNext(h: HypotFn, points: seq<Point>, n: nat, px: real, py: real)
    requires IsHypot(h) && 0 < n <= |points|
    requires forall i :: 0 <= i < |points| ==> Previous(points, i) != points[i]
    ensures MinOverEdges(h, points, n, px, py) <= EdgeDistance(h, points, n - 1, px, py)
    ensures n > 1 ==> MinOverEdges(h, points, n, px, py) <= MinOverEdges(h, points, n - 1, px, py)
  {}

  lemma {:induction false} MinIsBelow(h: HypotFn, points: seq<Point>, n: nat, i: nat, px: real, py: real)
    requires IsHypot(h) && i < n <= |points|
    requires forall i :: 0 <= i < |points| ==> Previous(points, i) != points[i]
    ensures MinOverEdges(h, points, n, px, py) <= EdgeDistance(h, points, i, px, py)
  {
    MinNext(h, points, n, px, py);
    if i < n - 1 {
      MinIsBelow(h, points, n - 1, i, px, py);
    }
  }

  lemma {:induction false} MinIsReached(h: HypotFn, points: seq<Point>, n: nat, px: real, py: real) returns (i: nat)
    requires IsHypot(h) && 0 < n <= |points|
    requires forall i :: 0 <= i < |points| ==> Previous(points, i) != points[i]
    ensures i < n && MinOverEdges(h, points, n, px, py) == EdgeDistance(h, points, i, px, py)
  {
    i := n - 1;
    if n > 1 && MinOverEdges(h, points, n, px, py) == MinOverEdges(h, points, n - 1, px, py) {
      i := MinIsReached(h, points, n - 1, px, py);
    }
  }

  lemma EdgesAre(h: HypotFn, points: seq<Point>, c: real, px: real, py: real)
    requires IsHypot(h) && |points| > 0
    requires forall i :: 0 <= i < |points| ==> Previous(points, i) != points[i]
    ensures
      MinOverEdges(h, points, |points|, px, py) >= c
      <==> forall i :: 0 <= i < |points| ==> InHalfPlane(h, points, i, c, px, py)
  {
    forall i | 0 <= i < |points|
      ensures MinOverEdges(h, points, |points|, px, py) >= c ==> InHalfPlane(h, points, i, c, px, py)
    {
      MinIsBelow(h, points, |points|, i, px, py);
      EdgeIs(h, points, i, c, px, py);
    }
    var k := MinIsReached(h, points, |points|, px, py);
    EdgeIs(h, points, k, c, px, py);
  }

  lemma {:induction false} PartsAre(h: HypotFn, parts: seq<Shape>, c: real, px: real, py: real)
    requires IsHypot(h) && |parts| > 0 && forall i :: 0 <= i < |parts| ==> WellFormed(parts[i])
    ensures
      MaxOverParts(h, parts, px, py) >= c <==> exists i :: 0 <= i < |parts| && Covers(h, parts[i], c, px, py)
    decreases parts, 1
  {
    CoversIs(h, parts[0], c, px, py);
    if |parts| > 1 {
      PartsAre(h, parts[1..], c, px, py);
      assert forall i :: 0 < i < |parts| ==> parts[i] == parts[1..][i - 1];
      if exists i :: 0 <= i < |parts[1..]| && Covers(h, parts[1..][i], c, px, py) {
        var i :| 0 <= i < |parts[1..]| && Covers(h, parts[1..][i], c, px, py);
        assert Covers(h, parts[i + 1], c, px, py);
      }
    }
  }

  /** A shape's distance is at least c exactly at the points it covers drawn in by c. */
  lemma {:induction false} CoversIs(h: HypotFn, s: Shape, c: real, px: real, py: real)
    requires IsHypot(h) && WellFormed(s)
    ensures Eval(h, s, px, py) >= c <==> Covers(h, s, c, px, py)
    decreases s, 0
  {
    match s
    case RoundedBox(_, _, _, _, _) => RoundedBoxIs(h, s, c, px, py);
    case Box(_, _, _, _) =>
    case Circle(cx, cy, radius) => WithinIs(h, px - cx, py - cy, radius - c);
    case Ring(_, _, _, _) => RingIs(h, s, c, px, py);
    case Segment(_, _, _) => SegmentIs(h, s, c, px, py);
    case ConvexPolygon(points) => EdgesAre(h, points, c, px, py);
    case Union(parts) => PartsAre(h, parts, c, px, py);
    case Inset(part, width) => CoversIs(h, part, c + width, px, py);
  }

  // ----- boxes with rounded corners and polygons -----

  lemma NearestInBox(lo: real, hi: real, a: real, p: real) returns (q: real)
    requires lo <= hi && a >= 0.0 && InGrown(lo, hi, a, p)
    ensures lo <= q <= hi && -a <= p - q <= a
  {
    q := Max(lo, Min(hi, p));
  }

  predicate WithinBox(x0: real, y0: real, x1: real, y1: real, qx: real, qy: real) { x0 <= qx <= x1 && y0 <= qy <= y1 }

  /** A point of the box lies within r. */
  ghost predicate HasNearPoint(x0: real, y0: real, x1: real, y1: real, r: real, px: real, py: real) {
    exists qx, qy :: WithinBox(x0, y0, x1, y1, qx, qy) && Norm2(px - qx, py - qy) <= Sq(r)
  }

  lemma NearBoxHasPoint(h: HypotFn, x0: real, y0: real, x1: real, y1: real, r: real, px: real, py: real)
    requires IsHypot(h) && x0 <= x1 && y0 <= y1 && r >= 0.0 && NearBox(x0, y0, x1, y1, r, px, py)
    ensures HasNearPoint(x0, y0, x1, y1, r, px, py)
  {
    var a, b :| a >= 0.0 && b >= 0.0 && Norm2(a, b) <= Sq(r) && InGrown(x0, x1, a, px) && InGrown(y0, y1, b, py);
    var qx := NearestInBox(x0, x1, a, px);
    var qy := NearestInBox(y0, y1, b, py);
    WithinIs(h, a, b, r);
    HypotMonotone(h, px - qx, py - qy, a, b);
    WithinIs(h, px - qx, py - qy, r);
    assert WithinBox(x0, y0, x1, y1, qx, qy);
  }

  lemma PointIsNearBox(h: HypotFn, x0: real, y0: real, x1: real, y1: real, r: real, px: real, py: real)
    requires IsHypot(h) && r >= 0.0 && HasNearPoint(x0, y0, x1, y1, r, px, py)
    ensures NearBox(x0, y0, x1, y1, r, px, py)
  {
    var qx, qy :| WithinBox(x0, y0, x1, y1, qx, qy) && Norm2(px - qx, py - qy) <= Sq(r);
    var (a, b) := (Abs(px - qx), Abs(py - qy));
    WithinIs(h, px - qx, py - qy, r);
    HypotMonotone(h, a, b, px - qx, py - qy);
    WithinIs(h, a, b, r);
    assert InGrown(x0, x1, a, px) && InGrown(y0, y1, b, py);
  }

  /** A box with corners rounded by no more than its sides allow is the points within the
      radius of the box inside it. */
  lemma RoundedBoxIsNear(h: HypotFn, s: Shape, px: real, py: real)
    requires IsHypot(h) && s.RoundedBox? && s.radius >= 0.0
    requires s.x0 + s.radius <= s.x1 - s.radius && s.y0 + s.radius <= s.y1 - s.radius
    ensures
      Eval(h, s, px, py) >= 0.0
      <==> HasNearPoint(s.x0 + s.radius, s.y0 + s.radius, s.x1 - s.radius, s.y1 - s.radius, s.radius, px, py)
  {
    var (x0, y0, x1, y1, r) := (s.x0 + s.radius, s.y0 + s.radius, s.x1 - s.radius, s.y1 - s.radius, s.radius);
    RoundedBoxIs(h, s, 0.0, px, py);
    if NearBox(x0, y0, x1, y1, r, px, py) {
      NearBoxHasPoint(h, x0, y0, x1, y1, r, px, py);
    }
    if HasNearPoint(x0, y0, x1, y1, r, px, py) {
      PointIsNearBox(h, x0, y0, x1, y1, r, px, py);
    }
  }

  /** The sides a point has of a polygon's edges. */
  function Sides(points: seq<Point>, px: real, py: real): (sides: seq<real>)
    ensures |sides| == |points|
  {
    seq(|points|, i requires 0 <= i < |points| => Side(Previous(points, i), points[i], px, py))
  }

  function Sum(a: seq<real>, n: nat): real
    requires n <= |a|
  {
    if n == 0 then 0.0 else Sum(a, n - 1) + a[n - 1]
  }

  /** How the sum of the sides differs from twice the area along an open chain of edges. */
  lemma {:induction false} SidesAlong(points: seq<Point>, n: nat, px: real, py: real)
    requires 0 < n <= |points|
    ensures Sum(Sides(points, px, py), n) == TwiceArea(points, n) + Rest(Previous(points, 0), points[n - 1], px, py)
  {
    var (first, a, b) := (Previous(points, 0), Previous(points, n - 1), points[n - 1]);
    SumNext(points, n, px, py);
    AreaNext(points, n);
    if n > 1 {
      SidesAlong(points, n - 1, px, py);
      RestAdds(first, a, b, px, py);
    } else {
      assert Sum(Sides(points, px, py), 0) == 0.0 && TwiceArea(points, 0) == 0.0;
    }
  }

  /** What a point that is not the origin adds to a chain from one end to the other. */
  function Rest(first: Point, last: Point, px: real, py: real): real {
    Mul(px, last.y - first.y) + Mul(py, first.x - last.x)
  }

  lemma RestAdds(first: Point, a: Point, b: Point, px: real, py: real)
    ensures Rest(first, a, px, py) + Rest(a, b, px, py) == Rest(first, b, px, py)
  {
    MulSplits(px, a.y - first.y, b.y - a.y);
    MulSplits(py, first.x - a.x, a.x - b.x);
  }

  lemma SumNext(points: seq<Point>, n: nat, px: real, py: real)
    requires 0 < n <= |points|
    ensures
      var (a, b, sides) := (Previous(points, n - 1), points[n - 1], Sides(points, px, py));
      Sum(sides, n) == Sum(sides, n - 1) + AreaTerm(a, b) + Rest(a, b, px, py)
  {
    SideOfOrigin(Previous(points, n - 1), points[n - 1], px, py);
  }

  function AreaTerm(a: Point, b: Point): real { b.x * a.y - a.x * b.y }

  lemma AreaNext(points: seq<Point>, n: nat)
    requires 0 < n <= |points|
    ensures TwiceArea(points, n) == TwiceArea(points, n - 1) + AreaTerm(Previous(points, n - 1), points[n - 1])
  {}

  lemma SideOfOrigin(a: Point, b: Point, px: real, py: real)
    ensures Side(a, b, px, py) == AreaTerm(a, b) + Rest(a, b, px, py)
  {}

  lemma MulSplits(a: real, b: real, c: real)
    ensures Mul(a, b) + Mul(a, c) == Mul(a, b + c)
  {}

  /** Round a polygon the sides of any point add up to twice its area. */
  lemma SidesAddUp(points: seq<Point>, px: real, py: real)
    requires |points| > 0
    ensures Sum(Sides(points, px, py), |points|) == TwiceArea(points, |points|)
  {
    SidesAlong(points, |points|, px, py);
    MulSplits(px, 0.0, 0.0);
    MulSplits(py, 0.0, 0.0);
  }

  predicate OnSide(sign: real, side: real) { if sign > 0.0 then side >= 0.0 else side <= 0.0 }

  lemma {:induction false} SignOfSum(sides: seq<real>, n: nat, sign: real)
    requires n <= |sides| && forall i :: 0 <= i < |sides| ==> OnSide(sign, sides[i])
    ensures OnSide(sign, Sum(sides, n)) && (Sum(sides, n) == 0.0 ==> forall i :: 0 <= i < n ==> sides[i] == 0.0)
  {
    if n > 0 {
      SignOfSum(sides, n - 1, sign);
    }
  }

  /** No point of the polygon is on the outer side of an edge, its points going round one
      way (positive sign) or the other. */
  ghost predicate Convex(points: seq<Point>, sign: real) {
    forall i, j :: 0 <= i < |points| && 0 <= j < |points| ==> OnSide(sign, Sides(points, points[j].x, points[j].y)[i])
  }

  /** A convex polygon holds its points, whichever way round they are given. */
  lemma PolygonHoldsItsPoints(h: HypotFn, points: seq<Point>, sign: real, j: nat)
    requires IsHypot(h) && WellFormed(ConvexPolygon(points)) && Convex(points, sign) && j < |points|
    ensures Eval(h, ConvexPolygon(points), points[j].x, points[j].y) >= 0.0
  {
    var (px, py) := (points[j].x, points[j].y);
    var sides := Sides(points, px, py);
    SidesAddUp(points, px, py);
    SignOfSum(sides, |points|, sign);
    forall i | 0 <= i < |points|
      ensures InHalfPlane(h, points, i, 0.0, px, py)
    {
      assert sides[i] == Side(Previous(points, i), points[i], px, py);
      NoInset(h(points[i].x - Previous(points, i).x, points[i].y - Previous(points, i).y));
    }
    CoversIs(h, ConvexPolygon(points), 0.0, px, py);
  }

  lemma NoInset(length: real)
    ensures Mul(0.0, length) == 0.0
  {}

  // ----- pixels -----

  /** The middle of the i-th quarter of pixel x. */
  function Quarter(x: int, i: int): real { x as real + (2 * i + 1) as real / 8.0 }

  /** The samples of a pixel, of the first n, that the shape covers: the middles of its
      sixteen squares, row by row. */
  ghost function SamplesIn(h: HypotFn, s: Shape, x: int, y: int, n: nat): set<int> {
    set k | 0 <= k < n && Covers(h, s, 0.0, Quarter(x, k % 4), Quarter(y, k / 4))
  }

  lemma SampleIsQuarter(x: int, i: int)
    ensures Sample(x, i) == Quarter(x, i)
  {}

  predicate SampleInside(sdf: Sdf, x: int, y: int, k: int) { Inside(sdf, x, y, k % SUPERSAMPLE, k / SUPERSAMPLE) }

  /** The samples of the first n that are inside. */
  function InsideOf(sdf: Sdf, x: int, y: int, n: nat): set<int> {
    if n == 0 then {} else InsideOf(sdf, x, y, n - 1) + if SampleInside(sdf, x, y, n - 1) then {n - 1} else {}
  }

  lemma {:induction false} InsideOfIs(sdf: Sdf, x: int, y: int, n: nat, k: int)
    ensures k in InsideOf(sdf, x, y, n) <==> 0 <= k < n && SampleInside(sdf, x, y, k)
  {
    if n > 0 {
      InsideOfIs(sdf, x, y, n - 1, k);
    }
  }

  lemma OneMore(a: set<int>, k: int, more: bool)
    requires k !in a
    ensures |a + if more then {k} else {}| == |a| + if more then 1 else 0
  {
    assert !more ==> a + {} == a;
  }

  lemma InsideNext(sdf: Sdf, x: int, y: int, n: nat)
    requires n > 0
    ensures
      |InsideOf(sdf, x, y, n)| == |InsideOf(sdf, x, y, n - 1)| + if SampleInside(sdf, x, y, n - 1) then 1 else 0
  {
    InsideOfIs(sdf, x, y, n - 1, n - 1);
    OneMore(InsideOf(sdf, x, y, n - 1), n - 1, SampleInside(sdf, x, y, n - 1));
  }

  lemma {:induction false} HitsAreInside(sdf: Sdf, x: int, y: int, n: nat)
    ensures Hits(sdf, x, y, n) == |InsideOf(sdf, x, y, n)|
  {
    if n > 0 {
      HitsAreInside(sdf, x, y, n - 1);
      InsideNext(sdf, x, y, n);
    }
  }

  lemma HitsAreSamples(h: HypotFn, s: Shape, x: int, y: int, n: nat)
    requires IsHypot(h) && WellFormed(s)
    ensures Hits(ShapeSdf(h, s), x, y, n) == |SamplesIn(h, s, x, y, n)|
  {
    var sdf := ShapeSdf(h, s);
    HitsAreInside(sdf, x, y, n);
    forall k
      ensures k in InsideOf(sdf, x, y, n) <==> k in SamplesIn(h, s, x, y, n)
    {
      InsideOfIs(sdf, x, y, n, k);
      if 0 <= k < n {
        SampleIsQuarter(x, k % 4);
        SampleIsQuarter(y, k / 4);
        CoversIs(h, s, 0.0, Quarter(x, k % 4), Quarter(y, k / 4));
      }
    }
    assert InsideOf(sdf, x, y, n) == SamplesIn(h, s, x, y, n);
  }

  /** `coverage` is the part of the sixteen samples that lie in the region. */
  lemma CoverageCounts(h: HypotFn, s: Shape, x: int, y: int)
    requires IsHypot(h) && WellFormed(s)
    ensures CoverageAt(SURE, ShapeSdf(h, s), x, y) == |SamplesIn(h, s, x, y, 16)| as real / 16.0
  {
    CoverageIsExact(h, s, x, y);
    HitsAreSamples(h, s, x, y, 16);
  }

  /** The body of a shape is the shape drawn in by the outline's width. */
  function BodyOf(s: Shape, outline: Outline): Shape { if outline.Outline? then Inset(s, outline.width) else s }

  lemma BodyCounts(h: HypotFn, s: Shape, outline: Outline, x: int, y: int)
    requires IsHypot(h) && WellFormed(s)
    ensures BodyCoverage(ShapeSdf(h, s), outline, x, y) == |SamplesIn(h, BodyOf(s, outline), x, y, 16)| as real / 16.0
  {
    CoverageCounts(h, BodyOf(s, outline), x, y);
    if outline.Outline? {
      var (lowered, inset) := (Lowered(ShapeSdf(h, s), outline.width), ShapeSdf(h, Inset(s, outline.width)));
      assert forall px, py :: lowered(px, py) == inset(px, py);
      CoverageMonotone(lowered, inset, x, y);
      CoverageMonotone(inset, lowered, x, y);
    }
  }

  /** q is the nearest integer to a / b. */
  predicate IsNearest(q: int, a: int, b: int) { -b <= 2 * (q * b - a) <= b }

  lemma RoundIsNear(v: real)
    ensures -0.5 <= Round(v) as real - v <= 0.5
  {}

  lemma NearQuotient(q: int, v: real, a: int, b: int)
    requires b > 0 && Mul(v, b as real) == a as real && -0.5 <= q as real - v <= 0.5
    ensures IsNearest(q, a, b)
  {
    var d := q as real - v;
    assert Mul(d, b as real) == (q * b - a) as real;
    if d > 0.0 { ProductBelow(d, 0.5, b as real); }
    if d < 0.0 { ProductBelow(-d, 0.5, b as real); }
    assert Mul(-d, b as real) == -Mul(d, b as real);
  }

  lemma ProductBelow(a: real, c: real, b: real)
    requires a <= c && b > 0.0
    ensures Mul(a, b) <= Mul(c, b)
  {}

  lemma MixIs(edge: int, fill: int, n: int, m: int)
    requires n > 0
    ensures IsNearest(MixedChannel(edge, fill, n as real / 16.0, m as real / 16.0), edge * (n - m) + fill * m, n)
  {
    var (shape, body) := (n as real / 16.0, m as real / 16.0);
    var v := Mean(edge as real, fill as real, shape, body);
    RoundIsNear(v);
    QuotientTimes(edge as real * (shape - body) + fill as real * body, shape);
    assert Mul(v, n as real) == 16.0 * Mul(v, shape);
    NearQuotient(MixedChannel(edge, fill, shape, body), v, edge * (n - m) + fill * m, n);
  }

  /** A rendered pixel: with n samples in the shape and m in its body, transparent if n is
      zero; else the edge colour and the fill mixed n - m to m, with alpha 255 * n / 16,
      each rounded to the nearest. */
  lemma PixelIs(h: HypotFn, s: Shape, fill: Rgb, outline: Outline, x: int, y: int)
    requires IsHypot(h) && WellFormed(s)
    ensures
      var (n, m) := (|SamplesIn(h, s, x, y, 16)|, |SamplesIn(h, BodyOf(s, outline), x, y, 16)|);
      var (p, edge) := (RenderedPixel(ShapeSdf(h, s), fill, outline, x, y),
                        if outline.Outline? then outline.colour else fill);
      if n == 0 then p == Rgba(0, 0, 0, 0)
      else
        && IsNearest(p.a, 255 * n, 16) && IsNearest(p.r, edge.r * (n - m) + fill.r * m, n)
        && IsNearest(p.g, edge.g * (n - m) + fill.g * m, n) && IsNearest(p.b, edge.b * (n - m) + fill.b * m, n)
  {
    var (n, m) := (|SamplesIn(h, s, x, y, 16)|, |SamplesIn(h, BodyOf(s, outline), x, y, 16)|);
    var edge := EdgeColour(outline, fill);
    CoverageCounts(h, s, x, y);
    BodyCounts(h, s, outline, x, y);
    if n > 0 {
      MixIs(edge.r, fill.r, n, m);
      MixIs(edge.g, fill.g, n, m);
      MixIs(edge.b, fill.b, n, m);
      AlphaIs(n);
    }
  }

  lemma AlphaIs(n: int)
    requires n > 0
    ensures IsNearest(Round(255.0 * (n as real / 16.0)), 255 * n, 16)
  {
    RoundIsNear(255.0 * (n as real / 16.0));
  }
}
