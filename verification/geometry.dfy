/**
 * Pixel geometry behind the collision detector: squared distances between
 * integer screen positions, the square-root-free form of "closer than a
 * reach", Python's `int()` truncation, and the projection of a point onto
 * a segment with real coordinates.
 */
module Geometry {

  /** A screen position in whole pixels. */
  datatype Point = Point(x: int, y: int)

  /** A position with real coordinates, for points inside a segment. */
  datatype RealPoint = RealPoint(x: real, y: real)

  function ToReal(p: Point): RealPoint {
    RealPoint(p.x as real, p.y as real)
  }

  /** The square of the Euclidean distance; `point_distance` is its square root. */
  function DistSq(p: Point, q: Point): (d: int)
    ensures d >= 0
    ensures d == 0 <==> p == q
  {
    var dx := p.x - q.x;
    var dy := p.y - q.y;
    assert dx * dx >= 0 && dy * dy >= 0;
    dx * dx + dy * dy
  }

  /** Distance does not depend on the order of the two points. */
  lemma DistSqSymmetric(p: Point, q: Point)
    ensures DistSq(p, q) == DistSq(q, p)
    ensures DistSq(p, p) == 0
  {
  }

  /** `sqrt(d) < reach` decided over the integers: a reach of zero or less admits nothing. */
  predicate WithinReach(d: int, reach: int) {
    reach > 0 && d < reach * reach
  }

  /**
   * For every non-negative real root of `d`, the strict comparison
   * `root < reach` that the detector makes on floats agrees with WithinReach.
   */
  lemma {:induction false} WithinReachMatchesRoot(d: int, reach: int, root: real)
    requires d >= 0 && root >= 0.0 && root * root == d as real
    ensures WithinReach(d, reach) <==> root < reach as real
  {
    var r := reach as real;
    assert (reach * reach) as real == r * r;
    if reach > 0 {
      if root < r {
        SquareMonotone(root, r);
        assert d as real < r * r;
      } else {
        SquareMonotone(r, root);
        assert r * r <= d as real;
      }
    }
  }

  /** Multiplying by a non-negative factor keeps an inequality. */
  lemma MulMonotone(c: real, x: real, y: real)
    requires 0.0 <= c && x <= y
    ensures c * x <= c * y
  {
    assert c * y - c * x == c * (y - x);
  }

  /** Squares of non-negative numbers grow with their bases, strictly when the bases differ. */
  lemma SquareMonotone(x: real, y: real)
    requires 0.0 <= x <= y
    ensures x * x <= y * y
    ensures x < y ==> x * x < y * y
  {
    assert y * y - x * x == (y - x) * (y + x);
    MulMonotone(y + x, 0.0, y - x);
    if x < y {
      PositiveProduct(y - x, y + x);
    }
  }

  lemma PositiveProduct(x: real, y: real)
    requires x > 0.0 && y > 0.0
    ensures x * y > 0.0
  {
  }

  /** Python's `int()` on a float: truncation toward zero, which is not `Floor` below zero. */
  function Trunc(x: real): (r: int)
    ensures 0.0 <= x ==> r as real <= x < r as real + 1.0
    ensures x < 0.0 ==> r as real - 1.0 < x <= r as real
  {
    if x >= 0.0 then x.Floor else -((-x).Floor)
  }

  /** Truncation keeps a value inside any integer interval that contains it. */
  lemma TruncBetween(x: real, lo: int, hi: int)
    requires lo as real <= x <= hi as real
    ensures lo <= Trunc(x) <= hi
  {
  }

  /** A whole number is left as it is. */
  lemma TruncOfInt(n: int)
    ensures Trunc(n as real) == n
  {
  }

  /** `max(0, min(1, u))`. */
  function Clamp01(u: real): (t: real)
    ensures 0.0 <= t <= 1.0
    ensures 0.0 <= u <= 1.0 ==> t == u
    ensures u < 0.0 ==> t == 0.0
    ensures u > 1.0 ==> t == 1.0
  {
    var m := if 1.0 < u then 1.0 else u;
    if 0.0 > m then 0.0 else m
  }

  lemma Clamp01Mirror(u: real)
    ensures Clamp01(1.0 - u) == 1.0 - Clamp01(u)
  {
  }

  /** The point a fraction `t` of the way from `a` to `b`. */
  function SegmentPoint(a: Point, b: Point, t: real): RealPoint {
    RealPoint(a.x as real + t * (b.x - a.x) as real, a.y as real + t * (b.y - a.y) as real)
  }

  function RealDistSq(p: RealPoint, q: RealPoint): real {
    (p.x - q.x) * (p.x - q.x) + (p.y - q.y) * (p.y - q.y)
  }

  /** The dot product of `c - a` with `b - a`. */
  function ProjectionDot(c: Point, a: Point, b: Point): real {
    (c.x - a.x) as real * (b.x - a.x) as real + (c.y - a.y) as real * (b.y - a.y) as real
  }

  /** Distinct pixel positions are a positive real distance apart. */
  lemma RealDistSqPositive(a: Point, b: Point)
    requires a != b
    ensures RealDistSq(ToReal(b), ToReal(a)) > 0.0
  {
    var dx := (b.x - a.x) as real;
    var dy := (b.y - a.y) as real;
    assert dx * dx >= 0.0 && dy * dy >= 0.0;
    if dx != 0.0 {
      assert dx * dx > 0.0;
    } else {
      assert dy != 0.0;
      assert dy * dy > 0.0;
    }
  }

  /** The unclamped parameter of the foot of the perpendicular from `c` to the line `ab`. */
  function ProjectionParam(c: Point, a: Point, b: Point): real
    requires a != b
  {
    RealDistSqPositive(a, b);
    ProjectionDot(c, a, b) / RealDistSq(ToReal(b), ToReal(a))
  }

  /**
   * The point of segment `ab` that the detector measures `c` against. It lies
   * on the line through `a` and `b` and inside their box, so on the segment.
   */
  function ClosestOnSegment(c: Point, a: Point, b: Point): (p: RealPoint)
    requires a != b
    ensures (a.x <= b.x ==> a.x as real <= p.x <= b.x as real) && (b.x <= a.x ==> b.x as real <= p.x <= a.x as real)
    ensures (a.y <= b.y ==> a.y as real <= p.y <= b.y as real) && (b.y <= a.y ==> b.y as real <= p.y <= a.y as real)
    ensures (p.x - a.x as real) * (b.y - a.y) as real == (p.y - a.y as real) * (b.x - a.x) as real
  {
    var t := Clamp01(ProjectionParam(c, a, b));
    SegmentPointInBox(a, b, t);
    assert (t * (b.x - a.x) as real) * (b.y - a.y) as real == (t * (b.y - a.y) as real) * (b.x - a.x) as real;
    SegmentPoint(a, b, t)
  }

  /** Every point of a segment lies in the box spanned by its endpoints. */
  lemma SegmentPointInBox(a: Point, b: Point, t: real)
    requires 0.0 <= t <= 1.0
    ensures var p := SegmentPoint(a, b, t);
      && (a.x <= b.x ==> a.x as real <= p.x <= b.x as real)
      && (b.x <= a.x ==> b.x as real <= p.x <= a.x as real)
      && (a.y <= b.y ==> a.y as real <= p.y <= b.y as real)
      && (b.y <= a.y ==> b.y as real <= p.y <= a.y as real)
  {
    var dx := (b.x - a.x) as real;
    var dy := (b.y - a.y) as real;
    if dx >= 0.0 { assert 0.0 <= t * dx <= dx; } else { assert dx <= t * dx <= 0.0; }
    if dy >= 0.0 { assert 0.0 <= t * dy <= dy; } else { assert dy <= t * dy <= 0.0; }
  }

  /** Squared distance from `w` to the point `s` along `v`, expanded as a quadratic in `s`. */
  lemma QuadraticExpansion(wx: real, wy: real, vx: real, vy: real, s: real)
    ensures (wx - s * vx) * (wx - s * vx) + (wy - s * vy) * (wy - s * vy)
         == (wx * wx + wy * wy) - 2.0 * s * (wx * vx + wy * vy) + s * s * (vx * vx + vy * vy)
  {
  }

  /** Distance from `c` to the point `s` along `ab`, written in the offsets `c - a` and `b - a`. */
  lemma SegmentDistCoords(c: Point, a: Point, b: Point, s: real)
    ensures RealDistSq(ToReal(c), SegmentPoint(a, b, s))
         == ((c.x - a.x) as real - s * (b.x - a.x) as real) * ((c.x - a.x) as real - s * (b.x - a.x) as real)
          + ((c.y - a.y) as real - s * (b.y - a.y) as real) * ((c.y - a.y) as real - s * (b.y - a.y) as real)
  {
    var p := SegmentPoint(a, b, s);
    assert c.x as real - p.x == (c.x - a.x) as real - s * (b.x - a.x) as real;
    assert c.y as real - p.y == (c.y - a.y) as real - s * (b.y - a.y) as real;
  }

  /** The squared length of `ab`, written in the offset `b - a`. */
  lemma LengthCoords(a: Point, b: Point)
    ensures RealDistSq(ToReal(b), ToReal(a))
         == (b.x - a.x) as real * (b.x - a.x) as real + (b.y - a.y) as real * (b.y - a.y) as real
  {
  }

  /** The projection dot product, written in the offsets `c - a` and `b - a`. */
  lemma DotCoords(c: Point, a: Point, b: Point)
    ensures ProjectionDot(c, a, b)
         == (c.x - a.x) as real * (b.x - a.x) as real + (c.y - a.y) as real * (b.y - a.y) as real
  {
  }

  /**
   * The gap between the squared distances `ds` and `dt` from `w` to the
   * points `s` and `t` along `v`, factored around the minimiser `u`. The
   * distances, the dot product and the squared length are passed in with
   * their coordinate forms so that callers can name them by any terms.
   */
  lemma OffsetGap(wx: real, wy: real, vx: real, vy: real, ds: real, dt: real, dot: real, len: real, s: real, t: real, u: real)
    requires ds == (wx - s * vx) * (wx - s * vx) + (wy - s * vy) * (wy - s * vy)
    requires dt == (wx - t * vx) * (wx - t * vx) + (wy - t * vy) * (wy - t * vy)
    requires dot == wx * vx + wy * vy && len == vx * vx + vy * vy
    requires ScaledBy(dot, u, len)
    ensures ExceedsBy(ds, dt, len, (s - t) * (s + t - 2.0 * u))
  {
    QuadraticExpansion(wx, wy, vx, vy, s);
    QuadraticExpansion(wx, wy, vx, vy, t);
    QuadraticGap(wx * wx + wy * wy, dot, len, u, s, t);
  }

  /** The difference of a convex quadratic at two parameters, factored around its minimum `u`. */
  lemma QuadraticGap(w: real, dot: real, len: real, u: real, s: real, t: real)
    requires dot == u * len
    ensures (w - 2.0 * s * dot + s * s * len) - (w - 2.0 * t * dot + t * t * len)
         == len * ((s - t) * (s + t - 2.0 * u))
  {
  }

  /** Clamping the minimiser to [0, 1] leaves it no worse than any other point of [0, 1]. */
  lemma ClampedGapNonNegative(u: real, s: real)
    requires 0.0 <= s <= 1.0
    ensures var t := Clamp01(u); (s - t) * (s + t - 2.0 * u) >= 0.0
  {
    var t := Clamp01(u);
    if u < 0.0 {
      assert t == 0.0;
      assert s * (s - 2.0 * u) >= 0.0;
    } else if u > 1.0 {
      assert t == 1.0;
      assert (1.0 - s) * (2.0 * u - s - 1.0) >= 0.0;
    } else {
      assert (s - t) * (s + t - 2.0 * u) == (s - t) * (s - t);
      SquareNonNegative(s - t);
    }
  }

  lemma SquareNonNegative(x: real)
    ensures x * x >= 0.0
  {
    if x < 0.0 {
      assert x * x == (-x) * (-x);
    }
  }

  lemma ZeroProduct(z: real, len: real)
    requires len > 0.0 && z * len == 0.0
    ensures z == 0.0
  {
  }

  /**
   * The clamped projection is a nearest point of the segment: no point of
   * `ab` is closer to `c`.
   */
  lemma {:induction false} ClosestIsNearest(c: Point, a: Point, b: Point, s: real)
    requires a != b
    requires 0.0 <= s <= 1.0
    ensures RealDistSq(ToReal(c), ClosestOnSegment(c, a, b)) <= RealDistSq(ToReal(c), SegmentPoint(a, b, s))
  {
    var u := ProjectionParam(c, a, b);
    ClampedGapNonNegative(u, s);
    ProjectionParamScales(c, a, b, u);
    SegmentDistCompare(c, a, b, s, Clamp01(u), u);
  }

  /**
   * Of two points along `ab`, the one at `t` is no farther from `c` when `t`
   * lies at least as close as `s` to the minimiser `u` of the quadratic, in
   * the factored sense.
   */
  lemma {:induction false} SegmentDistCompare(c: Point, a: Point, b: Point, s: real, t: real, u: real)
    requires RealDistSq(ToReal(b), ToReal(a)) > 0.0
    requires ScaledBy(ProjectionDot(c, a, b), u, RealDistSq(ToReal(b), ToReal(a)))
    requires (s - t) * (s + t - 2.0 * u) >= 0.0
    ensures RealDistSq(ToReal(c), SegmentPoint(a, b, t)) <= RealDistSq(ToReal(c), SegmentPoint(a, b, s))
  {
    SegmentDistGap(c, a, b, s, t, u);
    GapOrder(RealDistSq(ToReal(c), SegmentPoint(a, b, s)), RealDistSq(ToReal(c), SegmentPoint(a, b, t)),
      RealDistSq(ToReal(b), ToReal(a)), (s - t) * (s + t - 2.0 * u));
  }

  /** `dot` is `u` times `len`: `u` is the minimiser of the quadratic with these coefficients. */
  predicate ScaledBy(dot: real, u: real, len: real) {
    dot == u * len
  }

  /** `ds` exceeds `dt` by exactly `len` times `gap`. */
  predicate ExceedsBy(ds: real, dt: real, len: real, gap: real) {
    ds - dt == len * gap
  }

  /** A non-negative gap scaled by a positive length puts `dt` at or below `ds`. */
  lemma GapOrder(ds: real, dt: real, len: real, gap: real)
    requires ExceedsBy(ds, dt, len, gap) && len > 0.0 && gap >= 0.0
    ensures dt <= ds
  {
    MulMonotone(len, 0.0, gap);
  }

  /** The squared distances at `s` and at `t` differ by the squared length times the factored gap. */
  lemma SegmentDistGap(c: Point, a: Point, b: Point, s: real, t: real, u: real)
    requires ScaledBy(ProjectionDot(c, a, b), u, RealDistSq(ToReal(b), ToReal(a)))
    ensures ExceedsBy(RealDistSq(ToReal(c), SegmentPoint(a, b, s)), RealDistSq(ToReal(c), SegmentPoint(a, b, t)),
      RealDistSq(ToReal(b), ToReal(a)), (s - t) * (s + t - 2.0 * u))
  {
    SegmentDistCoords(c, a, b, s);
    SegmentDistCoords(c, a, b, t);
    LengthCoords(a, b);
    DotCoords(c, a, b);
    OffsetGap((c.x - a.x) as real, (c.y - a.y) as real, (b.x - a.x) as real, (b.y - a.y) as real,
      RealDistSq(ToReal(c), SegmentPoint(a, b, s)), RealDistSq(ToReal(c), SegmentPoint(a, b, t)),
      ProjectionDot(c, a, b), RealDistSq(ToReal(b), ToReal(a)), s, t, u);
  }

  /** The projection parameter times the squared length is the dot product it was divided from. */
  lemma ProjectionParamScales(c: Point, a: Point, b: Point, u: real)
    requires a != b
    requires u == ProjectionParam(c, a, b)
    ensures RealDistSq(ToReal(b), ToReal(a)) > 0.0
    ensures ScaledBy(ProjectionDot(c, a, b), u, RealDistSq(ToReal(b), ToReal(a)))
  {
    RealDistSqPositive(a, b);
    QuotientTimesDivisor(ProjectionDot(c, a, b), RealDistSq(ToReal(b), ToReal(a)));
  }

  lemma QuotientTimesDivisor(x: real, y: real)
    requires y != 0.0
    ensures (x / y) * y == x
  {
  }

  /** In particular the nearest point is no farther than either endpoint. */
  lemma ClosestBeatsEndpoints(c: Point, a: Point, b: Point)
    requires a != b
    ensures RealDistSq(ToReal(c), ClosestOnSegment(c, a, b)) <= RealDistSq(ToReal(c), ToReal(a))
    ensures RealDistSq(ToReal(c), ClosestOnSegment(c, a, b)) <= RealDistSq(ToReal(c), ToReal(b))
  {
    ClosestIsNearest(c, a, b, 0.0);
    assert SegmentPoint(a, b, 0.0) == ToReal(a);
    ClosestIsNearest(c, a, b, 1.0);
    assert SegmentPoint(a, b, 1.0) == ToReal(b);
  }

  /** A point lying on the segment is its own nearest point. */
  lemma {:induction false} ClosestOfPointOnSegment(c: Point, a: Point, b: Point, s: real)
    requires a != b
    requires 0.0 <= s <= 1.0
    requires ToReal(c) == SegmentPoint(a, b, s)
    ensures ClosestOnSegment(c, a, b) == ToReal(c)
  {
    var vx := (b.x - a.x) as real;
    var vy := (b.y - a.y) as real;
    var len := RealDistSq(ToReal(b), ToReal(a));
    RealDistSqPositive(a, b);
    assert (c.x - a.x) as real == s * vx;
    assert (c.y - a.y) as real == s * vy;
    assert ProjectionDot(c, a, b) == (s * vx) * vx + (s * vy) * vy;
    assert ProjectionDot(c, a, b) == s * len;
    var u := ProjectionParam(c, a, b);
    assert u * len == s * len;
    ZeroProduct(u - s, len);
  }

  /** Projecting from the other end of the segment gives the mirrored parameter. */
  lemma ProjectionParamMirror(c: Point, a: Point, b: Point)
    requires a != b
    ensures ProjectionParam(c, b, a) == 1.0 - ProjectionParam(c, a, b)
  {
    var len := RealDistSq(ToReal(b), ToReal(a));
    RealDistSqPositive(a, b);
    assert RealDistSq(ToReal(a), ToReal(b)) == len;
    assert ProjectionDot(c, b, a) == len - ProjectionDot(c, a, b);
    var u := ProjectionParam(c, a, b);
    var u' := ProjectionParam(c, b, a);
    assert u * len == ProjectionDot(c, a, b);
    assert u' * len == ProjectionDot(c, b, a);
    assert (u' - (1.0 - u)) * len == 0.0;
    ZeroProduct(u' - (1.0 - u), len);
  }

  /** The nearest point of a segment does not depend on which endpoint it is measured from. */
  lemma {:induction false} ClosestOnSegmentSymmetric(c: Point, a: Point, b: Point)
    requires a != b
    ensures ClosestOnSegment(c, a, b) == ClosestOnSegment(c, b, a)
  {
    ProjectionParamMirror(c, a, b);
    var t := Clamp01(ProjectionParam(c, a, b));
    Clamp01Mirror(ProjectionParam(c, a, b));
    assert Clamp01(ProjectionParam(c, b, a)) == 1.0 - t;
    var p := SegmentPoint(a, b, t);
    var q := SegmentPoint(b, a, 1.0 - t);
    assert p.x == q.x;
    assert p.y == q.y;
  }

  /** Squared distance between pixels is the real squared distance between them. */
  lemma DistSqAsReal(p: Point, q: Point)
    ensures DistSq(p, q) as real == RealDistSq(ToReal(p), ToReal(q))
  {
    var dx := p.x - q.x;
    var dy := p.y - q.y;
    assert (dx * dx) as real == dx as real * dx as real;
    assert (dy * dy) as real == dy as real * dy as real;
  }

  function AbsReal(x: real): real {
    if x < 0.0 then -x else x
  }

  /** Moving one coordinate by less than a pixel adds less than `2|v| + 1` to its square. */
  lemma AxisPerturb(v: real, e: real)
    requires -1.0 < e < 1.0
    ensures (v + e) * (v + e) < v * v + 2.0 * AbsReal(v) + 1.0
  {
    assert (v + e) * (v + e) == v * v + 2.0 * (v * e) + e * e;
    if v >= 0.0 {
      MulMonotone(v, e, 1.0);
    } else {
      MulMonotone(-v, -1.0, e);
    }
    assert v * e <= AbsReal(v);
    if e >= 0.0 {
      MulMonotone(e, e, 1.0);
    } else {
      MulMonotone(-e, -e, 1.0);
    }
    assert e * e < 1.0;
  }

  /** A coordinate is no longer than a vector whose squared length is below `b * b`. */
  lemma AxisBelow(v: real, len: real, b: real)
    requires 0.0 <= b && v * v <= len < b * b
    ensures AbsReal(v) < b
  {
    if AbsReal(v) >= b {
      SquareMonotone(b, AbsReal(v));
    }
  }

  /**
   * Moving a vector shorter than `b` by less than a pixel on each axis leaves
   * it shorter than `b + 2`.
   */
  lemma {:induction false} PerturbBound(vx: real, vy: real, ex: real, ey: real, b: real)
    requires 0.0 <= b
    requires -1.0 < ex < 1.0 && -1.0 < ey < 1.0
    requires vx * vx + vy * vy < b * b
    ensures (vx + ex) * (vx + ex) + (vy + ey) * (vy + ey) < (b + 2.0) * (b + 2.0)
  {
    var len := vx * vx + vy * vy;
    SquareNonNegative(vx);
    SquareNonNegative(vy);
    AxisPerturb(vx, ex);
    AxisPerturb(vy, ey);
    AxisBelow(vx, len, b);
    AxisBelow(vy, len, b);
    assert (b + 2.0) * (b + 2.0) == b * b + 4.0 * b + 4.0;
  }

  /**
   * Measuring from a point less than a pixel away on each axis changes a
   * distance below `b` into one below `b + 2`.
   */
  lemma PixelShift(p: RealPoint, c: RealPoint, q: RealPoint, b: real)
    requires 0.0 <= b
    requires -1.0 < c.x - q.x < 1.0 && -1.0 < c.y - q.y < 1.0
    requires RealDistSq(p, c) < b * b
    ensures RealDistSq(p, q) < (b + 2.0) * (b + 2.0)
  {
    PerturbBound(p.x - c.x, p.y - c.y, c.x - q.x, c.y - q.y, b);
    assert p.x - q.x == (p.x - c.x) + (c.x - q.x);
    assert p.y - q.y == (p.y - c.y) + (c.y - q.y);
  }

  /**
   * A pixel `q` less than a pixel from `c` on each axis, within `k` of `p`:
   * then `c` is within `k + 2` of `p`.
   */
  lemma PixelNearGivesGap(p: Point, c: RealPoint, q: Point, k: int)
    requires k > 0
    requires -1.0 < c.x - q.x as real < 1.0 && -1.0 < c.y - q.y as real < 1.0
    requires DistSq(p, q) < k * k
    ensures RealDistSq(ToReal(p), c) < (k as real + 2.0) * (k as real + 2.0)
  {
    assert RealDistSq(ToReal(p), ToReal(q)) < k as real * k as real by {
      DistSqAsReal(p, q);
      assert (k * k) as real == k as real * k as real;
    }
    PixelShift(ToReal(p), ToReal(q), c, k as real);
  }

  /**
   * A pixel `q` less than a pixel from `c` on each axis, with `c` within
   * `k - 2` of `p`: then `q` is within `k` of `p`.
   */
  lemma GapGivesPixelNear(p: Point, c: RealPoint, q: Point, k: int)
    requires k >= 2
    requires -1.0 < c.x - q.x as real < 1.0 && -1.0 < c.y - q.y as real < 1.0
    requires RealDistSq(ToReal(p), c) < (k - 2) as real * (k - 2) as real
    ensures DistSq(p, q) < k * k
  {
    PixelShift(ToReal(p), c, ToReal(q), (k - 2) as real);
    assert (k - 2) as real + 2.0 == k as real;
    DistSqAsReal(p, q);
    assert (k * k) as real == k as real * k as real;
  }

  /** A point `c` no farther from `p` than a pixel `j` within `k` of `p` is within `k + 2` of `p`. */
  lemma CloserThanPixelGivesGap(p: Point, c: RealPoint, j: Point, k: int)
    requires k > 0
    requires RealDistSq(ToReal(p), c) <= RealDistSq(ToReal(p), ToReal(j))
    requires DistSq(p, j) < k * k
    ensures RealDistSq(ToReal(p), c) < (k as real + 2.0) * (k as real + 2.0)
  {
    var r := k as real;
    DistSqAsReal(p, j);
    assert (k * k) as real == r * r;
    assert (r + 2.0) * (r + 2.0) == r * r + 4.0 * r + 4.0;
  }
}
