/**
 * Shape paths and the distance arithmetic a placement does along them:
 * cumulative segment lengths, the first segment that reaches past a
 * distance, and the point interpolated on that segment.
 */
module Geometry {
  import opened RealArith

  datatype Option<T> = None | Some(value: T)

  datatype Point = Point(x: real, y: real)

  /** The geometry type tag the horizontal builder branches on. */
  datatype GeomType = PointGeometry | LineString | Polygon

  /**
   * A geometry as its shape path yields it: the vertices, already carried
   * through the projection and view transforms; the Euclidean length of
   * each segment; and the geometry's own label position, in the same
   * device coordinates.
   */
  datatype ShapePath = ShapePath(kind: GeomType, pts: seq<Point>, lengths: seq<real>, labelAnchor: Point)

  /** `len` is sqrt(dx*dx + dy*dy) of the segment a-b: its one non-negative square root. */
  predicate IsSegmentLength(a: Point, b: Point, len: real)
  {
    var dx, dy := b.x - a.x, b.y - a.y;
    len >= 0.0 && len * len == dx * dx + dy * dy
  }

  /** A path has at least one vertex and the true length of each of its segments. */
  predicate ValidPath(path: ShapePath)
  {
    && |path.pts| >= 1
    && |path.lengths| == |path.pts| - 1
    && forall i :: 0 <= i < |path.lengths| ==> IsSegmentLength(path.pts[i], path.pts[i + 1], path.lengths[i])
  }

  predicate NonNegative(lengths: seq<real>)
  {
    forall i :: 0 <= i < |lengths| ==> lengths[i] >= 0.0
  }

  /** Distance along the path up to vertex k: the sum of the first k segment lengths. */
  function Cum(lengths: seq<real>, k: nat): real
    requires k <= |lengths|
  {
    if k == 0 then 0.0 else Cum(lengths, k - 1) + lengths[k - 1]
  }

  /** Distance along the path to the far end of segment k. */
  function EndOf(lengths: seq<real>, k: nat): real
    requires k < |lengths|
  {
    Cum(lengths, k + 1)
  }

  function TotalLength(path: ShapePath): real
  {
    Cum(path.lengths, |path.lengths|)
  }

  lemma ValidPathNonNegative(path: ShapePath)
    requires ValidPath(path)
    ensures NonNegative(path.lengths)
  {
    forall i | 0 <= i < |path.lengths| ensures path.lengths[i] >= 0.0 {
      assert IsSegmentLength(path.pts[i], path.pts[i + 1], path.lengths[i]);
    }
  }

  /** Two segment lengths of the same segment agree: the stored length is the square root. */
  lemma SegmentLengthUnique(a: Point, b: Point, l: real, m: real)
    requires IsSegmentLength(a, b, l) && IsSegmentLength(a, b, m)
    ensures l == m
  {
    SquareMonotone(l, m);
    SquareMonotone(m, l);
  }

  lemma SquareMonotone(x: real, y: real)
    requires 0.0 <= x && 0.0 <= y
    ensures x < y ==> x * x < y * y
  {
    if x < y {
      var d := y - x;
      assert y * y == x * x + 2.0 * x * d + d * d;
      assert x * d >= 0.0;
      assert d * d > 0.0;
    }
  }

  lemma {:induction false} CumMonotone(lengths: seq<real>, j: nat, k: nat)
    requires NonNegative(lengths) && j <= k <= |lengths|
    ensures Cum(lengths, j) <= Cum(lengths, k)
    decreases k
  {
    if j < k {
      CumMonotone(lengths, j, k - 1);
    }
  }

  /** The summed length of a valid path is never negative, so the -1.0 cache sentinel is never a real length. */
  lemma TotalLengthNonNegative(path: ShapePath)
    requires ValidPath(path)
    ensures TotalLength(path) >= 0.0
  {
    ValidPathNonNegative(path);
    CumMonotone(path.lengths, 0, |path.lengths|);
  }

  /**
   * The first segment, from segment `from` on, whose far end lies strictly
   * beyond `target`; None when every remaining segment ends at or before it.
   */
  function FirstBeyond(lengths: seq<real>, target: real, from: nat): (r: Option<nat>)
    requires from <= |lengths|
    ensures r.Some? ==> from <= r.value < |lengths| && EndOf(lengths, r.value) > target
    ensures r.Some? ==> forall j :: from <= j < r.value ==> EndOf(lengths, j) <= target
    ensures r.None? ==> forall j :: from <= j < |lengths| ==> EndOf(lengths, j) <= target
    decreases |lengths| - from
  {
    if from == |lengths| then None
    else if EndOf(lengths, from) > target then Some(from)
    else FirstBeyond(lengths, target, from + 1)
  }

  /**
   * The point `overshoot` back from b along the segment a-b of length `len`.
   * A zero-length segment yields b itself.
   */
  function Interpolate(a: Point, b: Point, len: real, overshoot: real): Point
  {
    if len == 0.0 then b
    else Point(b.x - (b.x - a.x) * overshoot / len, b.y - (b.y - a.y) * overshoot / len)
  }

  /**
   * The point at distance `target` along the path: interpolated on the
   * first segment that reaches past `target`, or (0, 0) when none does.
   */
  function PointAt(path: ShapePath, target: real): Point
    requires ValidPath(path)
  {
    match FirstBeyond(path.lengths, target, 0)
    case None => Point(0.0, 0.0)
    case Some(k) => Interpolate(path.pts[k], path.pts[k + 1], path.lengths[k], EndOf(path.lengths, k) - target)
  }

  /** On a path with at least one segment, no segment reaches past `target` exactly when `target` is at or past the end. */
  lemma NoSegmentBeyondIffPastEnd(path: ShapePath, target: real)
    requires ValidPath(path) && |path.pts| >= 2
    ensures FirstBeyond(path.lengths, target, 0).None? <==> TotalLength(path) <= target
    ensures TotalLength(path) <= target ==> PointAt(path, target) == Point(0.0, 0.0)
  {
    var n := |path.lengths|;
    var r := FirstBeyond(path.lengths, target, 0);
    if r.None? {
      assert EndOf(path.lengths, n - 1) <= target;
    }
    if TotalLength(path) <= target && r.Some? {
      ValidPathNonNegative(path);
      CumMonotone(path.lengths, r.value + 1, n);
      assert false;
    }
  }

  /** The point a fraction t of the way from a to b. */
  function Along(a: Point, b: Point, t: real): Point
  {
    Point(a.x + t * (b.x - a.x), a.y + t * (b.y - a.y))
  }

  /**
   * A target inside the path falls on a segment of positive length, a
   * fraction t in [0, 1) of the way along it, and the result is that point
   * of the segment.
   */
  lemma PointAtLiesOnSegment(path: ShapePath, target: real)
    requires ValidPath(path) && 0.0 <= target < TotalLength(path)
    ensures FirstBeyond(path.lengths, target, 0).Some?
    ensures var k := FirstBeyond(path.lengths, target, 0).value;
      && Cum(path.lengths, k) <= target
      && path.lengths[k] > 0.0
      && 0.0 <= (target - Cum(path.lengths, k)) / path.lengths[k] < 1.0
      && PointAt(path, target) == Along(path.pts[k], path.pts[k + 1], (target - Cum(path.lengths, k)) / path.lengths[k])
  {
    var l := path.lengths;
    var n := |l|;
    var r := FirstBeyond(l, target, 0);
    assert EndOf(l, n - 1) == TotalLength(path);
    var k := r.value;
    if k > 0 {
      assert EndOf(l, k - 1) <= target;
    }
    var len, c := l[k], Cum(l, k);
    assert EndOf(l, k) == c + len;
    FractionInUnit(target - c, len);
    assert EndOf(l, k) - target == len - (target - c);
    InterpolateAlong(path.pts[k], path.pts[k + 1], len, target - c);
  }

  lemma InterpolateAlong(a: Point, b: Point, len: real, u: real)
    requires len > 0.0
    ensures Interpolate(a, b, len, len - u) == Along(a, b, u / len)
  {
    InterpolateAsFraction(a.x, b.x, len, u);
    InterpolateAsFraction(a.y, b.y, len, u);
  }

  /** Moving `len - u` back from bx is moving u forward from ax, on a segment of positive length. */
  lemma InterpolateAsFraction(ax: real, bx: real, len: real, u: real)
    requires len > 0.0
    ensures bx - (bx - ax) * (len - u) / len == ax + (u / len) * (bx - ax)
  {
    var dx := bx - ax;
    var q := dx * (len - u) / len;
    var t := u / len;
    assert q * len == dx * (len - u);
    assert t * len == u;
    assert (dx - t * dx) * len == dx * len - dx * u;
    Cancel(q, dx - t * dx, len);
  }

  /** The L-shaped path (0,0)-(3,0)-(3,4) is valid and 7 long. */
  lemma ExampleLShapedPath()
    ensures var path := ShapePath(LineString, [Point(0.0, 0.0), Point(3.0, 0.0), Point(3.0, 4.0)], [3.0, 4.0], Point(0.0, 0.0));
      ValidPath(path) && TotalLength(path) == 7.0
  {
    var lengths := [3.0, 4.0];
    assert Cum(lengths, 1) == 3.0;
    assert Cum(lengths, 2) == 7.0;
  }
}
