/**
 * One label to place (mapnik's `placement`): the measured text, the
 * geometry's shape path, the placement options, the memoised path length,
 * the queue of glyph boxes of the attempt in progress, the path being
 * built and the placements found so far.
 */
module Placements {
  import opened Geometry
  import opened Envelopes
  import opened Text

  /** One glyph of a placed label: character code, offset from the start point, rotation. */
  datatype GlyphNode = GlyphNode(code: int, x: real, y: real, angle: real)

  /** A label placement: where it starts and its glyphs. */
  datatype LabelPath = LabelPath(startX: real, startY: real, nodes: seq<GlyphNode>)

  datatype LabelPlacement = PointPlacement | LinePlacement

  /** The value `total_distance_` holds until the length is first computed. */
  const UNKNOWN_DISTANCE: real := -1.0

  class Placement {
    const info: StringInfo
    const geom: ShapePath
    const labelPlacement: LabelPlacement
    const hasDimensions: bool
    const dimWidth: real
    const dimHeight: real
    var totalDistance: real
    var wrapWidth: nat
    var textRatio: nat
    var labelSpacing: nat
    var maxCharAngleDelta: real
    var envelopes: seq<Envelope>
    var current: LabelPath
    var placements: seq<LabelPath>

    /** The text is measured and the length cache holds either the sentinel or the true length. */
    ghost predicate Valid()
      reads this`totalDistance, info
    {
      && ValidPath(geom)
      && info.Valid()
      && (totalDistance < 0.0 ==> totalDistance == UNKNOWN_DISTANCE)
      && (totalDistance >= 0.0 ==> totalDistance == TotalLength(geom))
    }

    /** A placement for a shield or marker of the given size: point placement. */
    constructor WithDimensions(info: StringInfo, geom: ShapePath, dimWidth: real, dimHeight: real)
      requires ValidPath(geom) && info.Valid()
      ensures Valid()
      ensures this.info == info && this.geom == geom && labelPlacement == PointPlacement
      ensures hasDimensions && this.dimWidth == dimWidth && this.dimHeight == dimHeight
      ensures totalDistance == UNKNOWN_DISTANCE
      ensures wrapWidth == 0 && textRatio == 0 && labelSpacing == 0 && maxCharAngleDelta == 0.0
      ensures envelopes == [] && current.nodes == [] && placements == []
    {
      this.info := info;
      this.geom := geom;
      labelPlacement := PointPlacement;
      hasDimensions := true;
      this.dimWidth := dimWidth;
      this.dimHeight := dimHeight;
      totalDistance := UNKNOWN_DISTANCE;
      wrapWidth, textRatio, labelSpacing, maxCharAngleDelta := 0, 0, 0, 0.0;
      envelopes, current, placements := [], LabelPath(0.0, 0.0, []), [];
    }

    /** A placement for text, point- or line-placed as asked. */
    constructor ForText(info: StringInfo, geom: ShapePath, placement: LabelPlacement)
      requires ValidPath(geom) && info.Valid()
      ensures Valid()
      ensures this.info == info && this.geom == geom && labelPlacement == placement
      ensures !hasDimensions && dimWidth == 0.0 && dimHeight == 0.0
      ensures totalDistance == UNKNOWN_DISTANCE
      ensures wrapWidth == 0 && textRatio == 0 && labelSpacing == 0 && maxCharAngleDelta == 0.0
      ensures envelopes == [] && current.nodes == [] && placements == []
    {
      this.info := info;
      this.geom := geom;
      labelPlacement := placement;
      hasDimensions := false;
      dimWidth, dimHeight := 0.0, 0.0;
      totalDistance := UNKNOWN_DISTANCE;
      wrapWidth, textRatio, labelSpacing, maxCharAngleDelta := 0, 0, 0, 0.0;
      envelopes, current, placements := [], LabelPath(0.0, 0.0, []), [];
    }

    /** The number of vertices: one more than the number of segments. */
    function PathSize(): (r: nat)
      requires ValidPath(geom)
      ensures r >= 1 && r == |geom.lengths| + 1
    {
      |geom.pts|
    }

    /**
     * The summed segment lengths, computed on the first call only: while
     * the cache holds the sentinel it is filled, afterwards it is returned
     * unchanged.
     */
    method GetTotalDistance() returns (d: real)
      requires Valid()
      modifies this`totalDistance
      ensures Valid()
      ensures d == TotalLength(geom) && totalDistance == d && d >= 0.0
      ensures old(totalDistance) >= 0.0 ==> d == old(totalDistance)
    {
      if totalDistance < 0.0 {
        totalDistance := 0.0;
        var i := 0;
        while i < |geom.pts| - 1
          invariant 0 <= i <= |geom.lengths|
          invariant totalDistance == Cum(geom.lengths, i)
        {
          totalDistance := totalDistance + geom.lengths[i];
          i := i + 1;
        }
      }
      TotalLengthNonNegative(geom);
      d := totalDistance;
    }

    /** The point at `target` along the path; (0, 0) when no segment reaches past it. */
    method GetPositionAtDistance(target: real) returns (p: Point)
      requires ValidPath(geom)
      ensures p == PointAt(geom, target)
    {
      var x, y := 0.0, 0.0;
      var distance := 0.0;
      var i := 0;
      while i < |geom.pts| - 1
        invariant 0 <= i <= |geom.lengths|
        invariant distance == Cum(geom.lengths, i)
        invariant FirstBeyond(geom.lengths, target, i) == FirstBeyond(geom.lengths, target, 0)
        invariant x == 0.0 && y == 0.0
      {
        var a, b := geom.pts[i], geom.pts[i + 1];
        var len := geom.lengths[i];
        distance := distance + len;
        assert distance == EndOf(geom.lengths, i);
        if distance > target {
          assert FirstBeyond(geom.lengths, target, i) == Some(i);
          var over := distance - target;
          var q := Interpolate(a, b, len, over);
          x, y := q.x, q.y;
          break;
        }
        i := i + 1;
      }
      p := Point(x, y);
    }

    /** Empties the glyph-box queue, front first. */
    method ClearEnvelopes()
      modifies this`envelopes
      ensures envelopes == []
    {
      while envelopes != []
        decreases |envelopes|
      {
        envelopes := envelopes[1..];
      }
    }
  }
}
