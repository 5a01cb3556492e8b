/**
 * The geometry of the line-following builder, one step at a time: the
 * segment the text starts on, the walk to the vertex that leaves room for
 * the next glyph, and the pose and box of one glyph. The floating-point
 * functions (atan2, cos, sin) and the iterative corner fit are parameters.
 */
module Follow {
  import opened Geometry
  import opened Envelopes
  import opened Text
  import opened Angles
  import opened Placements

  /** What the corner fit of a glyph reads: the turn, the block height, the previous vertex, the pen, the glyph and the previous direction. */
  datatype CornerQuery = CornerQuery(turn: real, stringHeight: real, prev: Point, penX: real, penY: real, glyph: CharInfo, lastAngle: real)

  /** A corner fit that settled: pen shift, distance used up, render angle and the advance to the next glyph. */
  datatype CornerFit = CornerFit(dx: real, dy: real, used: real, renderAngle: real, nextX: real, nextY: real)

  /**
   * The floating-point functions the follow builder calls: atan2(y, x),
   * cos, sin, and the iterative corner fit (None when its search ends
   * without settling on a position).
   */
  datatype Trig = Trig(atan2: (real, real) -> real, cos: real -> real, sin: real -> real,
                       cornerFit: CornerQuery -> Option<CornerFit>)

  /** Why a follow attempt ended. */
  datatype FollowEnd = Placed | TurnTooSharp | Blocked

  /** The direction of segment k, counter-clockwise from +x with y pointing down the device. */
  function SegmentAngle(trig: Trig, path: ShapePath, k: nat): real
    requires k + 1 < |path.pts|
  {
    var a, b := path.pts[k], path.pts[k + 1];
    trig.atan2(-(b.y - a.y), b.x - a.x)
  }

  /** The character the follow builder reads j-th: in order when the text runs left to right, else from the end. */
  function Visit(orientation: int, n: nat, j: nat): (c: nat)
    requires j < n
    ensures c < n
  {
    if orientation > 0 then j else n - 1 - j
  }

  /** Either way every character is read exactly once. */
  lemma VisitIsPermutation(orientation: int, n: nat, j: nat, k: nat)
    requires j < n && k < n
    ensures Visit(orientation, n, j) == Visit(orientation, n, k) <==> j == k
    ensures orientation <= 0 ==> Visit(orientation, n, j) + j == n - 1
  {
  }

  /**
   * Finds the segment the text starts on: the first whose far end lies
   * beyond `target`. There the start point is interpolated, the direction
   * taken and the orientation chosen, and `distance` is what is left of
   * the segment past the start. When no segment reaches that far the walk
   * ends at the last vertex with direction 0 and orientation 0.
   */
  method StartSegment(trig: Trig, path: ShapePath, target: real)
    returns (found: bool, start: Point, curNode: nat, distance: real, angle: real, orientation: int, prev: Point, vertex: Point)
    requires ValidPath(path)
    ensures found <==> FirstBeyond(path.lengths, target, 0).Some?
    ensures curNode < |path.pts| && vertex == path.pts[curNode]
    ensures found ==> var k := FirstBeyond(path.lengths, target, 0).value;
      && curNode == k + 1 && prev == path.pts[k]
      && start == PointAt(path, target)
      && angle == SegmentAngle(trig, path, k) && orientation == Orientation(angle)
      && distance == Reached(path, curNode) - target
    ensures !found ==> curNode == |path.pts| - 1 && angle == 0.0 && orientation == 0 && distance == TotalLength(path)
  {
    found, start, angle, orientation := false, Point(0.0, 0.0), 0.0, 0;
    vertex := path.pts[0];
    prev := vertex;
    curNode, distance := 0, 0.0;
    var i := 0;
    while i < |path.pts| - 1
      invariant 0 <= i <= |path.lengths| && curNode == i
      invariant vertex == path.pts[i] && distance == Cum(path.lengths, i)
      invariant FirstBeyond(path.lengths, target, i) == FirstBeyond(path.lengths, target, 0)
      invariant angle == 0.0 && orientation == 0
    {
      curNode := curNode + 1;
      prev := vertex;
      vertex := path.pts[curNode];
      var dx, dy := vertex.x - prev.x, vertex.y - prev.y;
      distance := distance + path.lengths[i];
      if distance > target {
        assert FirstBeyond(path.lengths, target, i) == Some(i);
        start := Interpolate(prev, vertex, path.lengths[i], distance - target);
        angle := trig.atan2(-dy, dx);
        orientation := Orientation(angle);
        distance := distance - target;
        found := true;
        return;
      }
      i := i + 1;
    }
  }

  /** Path length up to vertex c, counting no further than the last vertex. */
  function Reached(path: ShapePath, c: nat): real
  {
    Cum(path.lengths, if c < |path.lengths| then c else |path.lengths|)
  }

  /**
   * Where the builder is on the path: the vertex index it has reached, the
   * distance left to that vertex, the direction of the segment ending
   * there, and that segment's two ends.
   */
  datatype Cursor = Cursor(node: nat, distance: real, angle: real, prev: Point, vertex: Point)

  /** The cursor's vertex is the path's vertex at its index, while the index is on the path. */
  predicate OnPath(path: ShapePath, c: Cursor)
  {
    c.node < |path.pts| ==> c.vertex == path.pts[c.node]
  }

  /**
   * The vertex the walk reaches: while the distance left on the pen's
   * segment is at most `width`, moves to the next vertex, adding the new
   * segment's length and taking its direction; stops past the last vertex.
   */
  function WalkTo(trig: Trig, path: ShapePath, width: real, c: Cursor): Cursor
    requires ValidPath(path)
    decreases if c.node < |path.pts| then |path.pts| - c.node else 0
  {
    if c.distance > width then c
    else if c.node + 1 >= |path.pts| then c.(node := c.node + 1)
    else
      var prev, vertex := c.vertex, path.pts[c.node + 1];
      var angle := trig.atan2(-(vertex.y - prev.y), vertex.x - prev.x);
      WalkTo(trig, path, width, Cursor(c.node + 1, c.distance + path.lengths[c.node], angle, prev, vertex))
  }

  /**
   * The walk stays on the path and moves on by at least one vertex when it
   * starts; it ends with more than `width` left or past the last vertex;
   * the distance left changes by exactly the lengths walked; and on the
   * path the cursor holds the segment just entered and its direction, while
   * a walk that starts at the last vertex keeps the direction it had.
   */
  lemma {:induction false} WalkToFacts(trig: Trig, path: ShapePath, width: real, c: Cursor)
    requires ValidPath(path) && OnPath(path, c)
    ensures var r := WalkTo(trig, path, width, c);
      && OnPath(path, r) && r.node >= c.node
      && (c.distance <= width ==> r.node > c.node)
      && (r.distance > width || r.node >= |path.pts|)
      && r.distance - Reached(path, r.node) == c.distance - Reached(path, c.node)
      && (r.node > c.node && r.node < |path.pts| ==> r.prev == path.pts[r.node - 1] && r.angle == SegmentAngle(trig, path, r.node - 1))
      && (r.node >= |path.pts| && c.node + 1 >= |path.pts| ==> r.angle == c.angle && r.prev == c.prev && r.vertex == c.vertex)
    decreases if c.node < |path.pts| then |path.pts| - c.node else 0
  {
    if c.distance <= width && c.node + 1 < |path.pts| {
      var prev, vertex := c.vertex, path.pts[c.node + 1];
      var angle := trig.atan2(-(vertex.y - prev.y), vertex.x - prev.x);
      var next := Cursor(c.node + 1, c.distance + path.lengths[c.node], angle, prev, vertex);
      assert OnPath(path, next) && WalkTo(trig, path, width, c) == WalkTo(trig, path, width, next);
      WalkToFacts(trig, path, width, next);
      assert Reached(path, c.node + 1) == Reached(path, c.node) + path.lengths[c.node];
    }
  }

  /** The walk, as the builder's loop does it. */
  method Walk(trig: Trig, path: ShapePath, width: real, c: Cursor) returns (c': Cursor)
    requires ValidPath(path)
    ensures c' == WalkTo(trig, path, width, c)
  {
    c' := c;
    while c'.distance <= width
      invariant WalkTo(trig, path, width, c') == WalkTo(trig, path, width, c)
      decreases |path.pts| - c'.node
    {
      var node := c'.node + 1;
      if node >= |path.pts| {
        c' := c'.(node := node);
        break;
      }
      var prev, vertex := c'.vertex, path.pts[node];
      var angle := trig.atan2(-(vertex.y - prev.y), vertex.x - prev.x);
      c' := Cursor(node, c'.distance + path.lengths[node - 1], angle, prev, vertex);
    }
  }

  /**
   * Moves the cursor on to a segment with room for a glyph of the given
   * width and measures the turn from the direction it left: the difference
   * of the two directions, brought into [-PI, PI] by whole turns (the
   * corrected step; see Angles.FullTurnKeepsDirection).
   */
  method TurnTo(trig: Trig, path: ShapePath, width: real, c: Cursor) returns (c': Cursor, turn: real)
    requires ValidPath(path) && OnPath(path, c)
    ensures c' == WalkTo(trig, path, width, c)
    ensures turn == Turn(c.angle, c'.angle) && -PI <= turn <= PI
  {
    c' := Walk(trig, path, width, c);
    turn := Normalise(c.angle - c'.angle, TWO_PI);
    NormalisedInRange(c.angle - c'.angle, TWO_PI);
  }

  /** The text's fixed parameters for the follow builder: the label size of a placement with dimensions, and the block height. */
  datatype FollowText = FollowText(hasDimensions: bool, dimWidth: real, dimHeight: real, stringHeight: real)

  /** The pen: where the next glyph goes, the distance left on the current segment, and the advance from the last glyph. */
  datatype FollowPen = FollowPen(x: real, y: real, distance: real, nextX: real, nextY: real)

  /** Where a glyph is drawn, at which angle, and the box checked for it. */
  datatype GlyphPose = GlyphPose(pen: FollowPen, renderAngle: real, box: Envelope)

  /** The four corners of a glyph of the given size drawn at (x, y) rotated by `angle`, as one box. */
  function GlyphQuad(trig: Trig, x: real, y: real, w: real, h: real, angle: real): (e: Envelope)
    ensures Covers(e, x, y)
  {
    var c, s := trig.cos(angle), trig.sin(angle);
    var e0 := Init(x, y, x + w * c, y - w * s);
    var e1 := ExpandToInclude(e0, x - h * s, y - h * c);
    ExpandToInclude(e1, x + (w * c - h * s), y - (w * s + h * c))
  }

  /**
   * Places one glyph: after a turn (other than at the first glyph) the
   * corner fit decides, keeping the pen where it is when it does not
   * settle; otherwise the glyph sits on the segment, `distance` back from
   * its far vertex, lifted by half the block height less one, and the pen
   * moves on by its width. The box is the fixed-size box at the pen before
   * the move, or the rotated glyph's corners.
   */
  function PoseGlyph(trig: Trig, t: FollowText, ci: CharInfo, first: bool, turn: real, angle: real, lastAngle: real,
                     prev: Point, vertex: Point, pen: FollowPen): (g: GlyphPose)
    ensures t.hasDimensions ==> g.box == Init(pen.x, pen.y, pen.x + t.dimWidth, pen.y + t.dimHeight)
    ensures !t.hasDimensions ==> Covers(g.box, g.pen.x, g.pen.y)
    ensures !(Abs(turn) > 0.05 && !first) ==> g.pen.distance == pen.distance - ci.width && g.renderAngle == angle
    ensures Abs(turn) > 0.05 && !first && trig.cornerFit(CornerQuery(turn, t.stringHeight, prev, pen.x, pen.y, ci, lastAngle)).None? ==>
      g.pen == pen && g.renderAngle == angle
  {
    var h := t.stringHeight;
    var placed: (FollowPen, real) :=
      if Abs(turn) > 0.05 && !first then
        match trig.cornerFit(CornerQuery(turn, h, prev, pen.x, pen.y, ci, lastAngle))
        case None => (pen, angle)
        case Some(f) => (FollowPen(pen.x + f.dx, pen.y + f.dy, pen.distance - f.used, f.nextX, f.nextY), f.renderAngle)
      else
        var x := vertex.x - pen.distance * trig.cos(angle) - (h / 2.0 - 1.0) * trig.cos(angle + PI / 2.0);
        var y := vertex.y + pen.distance * trig.sin(angle) + (h / 2.0 - 1.0) * trig.sin(angle + PI / 2.0);
        (FollowPen(x, y, pen.distance - ci.width, ci.width * trig.cos(angle), ci.width * trig.sin(angle)), angle);
    var box :=
      if t.hasDimensions then Init(pen.x, pen.y, pen.x + t.dimWidth, pen.y + t.dimHeight)
      else GlyphQuad(trig, placed.0.x, placed.0.y, ci.width, ci.height, placed.1);
    GlyphPose(placed.0, placed.1, box)
  }

  /**
   * The node recorded for a posed glyph, relative to the start point with
   * y flipped; text running right to left is turned half a turn about the
   * glyph's far upper corner.
   */
  function RenderedNode(trig: Trig, ci: CharInfo, stringHeight: real, orientation: int, g: GlyphPose, startX: real, startY: real): (r: GlyphNode)
    ensures r.code == ci.code
    ensures r.angle == if orientation < 0 then g.renderAngle + PI else g.renderAngle
    ensures orientation >= 0 ==> r.x == g.pen.x - startX && r.y == startY - g.pen.y
  {
    var a := g.renderAngle;
    if orientation < 0 then
      var rx := g.pen.x + ci.width * trig.cos(a) - (stringHeight - 2.0) * trig.sin(a);
      var ry := g.pen.y - (ci.width * trig.sin(a) + (stringHeight - 2.0) * trig.cos(a));
      GlyphNode(ci.code, rx - startX, -ry + startY, a + PI)
    else
      GlyphNode(ci.code, g.pen.x - startX, -g.pen.y + startY, a)
  }

  /** What one run of the character loop reads: the functions, the path, the characters, the text, the turn limit, the orientation and the start point. */
  datatype FollowArgs = FollowArgs(trig: Trig, path: ShapePath, chars: seq<CharInfo>, text: FollowText,
                                   maxDelta: real, orientation: int, start: Point)

  /** The loop's state before a glyph: the cursor, the pen and the direction before the last walk. */
  datatype FollowState = FollowState(cursor: Cursor, pen: FollowPen, lastAngle: real)

  /** The turn measured before a glyph and the state the glyph is posed in. */
  datatype Approach = Approach(turn: real, at: FollowState)

  /** The state before the first glyph: the pen at the distance left past the start point, and no turn yet. */
  function FollowStart(c: Cursor): FollowState
  {
    FollowState(c, FollowPen(0.0, 0.0, c.distance, 0.0, 0.0), c.angle)
  }

  /**
   * What happens before a glyph of the given width: when the segment under
   * the pen has no room for it, the walk to the next such segment and the
   * turn from the direction left behind; otherwise no turn.
   */
  function ApproachGlyph(a: FollowArgs, width: real, s: FollowState): (r: Approach)
    requires ValidPath(a.path) && OnPath(a.path, s.cursor)
    ensures OnPath(a.path, r.at.cursor) && -PI <= r.turn <= PI
    ensures s.pen.distance > width ==> r == Approach(0.0, s)
    ensures s.pen.distance <= width ==>
      && r.at.cursor.node > s.cursor.node
      && (r.at.pen.distance > width || r.at.cursor.node >= |a.path.pts|)
      && r.turn == Turn(s.cursor.angle, r.at.cursor.angle) && r.at.lastAngle == s.cursor.angle
  {
    if s.pen.distance <= width then
      var c := WalkTo(a.trig, a.path, width, s.cursor.(distance := s.pen.distance));
      WalkToFacts(a.trig, a.path, width, s.cursor.(distance := s.pen.distance));
      NormalisedInRange(s.cursor.angle - c.angle, TWO_PI);
      Approach(Turn(s.cursor.angle, c.angle), FollowState(c, s.pen.(distance := c.distance), s.cursor.angle))
    else
      Approach(0.0, s)
  }

  /** The walk and turn before a glyph, as the loop does it. */
  method Advance(a: FollowArgs, width: real, s: FollowState) returns (r: Approach)
    requires ValidPath(a.path) && OnPath(a.path, s.cursor)
    ensures r == ApproachGlyph(a, width, s)
  {
    if s.pen.distance <= width {
      var c, turn := TurnTo(a.trig, a.path, width, s.cursor.(distance := s.pen.distance));
      r := Approach(turn, FollowState(c, s.pen.(distance := c.distance), s.cursor.angle));
    } else {
      r := Approach(0.0, s);
    }
  }

  /** The pose of a glyph in the state reached before it. */
  function PoseAt(a: FollowArgs, ci: CharInfo, first: bool, r: Approach): GlyphPose
  {
    PoseGlyph(a.trig, a.text, ci, first, r.turn, r.at.cursor.angle, r.at.lastAngle, r.at.cursor.prev, r.at.cursor.vertex, r.at.pen)
  }

  /** The state after a glyph: the pen moved on by the glyph's advance. */
  function AfterGlyph(at: FollowState, g: GlyphPose): FollowState
  {
    FollowState(at.cursor, g.pen.(x := g.pen.x + g.pen.nextX, y := g.pen.y - g.pen.nextY), at.lastAngle)
  }

  /**
   * The j-th glyph of a run, read in state s, was placed: its turn was not
   * too sharp, and its box, its node and the next state are the ones its
   * approach and pose give.
   */
  ghost predicate GlyphPlaced(a: FollowArgs, j: nat, s: FollowState, turn: real, box: Envelope, node: GlyphNode, next: FollowState)
  {
    && ValidPath(a.path) && j < |a.chars| && OnPath(a.path, s.cursor)
    && (var ci := a.chars[Visit(a.orientation, |a.chars|, j)];
        var r := ApproachGlyph(a, ci.width, s);
        var g := PoseAt(a, ci, j == 0, r);
        && turn == r.turn && !TooSharp(a.maxDelta, turn)
        && box == g.box
        && node == RenderedNode(a.trig, ci, a.text.stringHeight, a.orientation, g, a.start.x, a.start.y)
        && next == AfterGlyph(r.at, g))
  }

  /**
   * The j-th glyph of a run, read in state s, ended it: the run ends for a
   * sharp turn exactly when that glyph's turn is too sharp, and a glyph
   * refused by the detector is refused for its own box.
   */
  ghost predicate GlyphStopped(a: FollowArgs, j: nat, s: FollowState, turn: real, end: FollowEnd, rejected: Envelope)
  {
    && ValidPath(a.path) && j < |a.chars| && OnPath(a.path, s.cursor)
    && (var ci := a.chars[Visit(a.orientation, |a.chars|, j)];
        var r := ApproachGlyph(a, ci.width, s);
        && turn == r.turn
        && (end == TurnTooSharp <==> TooSharp(a.maxDelta, turn))
        && (end == Blocked ==> rejected == PoseAt(a, ci, j == 0, r).box))
  }

  /**
   * A whole run of the character loop from `cursor`: states[j] is the
   * state before glyph j, every glyph before the last state was placed, and
   * unless the run placed every character, the next glyph ended it.
   */
  ghost predicate FollowRun(a: FollowArgs, cursor: Cursor, end: FollowEnd, nodes: seq<GlyphNode>, queued: seq<Envelope>,
                            turns: seq<real>, states: seq<FollowState>, rejected: Envelope)
  {
    && |states| == |queued| + 1 && states[0] == FollowStart(cursor)
    && |nodes| == |queued| <= |turns|
    && (end == Placed ==> |queued| == |turns| == |a.chars|)
    && (end != Placed ==> |queued| + 1 == |turns| <= |a.chars|
                          && GlyphStopped(a, |queued|, states[|queued|], turns[|queued|], end, rejected))
    && forall j :: 0 <= j < |queued| ==> GlyphPlaced(a, j, states[j], turns[j], queued[j], nodes[j], states[j + 1])
  }

  /** A run's placed glyphs extended by one more placed glyph. */
  lemma PlacedExtend(a: FollowArgs, states: seq<FollowState>, turns: seq<real>, queued: seq<Envelope>, nodes: seq<GlyphNode>,
                     turn: real, box: Envelope, node: GlyphNode, next: FollowState)
    requires |turns| == |queued| == |nodes| && |states| == |queued| + 1
    requires forall j :: 0 <= j < |queued| ==> GlyphPlaced(a, j, states[j], turns[j], queued[j], nodes[j], states[j + 1])
    requires GlyphPlaced(a, |queued|, states[|queued|], turn, box, node, next)
    ensures var states', turns', queued', nodes' := states + [next], turns + [turn], queued + [box], nodes + [node];
      forall j :: 0 <= j < |queued'| ==> GlyphPlaced(a, j, states'[j], turns'[j], queued'[j], nodes'[j], states'[j + 1])
  {
    var states', turns', queued', nodes' := states + [next], turns + [turn], queued + [box], nodes + [node];
    forall j | 0 <= j < |queued'|
      ensures GlyphPlaced(a, j, states'[j], turns'[j], queued'[j], nodes'[j], states'[j + 1])
    {
      if j < |queued| {
        assert states'[j] == states[j] && states'[j + 1] == states[j + 1];
        assert turns'[j] == turns[j] && queued'[j] == queued[j] && nodes'[j] == nodes[j];
      }
    }
  }

  /**
   * What a run promises about its turns and glyphs: every turn lies in
   * [-PI, PI], the run stops at the first turn that is too sharp and at no
   * other, and the nodes carry the characters in reading order.
   */
  lemma FollowRunFacts(a: FollowArgs, cursor: Cursor, end: FollowEnd, nodes: seq<GlyphNode>, queued: seq<Envelope>,
                       turns: seq<real>, states: seq<FollowState>, rejected: Envelope)
    requires FollowRun(a, cursor, end, nodes, queued, turns, states, rejected)
    ensures forall j :: 0 <= j < |turns| ==> -PI <= turns[j] <= PI
    ensures end == TurnTooSharp ==> |turns| > 0 && TooSharp(a.maxDelta, turns[|turns| - 1])
    ensures forall j :: 0 <= j < |turns| && (end != TurnTooSharp || j < |turns| - 1) ==> !TooSharp(a.maxDelta, turns[j])
    ensures forall j :: 0 <= j < |nodes| ==> nodes[j].code == a.chars[Visit(a.orientation, |a.chars|, j)].code
  {
    forall j | 0 <= j < |turns|
      ensures -PI <= turns[j] <= PI
      ensures (end != TurnTooSharp || j < |turns| - 1) ==> !TooSharp(a.maxDelta, turns[j])
    {
      if j < |queued| {
        assert GlyphPlaced(a, j, states[j], turns[j], queued[j], nodes[j], states[j + 1]);
      } else {
        assert GlyphStopped(a, |queued|, states[|queued|], turns[|queued|], end, rejected);
      }
    }
    forall j | 0 <= j < |nodes|
      ensures nodes[j].code == a.chars[Visit(a.orientation, |a.chars|, j)].code
    {
      assert GlyphPlaced(a, j, states[j], turns[j], queued[j], nodes[j], states[j + 1]);
    }
  }
}
