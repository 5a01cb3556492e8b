/**
 * The placement finder: the two search drivers, the two path builders and
 * the check-then-commit protocol between a placement's queue of glyph
 * boxes and the collision detector.
 *
 * Every builder call is recorded in the ghost trace `attempts`, so the
 * drivers' contracts can say which targets were tried, in which order,
 * and which boxes reached the detector.
 */
module Finder {
  import opened Geometry
  import opened Envelopes
  import opened Collision
  import opened Text
  import opened Wrap
  import opened Layout
  import opened Angles
  import opened Placements
  import opened Glyphs
  import opened Search
  import opened Follow

  class PlacementFinder {
    const detector: Detector
    const trig: Trig
    ghost var attempts: seq<Attempt>

    constructor (trig: Trig)
      ensures fresh(detector) && detector.boxes == []
      ensures this.trig == trig && attempts == []
    {
      detector := new Detector();
      this.trig := trig;
      attempts := [];
    }

    /** Moves the queued boxes into the detector, oldest first, leaving the queue empty. */
    method UpdateDetector(p: Placement)
      modifies detector, p`envelopes
      ensures detector.boxes == old(detector.boxes) + old(p.envelopes)
      ensures p.envelopes == []
    {
      ghost var k := 0;
      while p.envelopes != []
        invariant k <= |old(p.envelopes)|
        invariant p.envelopes == old(p.envelopes)[k..]
        invariant detector.boxes == old(detector.boxes) + old(p.envelopes)[..k]
        decreases |p.envelopes|
      {
        var e := p.envelopes[0];
        detector.Insert(e);
        p.envelopes := p.envelopes[1..];
        assert old(p.envelopes)[..k + 1] == old(p.envelopes)[..k] + [e];
        k := k + 1;
      }
    }

    /** A line break: the pen moves to the start of the next line, one line height down; nothing is placed. */
    method NextLine(lay: HLayout, line: nat, i: nat, x: real, y: real, lineHeight: real)
      returns (line': nat, indexToWrapAt: nat, lineWidth: real, x': real, y': real, lineHeight': real)
      requires WellFormed(lay) && i < |lay.chars| && PenAt(lay, line, i, x, y, lineHeight) && i == lay.breaks[line]
      ensures PenAt(lay, line', i + 1, x', y', lineHeight')
      ensures indexToWrapAt == lay.breaks[line'] && lineWidth == lay.widths[line']
      ensures HNodes(lay, i + 1) == HNodes(lay, i) && HBoxes(lay, i + 1) == HBoxes(lay, i)
    {
      PenAtBreak(lay, line, i, x, y, lineHeight);
      line' := line + 1;
      indexToWrapAt := lay.breaks[line'];
      lineWidth := lay.widths[line'];
      y' := y - lineHeight;
      x' := -lineWidth / 2.0;
      lineHeight' := 0.0;
    }

    /**
     * One character inside a line: appends its glyph at the pen, returns
     * its box and moves the pen right by its width, the line height up to
     * its height.
     */
    method PlaceGlyph(p: Placement, lay: HLayout, line: nat, i: nat, x: real, y: real, lineHeight: real)
      returns (e: Envelope, nextX: real, nextHeight: real)
      requires WellFormed(lay) && i < |lay.chars| && PenAt(lay, line, i, x, y, lineHeight) && i != lay.breaks[line]
      requires p.current.nodes == HNodes(lay, i)
      modifies p`current
      ensures i !in lay.breaks && e == HBox(lay, i)
      ensures p.current == old(p.current).(nodes := HNodes(lay, i + 1))
      ensures HBoxes(lay, i + 1) == HBoxes(lay, i) + [e]
      ensures PenAt(lay, line, i + 1, nextX, y, nextHeight)
    {
      PenInsideLine(lay, line, i, x, y, lineHeight);
      InsideLine(lay.breaks, |lay.chars|, i, line);
      var ci, start := lay.chars[i], lay.start;
      p.current := p.current.(nodes := p.current.nodes + [GlyphNode(ci.code, x, y, 0.0)]);
      if lay.hasDimensions {
        e := Init(start.x - lay.dimWidth / 2.0, start.y - lay.dimHeight / 2.0, start.x + lay.dimWidth / 2.0, start.y + lay.dimHeight / 2.0);
      } else {
        e := Init(start.x + x, start.y - y, start.x + x + ci.width, start.y - y - ci.height);
      }
      nextX := x + ci.width;
      nextHeight := if lineHeight > ci.height then lineHeight else ci.height;
    }

    /**
     * The layout loop of the horizontal builder: walks the characters,
     * moving to the next line at each break; places every other character's
     * glyph, then tests its box against the detector and queues it. Stops
     * at the first blocked box.
     */
    method PlaceGlyphs(p: Placement, lay: HLayout) returns (ok: bool, ghost queued: seq<Envelope>)
      requires WellFormed(lay)
      modifies p`current, p`envelopes
      ensures LaidOut(lay, detector.boxes, ok, queued, p.current.nodes)
      ensures forall e :: e in queued ==> Free(detector.boxes, e)
      ensures p.current.startX == lay.start.x && p.current.startY == lay.start.y
      ensures p.envelopes == old(p.envelopes) + queued
    {
      var chars, breaks, widths, start := lay.chars, lay.breaks, lay.widths, lay.start;
      var n := |chars|;
      p.current := LabelPath(start.x, start.y, []);
      var lineHeight := 0.0;
      var line: nat := 0;
      var indexToWrapAt := breaks[line];
      var lineWidth := widths[line];
      var x := -lineWidth / 2.0;
      var y := -lay.height / 2.0 + 1.0;
      queued := [];
      assert p.envelopes == old(p.envelopes) + queued;
      var i: nat := 0;
      while i < n
        invariant PenAt(lay, line, i, x, y, lineHeight)
        invariant indexToWrapAt == breaks[line] && lineWidth == widths[line]
        invariant p.current == LabelPath(start.x, start.y, HNodes(lay, i))
        invariant queued == HBoxes(lay, i) && p.envelopes == old(p.envelopes) + queued
        invariant forall e :: e in queued ==> Free(detector.boxes, e)
      {
        if i == indexToWrapAt {
          line, indexToWrapAt, lineWidth, x, y, lineHeight := NextLine(lay, line, i, x, y, lineHeight);
        } else {
          var e, nextX, nextHeight := PlaceGlyph(p, lay, line, i, x, y, lineHeight);
          if !detector.HasPlacement(e) {
            NextGlyph(lay, i, queued, p.current.nodes);
            return false, queued;
          }
          Regroup(old(p.envelopes), queued, [e]);
          p.envelopes := p.envelopes + [e];
          queued := queued + [e];
          x, lineHeight := nextX, nextHeight;
        }
        i := i + 1;
      }
      assert i == |lay.chars|;
      ok := true;
    }

    /** Wraps the text with the placement's options and stores the wrapped dimensions. */
    method WrapText(p: Placement) returns (ghost wrapAt: real, breaks: seq<nat>, widths: seq<real>, newHeight: real)
      requires p.Valid()
      modifies p.info
      ensures p.Valid()
      ensures WrapResult(p.info.chars, old(p.info.width), old(p.info.height), p.wrapWidth, p.textRatio,
                         wrapAt, breaks, widths, p.info.width, p.info.height)
      ensures WellFormedBreaks(breaks, |p.info.chars|) && |widths| == |breaks| && newHeight == p.info.height
    {
      var newWidth;
      wrapAt, breaks, widths, newWidth, newHeight := LayoutLines(p.info.chars, p.info.width, p.info.height, p.wrapWidth, p.textRatio);
      p.info.SetDimensions(newWidth, newHeight);
    }

    /**
     * Lays the text out horizontally around the point at `target` (or the
     * geometry's label position when it is not a line string): wraps it,
     * stores the wrapped dimensions, then places the glyphs. Succeeds,
     * appending the path to the placements, when every box is free.
     */
    method BuildPathHorizontal(p: Placement, target: real)
      returns (ok: bool, ghost wrapAt: real, lay: HLayout, ghost queued: seq<Envelope>)
      requires p.Valid()
      modifies p`current, p`envelopes, p`placements, p.info, this`attempts
      ensures p.Valid()
      ensures WellFormed(lay) && lay.chars == p.info.chars
      ensures WrapResult(p.info.chars, old(p.info.width), old(p.info.height), p.wrapWidth, p.textRatio,
                         wrapAt, lay.breaks, lay.widths, p.info.width, p.info.height)
      ensures lay.height == p.info.height
      ensures lay.start == (if p.geom.kind == LineString then PointAt(p.geom, target) else p.geom.labelAnchor)
      ensures lay.hasDimensions == p.hasDimensions && lay.dimWidth == p.dimWidth && lay.dimHeight == p.dimHeight
      ensures p.current.startX == lay.start.x && p.current.startY == lay.start.y
      ensures LaidOut(lay, detector.boxes, ok, queued, p.current.nodes)
      ensures forall e :: e in queued ==> Free(detector.boxes, e)
      ensures p.envelopes == old(p.envelopes) + queued
      ensures p.placements == old(p.placements) + (if ok then [p.current] else [])
      ensures attempts == old(attempts) + [Attempt(Horizontal, target, ok, queued)]
    {
      p.current := p.current.(nodes := []);
      var breaks, widths, newHeight;
      wrapAt, breaks, widths, newHeight := WrapText(p);
      var start: Point;
      if p.geom.kind == LineString {
        start := p.GetPositionAtDistance(target);
      } else {
        start := p.geom.labelAnchor;
      }
      lay := HLayout(p.info.chars, breaks, widths, newHeight, start, p.hasDimensions, p.dimWidth, p.dimHeight);
      ok, queued := PlaceGlyphs(p, lay);
      if ok {
        p.placements := p.placements + [p.current];
      }
      attempts := attempts + [Attempt(Horizontal, target, ok, queued)];
    }

    /**
     * The character loop of the line-following builder: for each character
     * (from the end when the text runs right to left) walks on to the next
     * segment when the one under the pen has no room for it, stops at a
     * turn sharper than max_char_angle_delta, poses the glyph and stops at
     * a box the detector refuses; otherwise queues the box and records the
     * glyph relative to the start point.
     */
    method PlaceAlong(a: FollowArgs, cursor: Cursor)
      returns (end: FollowEnd, nodes: seq<GlyphNode>, queued: seq<Envelope>,
               ghost turns: seq<real>, ghost states: seq<FollowState>, ghost rejected: Envelope)
      requires ValidPath(a.path) && OnPath(a.path, cursor)
      ensures FollowRun(a, cursor, end, nodes, queued, turns, states, rejected)
      ensures end == Blocked ==> !Free(detector.boxes, rejected)
      ensures forall e :: e in queued ==> Free(detector.boxes, e)
    {
      var n := |a.chars|;
      var s := FollowStart(cursor);
      nodes, queued, turns, states, rejected := [], [], [], [s], Envelope(0.0, 0.0, 0.0, 0.0);
      end := Placed;
      var i := 0;
      while i < n
        invariant i <= n && |turns| == |queued| == |nodes| == i && |states| == i + 1 && end == Placed
        invariant states[0] == FollowStart(cursor) && states[i] == s && OnPath(a.path, s.cursor)
        invariant forall j :: 0 <= j < i ==> GlyphPlaced(a, j, states[j], turns[j], queued[j], nodes[j], states[j + 1])
        invariant forall e :: e in queued ==> Free(detector.boxes, e)
      {
        var ci := a.chars[Visit(a.orientation, n, i)];
        var r := Advance(a, ci.width, s);
        turns := turns + [r.turn];
        if a.maxDelta > 0.0 && Abs(r.turn) > a.maxDelta {
          end := TurnTooSharp;
          return;
        }
        var g := PoseAt(a, ci, i == 0, r);
        if !detector.HasPlacement(g.box) {
          end, rejected := Blocked, g.box;
          return;
        }
        var node := RenderedNode(a.trig, ci, a.text.stringHeight, a.orientation, g, a.start.x, a.start.y);
        var next := AfterGlyph(r.at, g);
        PlacedExtend(a, states, turns[..i], queued, nodes, r.turn, g.box, node, next);
        assert turns == turns[..i] + [r.turn];
        queued := queued + [g.box];
        nodes := nodes + [node];
        s := next;
        states := states + [s];
        i := i + 1;
      }
    }

    /**
     * Lays the text along the line from the point at `target`: finds the
     * start segment and the orientation there, places the characters along
     * the line, pushes the boxes of the glyphs placed onto the queue, and
     * on success appends the path to the placements.
     */
    method BuildPathFollow(p: Placement, target: real)
      returns (ok: bool, orientation: int, end: FollowEnd, ghost a: FollowArgs, ghost cursor: Cursor,
               ghost turns: seq<real>, ghost states: seq<FollowState>, ghost queued: seq<Envelope>, ghost rejected: Envelope)
      requires p.Valid()
      modifies p`current, p`envelopes, p`placements, this`attempts
      ensures p.Valid()
      ensures ok <==> end == Placed
      ensures a == FollowArgs(trig, p.geom, p.info.chars, FollowText(p.hasDimensions, p.dimWidth, p.dimHeight, p.info.height),
                              p.maxCharAngleDelta, orientation, Point(p.current.startX, p.current.startY))
      ensures var r := FirstBeyond(p.geom.lengths, target, 0);
        && (r.Some? ==> var k := r.value;
                        && orientation == Orientation(SegmentAngle(trig, p.geom, k))
                        && Point(p.current.startX, p.current.startY) == PointAt(p.geom, target)
                        && cursor == Cursor(k + 1, Reached(p.geom, k + 1) - target, SegmentAngle(trig, p.geom, k),
                                            p.geom.pts[k], p.geom.pts[k + 1]))
        && (r.None? ==> && orientation == 0
                        && p.current.startX == old(p.current.startX) && p.current.startY == old(p.current.startY)
                        && cursor.node == |p.geom.pts| - 1 && cursor.vertex == p.geom.pts[cursor.node]
                        && cursor.angle == 0.0 && cursor.distance == TotalLength(p.geom))
      ensures FollowRun(a, cursor, end, p.current.nodes, queued, turns, states, rejected)
      ensures forall j :: 0 <= j < |turns| ==> -PI <= turns[j] <= PI
      ensures end == TurnTooSharp ==> |turns| > 0 && TooSharp(p.maxCharAngleDelta, turns[|turns| - 1])
      ensures forall j :: 0 <= j < |turns| && (end != TurnTooSharp || j < |turns| - 1) ==> !TooSharp(p.maxCharAngleDelta, turns[j])
      ensures forall j :: 0 <= j < |queued| ==> p.current.nodes[j].code == p.info.chars[Visit(orientation, |p.info.chars|, j)].code
      ensures end == Blocked ==> !Free(detector.boxes, rejected)
      ensures forall e :: e in queued ==> Free(detector.boxes, e)
      ensures p.envelopes == old(p.envelopes) + queued
      ensures p.placements == old(p.placements) + (if ok then [p.current] else [])
      ensures attempts == old(attempts) + [Attempt(Follow, target, ok, queued)]
    {
      var found, start, node, distance, angle, orientation', prev, vertex := StartSegment(trig, p.geom, target);
      orientation := orientation';
      if !found {
        start := Point(p.current.startX, p.current.startY);
      }
      var text := FollowText(p.hasDimensions, p.dimWidth, p.dimHeight, p.info.height);
      var args := FollowArgs(trig, p.geom, p.info.chars, text, p.maxCharAngleDelta, orientation, start);
      var from := Cursor(node, distance, angle, prev, vertex);
      a, cursor := args, from;
      var nodes, boxes;
      end, nodes, boxes, turns, states, rejected := PlaceAlong(args, from);
      FollowRunFacts(a, cursor, end, nodes, boxes, turns, states, rejected);
      queued := boxes;
      p.envelopes := p.envelopes + boxes;
      p.current := LabelPath(start.x, start.y, nodes);
      ok := end == Placed;
      if ok {
        p.placements := p.placements + [p.current];
      }
      attempts := attempts + [Attempt(Follow, target, ok, queued)];
    }

    /** Calls the builder of the given kind at `target`. */
    method Build(p: Placement, b: Builder, target: real) returns (ok: bool, ghost queued: seq<Envelope>)
      requires p.Valid()
      modifies p`current, p`envelopes, p`placements, p.info, this`attempts
      ensures p.Valid()
      ensures p.envelopes == old(p.envelopes) + queued
      ensures forall e :: e in queued ==> Free(detector.boxes, e)
      ensures p.placements == old(p.placements) + (if ok then [p.current] else [])
      ensures attempts == old(attempts) + [Attempt(b, target, ok, queued)]
    {
      if b == Horizontal {
        ghost var wrapAt;
        var lay;
        ok, wrapAt, lay, queued := BuildPathHorizontal(p, target);
      } else {
        var orientation, end;
        ghost var a, cursor, turns, states, rejected;
        ok, orientation, end, a, cursor, turns, states, queued, rejected := BuildPathFollow(p, target);
      }
    }

    /**
     * One attempt of a scan: clears the queue, calls the builder at
     * `target`, and on success moves the queued boxes into the detector.
     */
    method TryAt(p: Placement, b: Builder, target: real) returns (ok: bool, ghost a: Attempt)
      requires p.Valid()
      modifies detector, p`current, p`envelopes, p`placements, p.info, this`attempts
      ensures p.Valid()
      ensures a.builder == b && a.target == target && a.ok == ok
      ensures forall e :: e in a.queued ==> Free(old(detector.boxes), e)
      ensures attempts == old(attempts) + [a]
      ensures detector.boxes == old(detector.boxes) + (if ok then a.queued else [])
      ensures ok ==> p.envelopes == []
      ensures |p.placements| == |old(p.placements)| + (if ok then 1 else 0)
    {
      p.ClearEnvelopes();
      ghost var queued;
      ok, queued := Build(p, b, target);
      a := Attempt(b, target, ok, queued);
      if ok {
        UpdateDetector(p);
      }
    }

    /**
     * One step of a scan: tries the builder at center + off and, when that
     * fails, at center - off.
     */
    method TryBothSides(p: Placement, b: Builder, center: real, off: real) returns (ok: bool, ghost pair: seq<Attempt>)
      requires p.Valid()
      modifies detector, p`current, p`envelopes, p`placements, p.info, this`attempts
      ensures p.Valid()
      ensures BothSides(pair, b, center, off) && ok == Succeeded(pair)
      ensures attempts == old(attempts) + pair
      ensures detector.boxes == old(detector.boxes) + (if ok then pair[|pair| - 1].queued else [])
      ensures ok ==> p.envelopes == []
      ensures |p.placements| == |old(p.placements)| + (if ok then 1 else 0)
    {
      ghost var a;
      ok, a := TryAt(p, b, center + off);
      pair := [a];
      if !ok {
        ok, a := TryAt(p, b, center - off);
        Regroup(old(attempts), pair, [a]);
        pair := pair + [a];
      }
    }

    /** One step of the window scan: both sides of offset i, after j offsets that all failed. */
    method ScanOffset(p: Placement, b: Builder, center: real, bound: real, delta: real, i: real,
                      ghost j: nat, ghost tr: seq<Attempt>, ghost attempts0: seq<Attempt>, ghost boxes0: seq<Envelope>)
      returns (ok: bool, ghost tr': seq<Attempt>)
      requires p.Valid()
      requires ScanOrder(tr, b, center, bound, delta) && AllFailed(tr) && |tr| == 2 * j
      requires i == Offset(j, delta) && i < bound
      requires attempts == attempts0 + tr && detector.boxes == boxes0
      modifies detector, p`current, p`envelopes, p`placements, p.info, this`attempts
      ensures p.Valid()
      ensures ScanOrder(tr', b, center, bound, delta) && attempts == attempts0 + tr'
      ensures ok == Succeeded(tr')
      ensures ok ==> ScanTrace(tr', b, center, bound, delta) && detector.boxes == boxes0 + Committed(tr')
      ensures ok ==> p.envelopes == [] && |p.placements| == |old(p.placements)| + 1
      ensures !ok ==> AllFailed(tr') && |tr'| == 2 * (j + 1) && detector.boxes == boxes0
      ensures !ok ==> |p.placements| == |old(p.placements)|
    {
      ghost var pair;
      ok, pair := TryBothSides(p, b, center, i);
      ScanStep(tr, pair, b, center, bound, delta, j);
      Regroup(attempts0, tr, pair);
      tr' := tr + pair;
    }

    /**
     * Tries the builder at center + i and then center - i for i = 0, delta,
     * 2 delta, ... while i is below `bound`; the first success commits its
     * boxes to the detector and ends the scan.
     */
    method ScanWindow(p: Placement, b: Builder, center: real, bound: real, delta: real) returns (found: bool, ghost tr: seq<Attempt>)
      requires p.Valid()
      requires delta >= 0.0 && (delta > 0.0 || bound <= 0.0)
      modifies detector, p`current, p`envelopes, p`placements, p.info, this`attempts
      ensures p.Valid()
      ensures ScanTrace(tr, b, center, bound, delta)
      ensures found == Succeeded(tr)
      ensures attempts == old(attempts) + tr
      ensures detector.boxes == old(detector.boxes) + Committed(tr)
      ensures found ==> p.envelopes == []
      ensures |p.placements| == |old(p.placements)| + (if found then 1 else 0)
    {
      found, tr := false, [];
      var i := 0.0;
      ghost var j: nat := 0;
      while i < bound
        invariant p.Valid()
        invariant i == Offset(j, delta) && |tr| == 2 * j
        invariant delta == 0.0 ==> i == 0.0
        invariant ScanOrder(tr, b, center, bound, delta) && AllFailed(tr)
        invariant attempts == old(attempts) + tr
        invariant detector.boxes == old(detector.boxes)
        invariant |p.placements| == |old(p.placements)|
        decreases if delta > 0.0 then (bound / delta).Floor + 1 - j else 0
      {
        OffsetBelowBound(j, delta, bound);
        var ok;
        ok, tr := ScanOffset(p, b, center, bound, delta, i, j, tr, old(attempts), old(detector.boxes));
        if ok {
          found := true;
          return;
        }
        NextOffset(i, j, delta);
        i := i + delta;
        j := j + 1;
      }
      ScanExhausted(tr, b, center, bound, delta, j);
    }

    /**
     * Point placement. A geometry of one vertex gets a single attempt at
     * distance 0, which commits the queue as it stands (nothing clears it
     * first). Otherwise the window of offsets below half the path length,
     * in steps of a hundredth of it, is scanned around the middle.
     */
    method FindPlacementHorizontal(p: Placement) returns (found: bool, ghost tr: seq<Attempt>)
      requires p.Valid()
      modifies detector, p`totalDistance, p`current, p`envelopes, p`placements, p.info, this`attempts
      ensures p.Valid()
      ensures attempts == old(attempts) + tr
      ensures |p.placements| == |old(p.placements)| + (if found then 1 else 0)
      ensures |p.geom.pts| == 1 ==>
        && |tr| == 1 && tr[0].builder == Horizontal && tr[0].target == 0.0 && found == tr[0].ok
        && detector.boxes == old(detector.boxes) + (if found then old(p.envelopes) + tr[0].queued else [])
        && p.totalDistance == old(p.totalDistance)
      ensures |p.geom.pts| > 1 ==>
        var d := TotalLength(p.geom);
        && ScanTrace(tr, Horizontal, d / 2.0, d / 2.0, d / 100.0) && found == Succeeded(tr)
        && detector.boxes == old(detector.boxes) + Committed(tr)
        && p.totalDistance == d
    {
      if p.PathSize() == 1 {
        var ok;
        ghost var queued;
        ok, queued := Build(p, Horizontal, 0.0);
        tr := [Attempt(Horizontal, 0.0, ok, queued)];
        if ok {
          UpdateDetector(p);
          return true, tr;
        }
        return false, tr;
      }
      var distance := p.GetTotalDistance();
      var delta := distance / 100.0;
      found, tr := ScanWindow(p, Horizontal, distance / 2.0, distance / 2.0, delta);
    }

    /**
     * Line placement: gives up when the text is wider than the line;
     * otherwise spreads the labels over the line and, for each ideal label
     * distance, scans the window of offsets below the ideal spacing (the
     * line length over the number of labels) around the point half the
     * text width before it. Every candidate is scanned, whether or not an
     * earlier one found a place.
     */
    method FindPlacementFollow(p: Placement) returns (found: bool, ghost windows: seq<seq<Attempt>>)
      requires p.Valid()
      modifies detector, p`totalDistance, p`current, p`envelopes, p`placements, p.info, this`attempts
      ensures p.Valid()
      ensures attempts == old(attempts) + Flatten(windows)
      ensures detector.boxes == old(detector.boxes) + Committed(Flatten(windows))
      ensures |p.placements| == |old(p.placements)| + SuccessCount(windows)
      ensures found <==> AnySucceeded(windows)
      ensures var d, w := TotalLength(p.geom), old(p.info.width);
        && (w > d ==> windows == [])
        && (w <= d ==>
              var n := NumLabels(d, p.labelSpacing, w);
              |windows| == CandidateCount(d, n) && LabelWindows(windows, d, n, w, d / 100.0))
    {
      var width := p.info.width;
      var distance := p.GetTotalDistance();
      windows := [];
      if width > distance {
        assert attempts == old(attempts) + Flatten(windows) && detector.boxes == old(detector.boxes) + Committed(Flatten(windows));
        return false, windows;
      }
      var n := NumLabels(distance, p.labelSpacing, width);
      var candidates := IdealLabelDistances(distance, n);
      found, windows := ScanLabels(p, distance, n, width, candidates);
    }

    /** One candidate of line placement: the window scan around its ideal distance less half the text width. */
    method ScanLabel(p: Placement, distance: real, n: nat, width: real, candidate: real,
                     ghost windows: seq<seq<Attempt>>, ghost flat: seq<Attempt>,
                     ghost attempts0: seq<Attempt>, ghost boxes0: seq<Envelope>, ghost count0: nat)
      returns (ok: bool, ghost windows': seq<seq<Attempt>>, ghost flat': seq<Attempt>)
      requires p.Valid() && n >= 1 && distance >= 0.0
      requires candidate == IdealDistance(distance, n, |windows|)
      requires LabelWindows(windows, distance, n, width, distance / 100.0)
      requires flat == Flatten(windows) && attempts == attempts0 + flat
      requires detector.boxes == boxes0 + Committed(flat)
      requires |p.placements| == count0 + SuccessCount(windows)
      modifies detector, p`current, p`envelopes, p`placements, p.info, this`attempts
      ensures p.Valid()
      ensures |windows'| == |windows| + 1 && LabelWindows(windows', distance, n, width, distance / 100.0)
      ensures AnySucceeded(windows') <==> AnySucceeded(windows) || ok
      ensures flat' == Flatten(windows') && attempts == attempts0 + flat'
      ensures detector.boxes == boxes0 + Committed(flat')
      ensures |p.placements| == count0 + SuccessCount(windows')
    {
      var spacing := distance / n as real;
      var delta := distance / 100.0;
      var center := candidate - width / 2.0;
      SpacingAndStep(distance, n);
      ghost var tr;
      ok, tr := ScanWindow(p, Follow, center, spacing, delta);
      LabelWindowsStep(windows, tr, distance, n, width, center, spacing, delta);
      windows' := windows + [tr];
      flat' := flat + tr;
      Regroup(attempts0, flat, tr);
      Regroup(boxes0, Committed(flat), Committed(tr));
    }

    /**
     * The candidate loop of line placement: scans the window of offsets
     * below the ideal spacing around each ideal label distance less half
     * the text width, in steps of a hundredth of the line length.
     */
    method ScanLabels(p: Placement, distance: real, n: nat, width: real, candidates: seq<real>)
      returns (found: bool, ghost windows: seq<seq<Attempt>>)
      requires p.Valid() && n >= 1 && distance >= 0.0
      requires |candidates| == CandidateCount(distance, n)
      requires forall k :: 0 <= k < |candidates| ==> candidates[k] == IdealDistance(distance, n, k)
      modifies detector, p`current, p`envelopes, p`placements, p.info, this`attempts
      ensures p.Valid()
      ensures attempts == old(attempts) + Flatten(windows)
      ensures detector.boxes == old(detector.boxes) + Committed(Flatten(windows))
      ensures |p.placements| == |old(p.placements)| + SuccessCount(windows)
      ensures found <==> AnySucceeded(windows)
      ensures |windows| == |candidates| && LabelWindows(windows, distance, n, width, distance / 100.0)
    {
      ghost var delta := distance / 100.0;
      found, windows := false, [];
      ghost var flat: seq<Attempt> := [];
      assert attempts == old(attempts) + flat && detector.boxes == old(detector.boxes) + Committed(flat);
      var k := 0;
      while k < |candidates|
        invariant p.Valid()
        invariant k <= |candidates| && |windows| == k
        invariant LabelWindows(windows, distance, n, width, delta)
        invariant found <==> AnySucceeded(windows)
        invariant flat == Flatten(windows)
        invariant attempts == old(attempts) + flat
        invariant detector.boxes == old(detector.boxes) + Committed(flat)
        invariant |p.placements| == |old(p.placements)| + SuccessCount(windows)
      {
        var ok;
        ok, windows, flat := ScanLabel(p, distance, n, width, candidates[k], windows, flat,
                                       old(attempts), old(detector.boxes), |old(p.placements)|);
        found := found || ok;
        k := k + 1;
      }
    }

    /**
     * Dispatches on the label placement: point placement lays the text
     * horizontally, line placement along the line. `tr` is the run of
     * attempts made, and `windows` the line placement's windows.
     */
    method FindPlacements(p: Placement) returns (found: bool, ghost tr: seq<Attempt>, ghost windows: seq<seq<Attempt>>)
      requires p.Valid()
      modifies detector, p`totalDistance, p`current, p`envelopes, p`placements, p.info, this`attempts
      ensures p.Valid()
      ensures attempts == old(attempts) + tr
      ensures |p.placements| >= |old(p.placements)|
      ensures found <==> |p.placements| > |old(p.placements)|
      ensures forall k :: 0 <= k < |tr| ==> tr[k].builder == (if p.labelPlacement == PointPlacement then Horizontal else Follow)
      ensures p.labelPlacement == PointPlacement && |p.geom.pts| == 1 ==>
        && |tr| == 1 && tr[0].target == 0.0 && found == tr[0].ok
        && detector.boxes == old(detector.boxes) + (if found then old(p.envelopes) + tr[0].queued else [])
      ensures p.labelPlacement == PointPlacement && |p.geom.pts| > 1 ==>
        var d := TotalLength(p.geom);
        && ScanTrace(tr, Horizontal, d / 2.0, d / 2.0, d / 100.0) && found == Succeeded(tr)
        && detector.boxes == old(detector.boxes) + Committed(tr)
      ensures p.labelPlacement == LinePlacement ==>
        && tr == Flatten(windows) && detector.boxes == old(detector.boxes) + Committed(tr)
        && |p.placements| == |old(p.placements)| + SuccessCount(windows)
        && (found <==> AnySucceeded(windows))
        && var d, w := TotalLength(p.geom), old(p.info.width);
           && (w > d ==> windows == [])
           && (w <= d ==>
                 var n := NumLabels(d, p.labelSpacing, w);
                 |windows| == CandidateCount(d, n) && LabelWindows(windows, d, n, w, d / 100.0))
    {
      if p.labelPlacement == PointPlacement {
        found, tr := FindPlacementHorizontal(p);
        windows := [];
        if |p.geom.pts| > 1 {
          var d := TotalLength(p.geom);
          ScanUsesOneBuilder(tr, Horizontal, d / 2.0, d / 2.0, d / 100.0);
        }
      } else {
        found, windows := FindPlacementFollow(p);
        tr := Flatten(windows);
        SuccessMeansPlaced(windows);
        var d, w := TotalLength(p.geom), old(p.info.width);
        if w <= d {
          WindowsUseFollow(windows, d, NumLabels(d, p.labelSpacing, w), w, d / 100.0);
        }
      }
    }
  }
}
