/**
 * The glyphs and boxes the horizontal builder lays out: one node and one
 * box per character that is not a line break, at the offsets its line and
 * the lines above give it.
 */
module Glyphs {
  import opened Geometry
  import opened Envelopes
  import opened Collision
  import opened Text
  import opened Wrap
  import opened Layout
  import opened Placements

  /**
   * What the horizontal layout reads: the text and its lines, the block
   * height after wrapping, the start point, and the fixed label size of a
   * placement made with dimensions.
   */
  datatype HLayout = HLayout(chars: seq<CharInfo>, breaks: seq<nat>, widths: seq<real>, height: real,
                             start: Point, hasDimensions: bool, dimWidth: real, dimHeight: real)

  predicate WellFormed(lay: HLayout)
  {
    WellFormedBreaks(lay.breaks, |lay.chars|) && |lay.widths| == |lay.breaks|
  }

  /** The unrotated glyph of character i at its line offsets. */
  function HNode(lay: HLayout, i: nat): GlyphNode
    requires WellFormed(lay) && i < |lay.chars|
  {
    GlyphNode(lay.chars[i].code, GlyphX(lay.chars, lay.breaks, lay.widths, i), GlyphY(lay.chars, lay.breaks, lay.height, i), 0.0)
  }

  /**
   * The box checked for character i: the label's fixed size centred on the
   * start point, or the glyph's own width and height from its offset
   * (y grows downwards on the device).
   */
  function HBox(lay: HLayout, i: nat): Envelope
    requires WellFormed(lay) && i < |lay.chars|
  {
    var sx, sy := lay.start.x, lay.start.y;
    if lay.hasDimensions then
      Init(sx - lay.dimWidth / 2.0, sy - lay.dimHeight / 2.0, sx + lay.dimWidth / 2.0, sy + lay.dimHeight / 2.0)
    else
      var x, y := GlyphX(lay.chars, lay.breaks, lay.widths, i), GlyphY(lay.chars, lay.breaks, lay.height, i);
      Init(sx + x, sy - y, sx + x + lay.chars[i].width, sy - y - lay.chars[i].height)
  }

  /** The nodes of the characters below i that are not breaks, in order. */
  function HNodes(lay: HLayout, i: nat): seq<GlyphNode>
    requires WellFormed(lay) && i <= |lay.chars|
  {
    if i == 0 then [] else HNodes(lay, i - 1) + (if i - 1 in lay.breaks then [] else [HNode(lay, i - 1)])
  }

  /** The boxes of the characters below i that are not breaks, in order. */
  function HBoxes(lay: HLayout, i: nat): seq<Envelope>
    requires WellFormed(lay) && i <= |lay.chars|
  {
    if i == 0 then [] else HBoxes(lay, i - 1) + (if i - 1 in lay.breaks then [] else [HBox(lay, i - 1)])
  }

  /**
   * What the layout loop leaves against the committed boxes: the queued
   * boxes are the first boxes of the layout and all free; on success they
   * are all of them and the nodes are all the glyphs, otherwise the next
   * box is the one refused and the nodes run up to its glyph.
   */
  ghost predicate LaidOut(lay: HLayout, boxes: seq<Envelope>, ok: bool, queued: seq<Envelope>, nodes: seq<GlyphNode>)
    requires WellFormed(lay)
  {
    var all, allNodes := HBoxes(lay, |lay.chars|), HNodes(lay, |lay.chars|);
    && queued <= all
    && (forall e :: e in queued ==> Free(boxes, e))
    && (ok ==> queued == all && nodes == allNodes)
    && (!ok ==> |queued| < |all| && !Free(boxes, all[|queued|]))
    && (!ok ==> |queued| < |allNodes| && nodes == allNodes[..|queued| + 1])
  }

  /** The j-th node and box belong to the j-th placed character: one node and one box per non-break character. */
  lemma {:induction false} OneGlyphPerPlacedCharacter(lay: HLayout, i: nat)
    requires WellFormed(lay) && i <= |lay.chars|
    ensures |HNodes(lay, i)| == |Kept(lay.breaks, i)| == |HBoxes(lay, i)|
    ensures forall j :: 0 <= j < |HNodes(lay, i)| ==> Kept(lay.breaks, i)[j] < |lay.chars|
    ensures forall j :: 0 <= j < |HNodes(lay, i)| ==>
      HNodes(lay, i)[j] == HNode(lay, Kept(lay.breaks, i)[j]) && HBoxes(lay, i)[j] == HBox(lay, Kept(lay.breaks, i)[j])
  {
    if i > 0 {
      OneGlyphPerPlacedCharacter(lay, i - 1);
      var kept, nodes, boxes := Kept(lay.breaks, i - 1), HNodes(lay, i - 1), HBoxes(lay, i - 1);
      if i - 1 !in lay.breaks {
        var c := i - 1;
        assert Kept(lay.breaks, i) == kept + [c];
        assert HNodes(lay, i) == nodes + [HNode(lay, c)] && HBoxes(lay, i) == boxes + [HBox(lay, c)];
        forall j | 0 <= j < |nodes| + 1
          ensures (kept + [c])[j] < |lay.chars|
          ensures (nodes + [HNode(lay, c)])[j] == HNode(lay, (kept + [c])[j])
          ensures (boxes + [HBox(lay, c)])[j] == HBox(lay, (kept + [c])[j])
        {
          if j < |nodes| {
            assert (kept + [c])[j] == kept[j];
          }
        }
      }
    }
  }

  /** The characters below i yield as many nodes as boxes. */
  lemma {:induction false} SameGlyphCount(lay: HLayout, i: nat)
    requires WellFormed(lay) && i <= |lay.chars|
    ensures |HNodes(lay, i)| == |HBoxes(lay, i)|
  {
    if i > 0 {
      SameGlyphCount(lay, i - 1);
    }
  }

  /** The boxes of the characters below i are a prefix of those below m. */
  lemma {:induction false} BoxesPrefix(lay: HLayout, i: nat, m: nat)
    requires WellFormed(lay) && i <= m <= |lay.chars|
    ensures HBoxes(lay, i) <= HBoxes(lay, m)
  {
    if i < m {
      BoxesPrefix(lay, i, m - 1);
      var boxes := HBoxes(lay, m - 1);
      if m - 1 !in lay.breaks {
        assert HBoxes(lay, m) == boxes + [HBox(lay, m - 1)];
      }
    }
  }

  /** The nodes of the characters below i are a prefix of those below m. */
  lemma {:induction false} NodesPrefix(lay: HLayout, i: nat, m: nat)
    requires WellFormed(lay) && i <= m <= |lay.chars|
    ensures HNodes(lay, i) <= HNodes(lay, m)
  {
    if i < m {
      NodesPrefix(lay, i, m - 1);
      var nodes := HNodes(lay, m - 1);
      if m - 1 !in lay.breaks {
        assert HNodes(lay, m) == nodes + [HNode(lay, m - 1)];
      }
    }
  }

  /**
   * The boxes queued before a placed character i are a prefix of all the
   * boxes, the next of which is i's; the nodes up to i's are a prefix of all
   * the nodes.
   */
  lemma NextGlyph(lay: HLayout, i: nat, queued: seq<Envelope>, nodes: seq<GlyphNode>)
    requires WellFormed(lay) && i < |lay.chars| && i !in lay.breaks
    requires queued == HBoxes(lay, i) && nodes == HNodes(lay, i + 1)
    ensures queued <= HBoxes(lay, |lay.chars|)
    ensures |queued| < |HBoxes(lay, |lay.chars|)| && HBoxes(lay, |lay.chars|)[|queued|] == HBox(lay, i)
    ensures |queued| < |HNodes(lay, |lay.chars|)| && nodes == HNodes(lay, |lay.chars|)[..|queued| + 1]
  {
    BoxesStep(lay, i);
    NextBox(lay, i, queued, HBox(lay, i));
    NextNodes(lay, i, queued, nodes);
  }

  /** The box x that follows the boxes queued before character i is the next of all the boxes. */
  lemma NextBox(lay: HLayout, i: nat, queued: seq<Envelope>, x: Envelope)
    requires WellFormed(lay) && i < |lay.chars| && queued + [x] == HBoxes(lay, i + 1)
    ensures queued <= HBoxes(lay, |lay.chars|)
    ensures |queued| < |HBoxes(lay, |lay.chars|)| && HBoxes(lay, |lay.chars|)[|queued|] == x
  {
    BoxesPrefix(lay, i + 1, |lay.chars|);
    PrefixThenNext(queued, x, HBoxes(lay, i + 1), HBoxes(lay, |lay.chars|));
  }

  /** A placed character adds its box to those before it. */
  lemma BoxesStep(lay: HLayout, i: nat)
    requires WellFormed(lay) && i < |lay.chars| && i !in lay.breaks
    ensures HBoxes(lay, i + 1) == HBoxes(lay, i) + [HBox(lay, i)]
  {
  }

  /** When queued + [x] is a prefix of all, so is queued, and x comes right after it. */
  lemma PrefixThenNext<T>(queued: seq<T>, x: T, next: seq<T>, all: seq<T>)
    requires next == queued + [x] && next <= all
    ensures queued <= all && |queued| < |all| && all[|queued|] == x
  {
    assert next[|queued|] == x;
  }

  /** The nodes up to a placed character i are as many as the boxes before it, plus one. */
  lemma NextNodes(lay: HLayout, i: nat, queued: seq<Envelope>, nodes: seq<GlyphNode>)
    requires WellFormed(lay) && i < |lay.chars| && i !in lay.breaks
    requires queued == HBoxes(lay, i) && nodes == HNodes(lay, i + 1)
    ensures |queued| < |HNodes(lay, |lay.chars|)| && nodes == HNodes(lay, |lay.chars|)[..|queued| + 1]
  {
    SameGlyphCount(lay, i);
    assert |nodes| == |HNodes(lay, i)| + 1;
    NodesPrefix(lay, i + 1, |lay.chars|);
  }

  /** Without fixed dimensions every glyph box is exactly the glyph's width wide and height tall. */
  lemma GlyphBoxSize(lay: HLayout, i: nat)
    requires WellFormed(lay) && i < |lay.chars| && !lay.hasDimensions && Measured(lay.chars)
    ensures var e := HBox(lay, i); e.maxx - e.minx == lay.chars[i].width && e.maxy - e.miny == lay.chars[i].height
  {
  }

  /**
   * The pen of the layout loop at character i on line `line`: the line's
   * start and break enclose i, x is minus half the line width plus the
   * widths placed so far on it, y is below the lines above, and the line
   * height is the tallest glyph placed on the line so far.
   */
  predicate PenAt(lay: HLayout, line: nat, i: nat, x: real, y: real, lineHeight: real)
    requires WellFormed(lay)
  {
    && i <= |lay.chars| && line < |lay.breaks|
    && LineStart(lay.breaks, line) <= i <= lay.breaks[line]
    && x == -lay.widths[line] / 2.0 + SumW(lay.chars, LineStart(lay.breaks, line), i)
    && y == -lay.height / 2.0 + 1.0 - LinesAbove(lay.chars, lay.breaks, line)
    && lineHeight == MaxH(lay.chars, LineStart(lay.breaks, line), i)
  }

  /** Reaching the break of a line moves the pen to the start of the next line, one line height down; nothing is placed. */
  lemma PenAtBreak(lay: HLayout, line: nat, i: nat, x: real, y: real, lineHeight: real)
    requires WellFormed(lay) && i < |lay.chars| && PenAt(lay, line, i, x, y, lineHeight) && i == lay.breaks[line]
    ensures line + 1 < |lay.breaks|
    ensures PenAt(lay, line + 1, i + 1, -lay.widths[line + 1] / 2.0, y - lineHeight, 0.0)
    ensures HNodes(lay, i + 1) == HNodes(lay, i) && HBoxes(lay, i + 1) == HBoxes(lay, i)
  {
    var n := |lay.chars|;
    WellFormedLine(lay.breaks, n, line);
    BreaksIncreasing(lay.breaks, n, line, line + 1);
  }

  /** Inside a line the pen places character i at (x, y) and moves right by its width. */
  lemma PenInsideLine(lay: HLayout, line: nat, i: nat, x: real, y: real, lineHeight: real)
    requires WellFormed(lay) && i < |lay.chars| && PenAt(lay, line, i, x, y, lineHeight) && i != lay.breaks[line]
    ensures HNode(lay, i) == GlyphNode(lay.chars[i].code, x, y, 0.0)
    ensures GlyphX(lay.chars, lay.breaks, lay.widths, i) == x && GlyphY(lay.chars, lay.breaks, lay.height, i) == y
    ensures HNodes(lay, i + 1) == HNodes(lay, i) + [HNode(lay, i)]
    ensures HBoxes(lay, i + 1) == HBoxes(lay, i) + [HBox(lay, i)]
    ensures var sx, sy, c := lay.start.x, lay.start.y, lay.chars[i];
      HBox(lay, i) == if lay.hasDimensions
        then Init(sx - lay.dimWidth / 2.0, sy - lay.dimHeight / 2.0, sx + lay.dimWidth / 2.0, sy + lay.dimHeight / 2.0)
        else Init(sx + x, sy - y, sx + x + c.width, sy - y - c.height)
    ensures var h := lay.chars[i].height;
      PenAt(lay, line, i + 1, x + lay.chars[i].width, y, if lineHeight > h then lineHeight else h)
  {
    InsideLine(lay.breaks, |lay.chars|, i, line);
  }
}
