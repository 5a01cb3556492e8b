# Label placement finder (mapnik, basic variant)

This project models the label-placement search of mapnik's
`placement_finder` (src/placement_finder.cpp) and proves properties of it
in Dafny. The finder takes one `placement`: the measured text (one
width, height and code per character), the geometry's shape path and the
placement options. It searches for positions where the label's glyph
boxes overlap none of the boxes the collision detector already holds. It
commits the boxes of every placement it accepts.

- **Point placement** (`find_placement_horizontal`):
  - A geometry with a single vertex gets one attempt.
  - Any other geometry is scanned from the middle of the path outwards.
    Each step tries `centre + i`, then `centre - i`, for
    `i = 0, delta, 2 delta, ...` below half the path length, where
    `delta` is a hundredth of the length.
  - Each attempt (`build_path_horizontal`) does four things:
    1. It word-wraps the text: it chooses the wrap column, then cuts
       greedily at the space where a line first overflows.
    2. It overwrites the text's dimensions.
    3. It lays the glyphs out line by line around the anchor point.
    4. It tests each glyph box against the detector.
- **Line placement** (`find_placement_follow`):
  - It gives up when the text is wider than the line.
  - Otherwise it spreads `num_labels` ideal label distances over the line.
    Around each one, less half the text width, it scans offsets below the
    ideal spacing, the line length divided by the number of labels.
  - Each attempt (`build_path_follow`) does three things:
    1. It finds the start segment and the text orientation.
    2. It walks the path glyph by glyph and rejects turns sharper than
       `max_char_angle_delta`.
    3. It tests each rotated glyph box against the detector.

On success an attempt moves its queued boxes into the detector
(`update_detector`), and the path it built joins the placements.

## How the model is built

- **Modules.** There is one module per concern:
  - `Geometry`: the shape path and the distances along it.
  - `Envelopes`: mapnik's `Envelope<double>`.
  - `Collision`: the detector.
  - `Text`: `string_info`.
  - `Wrap`: the wrap column and the greedy line breaks.
  - `Layout`: the lines and the glyph offsets.
  - `Glyphs`: the horizontal layout's glyphs and boxes.
  - `Angles`: orientation and angle normalisation.
  - `Follow`: the steps of the line-following builder.
  - `Placements`: the `placement` object.
  - `Search`: what the drivers try, as functions and predicates.
  - `Finder`: the `placement_finder` class.
- **Classes.** State that the source updates in place is held in classes:
  - `Placement`: the length cache, the envelope queue, the current path
    and the placements found.
  - `StringInfo`: the text's dimensions.
  - `Detector`: the committed boxes.
  - `PlacementFinder`: the finder.
- **Loops.** Each loop of the source is a `method` with a `while` loop and
  its invariants. It is proved against a specification function:
  `PointAt`, `TotalLength`, `GreedyLines`, `HNodes`/`HBoxes`,
  `Normalised`, `WalkTo`, `IdealDistance` or `ScanTrace`.
- **The follow builder's character loop** is proved against `FollowRun`.
  This predicate records the loop's state before each glyph: the cursor on
  the path, the pen and the last direction. Each placed glyph's turn, box,
  node and next state are the ones that two functions give:
  - `ApproachGlyph`: the walk along the path and the turn;
  - `PoseGlyph`: the glyph's pose and box.
- **The search.** Every builder call is recorded in a ghost trace of
  `Attempt`s on the finder. Each `Attempt` records the builder, the target
  distance, the outcome and the boxes queued. With this trace the drivers'
  contracts state three things:
  - which targets were tried, and in what order (`ScanTrace`,
    `LabelWindows`);
  - that a scan stops at its first success;
  - that the detector receives exactly the boxes of the successful
    attempts (`Committed`).
- **Numbers.** Doubles are modelled as `real`, and `M_PI` as the literal
  `3.141592653589793`.
  - `sqrt` is not computed. The shape path carries each segment's length,
    and `IsSegmentLength` pins that length down as the non-negative root
    of `dx*dx + dy*dy`.
  - `atan2`, `cos`, `sin` and the iterative corner fit of the follow
    builder are parameters of the finder, in the `Trig` datatype.
- **Outside the model.** The projection and view transforms, the shape
  path iterator and the geometry's label position come in as data. These
  are the `ShapePath`'s vertices and `labelAnchor`.

### Where the code differs from mapnik's documented behaviour

The model follows the code in each of these cases. The one place where
it does not is the angle normalisation of lines 370-373, listed under
"## Findings". There the follow builder uses the corrected whole-turn
step.

- **Running off the path in follow mode.** If the path ends before the
  text does, the walk simply stops at the last vertex. The attempt does
  not fail (lines 345-353).
- **Units of `max_char_angle_delta`.** It is compared with the turn in
  radians, not degrees (line 374).
- **Width of cut lines.** A cut line is recorded with its width up to and
  including the space where it first overflowed. So every cut line is
  wider than `wrap_at` (lines 552-557), not narrower. The wrapped
  `string_height` sums only the cut lines and leaves out the last line
  (line 555).
- **Features absent from this variant.** There is no displacement, label
  position tolerance, `avoid_edges`, minimum distance or odd-label bias.
  The search window is half the path length (point placement) or the ideal
  spacing, the line length divided by the number of labels (line
  placement). The step is a hundredth of the path length.
- **Offsets outside the path are tried.** The scans do not skip offsets
  that fall outside `[0, length]`.
- **No start segment.** When no segment reaches past the target, the
  follow builder keeps orientation 0 and direction 0. Its start point then
  stays that of the previous attempt.
- **Single-vertex geometry.** The horizontal attempt on a one-vertex
  geometry does not clear the envelope queue first. On success it commits
  whatever the queue already held together with its own boxes.
- **Re-wrapping.** Each horizontal attempt wraps the text starting from
  the dimensions the previous attempt stored, not from the measured ones.
- **Dead code.**
  - `line_count` is counted but never read.
  - The loop rewind `ii = last_space` never moves back, because a cut only
    happens at the space just read.
  - In `find_placements`, the final `return false` only applies to
    placement kinds that the model's `LabelPlacement` cannot hold.

## Model

| member | source | states |
|---|---|---|
| Geometry.FirstBeyond | src/placement_finder.cpp:73-95 | the segment found is the first one, from the given index on, whose far end lies past the target; None exactly when every segment ends at or before it |
| Geometry.NoSegmentBeyondIffPastEnd | src/placement_finder.cpp:63-98 | on a path with a segment, no segment is found exactly when the target is at or past the path's end, and then the position is (0, 0) |
| Geometry.PointAtLiesOnSegment | src/placement_finder.cpp:85-93 | a target inside the path lands on a segment of positive length, a fraction t in [0, 1) along it, and the interpolated point is that point of the segment |
| Geometry.SegmentLengthUnique | src/placement_finder.cpp:85 | the stored segment length is the unique non-negative square root of dx*dx + dy*dy |
| Geometry.TotalLengthNonNegative | src/placement_finder.cpp:100-129 | a path's summed length is never negative, so the -1.0 cache sentinel is never a real length |
| Geometry.ExampleLShapedPath | src/placement_finder.cpp:112-125 | the path (0,0)-(3,0)-(3,4) is valid and its total length is 7 |
| Envelopes.Init | src/placement_finder.cpp:627-631 | the box built from two corners is proper, covers both corners, and lies inside every box that covers them |
| Envelopes.ExpandToInclude | src/placement_finder.cpp:470-472 | the grown box is proper, contains the old box and the point, and lies inside every box that contains both |
| Collision.Detector.Insert | src/placement_finder.cpp:261 | the box is appended to the committed boxes, which are otherwise unchanged |
| Collision.CommittedBoxBlocksItself | src/placement_finder.cpp:475-478 | once a proper box is committed, the same box is no longer free |
| Text.StringInfo.SetDimensions | src/placement_finder.cpp:577 | the text's stored width and height become the wrapped dimensions |
| Placements.Placement.WithDimensions | src/placement_finder.cpp:43-46 | a placement with a fixed label size is point-placed, has no cached length (-1), zero options and empty queue, path and placements |
| Placements.Placement.ForText | src/placement_finder.cpp:49-52 | a text placement has the requested placement kind and no fixed size, and otherwise starts like the dimensioned one |
| Placements.Placement.PathSize | src/placement_finder.cpp:58-61 | the number of vertices is at least one and one more than the number of segments |
| Placements.Placement.GetTotalDistance | src/placement_finder.cpp:100-129 | returns the sum of the segment lengths; fills the cache only while it holds the sentinel, and afterwards returns the cached value unchanged |
| Placements.Placement.GetPositionAtDistance | src/placement_finder.cpp:63-98 | returns the point interpolated on the first segment whose far end is past the target, or (0, 0) when none is |
| Placements.Placement.ClearEnvelopes | src/placement_finder.cpp:131-135 | empties the glyph-box queue and changes nothing else |
| Wrap.WrapColumn | src/placement_finder.cpp:511-519 | the wrap column is width + 1 unless wrapping is asked for; otherwise it is wrap_width, or with a text ratio width/i for the first divisor i at which the ratio test or the wrap-width test fails; it is below the width only when wrapping is asked for |
| Wrap.LineBreaks | src/placement_finder.cpp:524-570 | the breaks are the greedy wrap: every line but the last ends at the first space where it overflows the wrap column, with its width up to that space; the last line holds the rest; the new width is the widest line and the new height the sum of the cut lines' heights |
| Wrap.LayoutLines | src/placement_finder.cpp:511-575 | either the greedy lines with their dimensions, or one line of the whole text with the dimensions unchanged; the break list always ends with the sentinel n + 1 |
| Wrap.MaxOfIsWidest | src/placement_finder.cpp:554-567 | the wrapped width is at least every line's width, never negative, and is one of them unless it is 0 |
| Wrap.LinesPartitionText | src/placement_finder.cpp:534-569 | the greedy lines' widths add up to the width of the whole text: no character is lost or counted twice |
| Wrap.CutsAtOverflowingSpaces | src/placement_finder.cpp:544-557 | every cut ends its line at a space, and that line is positive and wider than the wrap column |
| Wrap.CutWidthsSum | src/placement_finder.cpp:540-557 | the widths of the first k lines add up to the width of the text before line k |
| Wrap.CutLinesHeightNonNegative | src/placement_finder.cpp:555 | the wrapped height is never negative |
| Wrap.WellFormedLine | src/placement_finder.cpp:597-619 | each line of a well-formed break list lies within the text |
| Layout.BreaksIncreasing | src/placement_finder.cpp:611-613 | break indices strictly increase towards the sentinel |
| Layout.KeptExactly | src/placement_finder.cpp:611-622 | the characters given a glyph are exactly those that are not line breaks, each once and in reading order |
| Layout.LineFrom | src/placement_finder.cpp:611-613 | the line found is the first, from the given one on, whose break is at or after the character, or the last line |
| Layout.LineOfBounds | src/placement_finder.cpp:605-619 | every character lies on the line it is assigned: after that line's start and at or before its break |
| Layout.LineOfUnique | src/placement_finder.cpp:605-619 | a character between a line's start and its break is on that line and no other |
| Layout.LinesDescend | src/placement_finder.cpp:615 | each line sits at least as low as the line before it |
| Layout.LineStartsAtHalfWidth | src/placement_finder.cpp:602-616 | the first glyph of every line is at minus half that line's width: each line is centred |
| Layout.SameLineOffsets | src/placement_finder.cpp:641 | two glyphs on one line share their y, and the later one is further right by the widths between them |
| Layout.InsideLine | src/placement_finder.cpp:611-620 | a character before its line's break is not a break and is on that line |
| Glyphs.OneGlyphPerPlacedCharacter | src/placement_finder.cpp:605-643 | the j-th node and the j-th box belong to the j-th character that is not a break: one node and one box per such character |
| Glyphs.NextGlyph | src/placement_finder.cpp:634-637 | at a rejected glyph, the boxes queued so far are a prefix of all the boxes, the next box is the rejected one, and the nodes run up to its glyph |
| Glyphs.GlyphBoxSize | src/placement_finder.cpp:631 | without a fixed size, each glyph's box is exactly the glyph's width wide and height tall |
| Glyphs.PenAtBreak | src/placement_finder.cpp:611-619 | at a break the pen moves to the start of the next line, one line height down, and nothing is placed |
| Glyphs.PenInsideLine | src/placement_finder.cpp:620-642 | inside a line the pen puts character i's glyph at its line offsets and moves right by its width, the line height rising to its height |
| Angles.Orientation | src/placement_finder.cpp:317-318 | the text runs right to left (-1) exactly when the start direction is more than a quarter turn from +x, else left to right (1) |
| Angles.Normalise | src/placement_finder.cpp:368-373 | the two loops leave the delta at the step-wise normalised value |
| Angles.StepDown | src/placement_finder.cpp:370-371 | the first loop subtracts the step exactly as many times as the delta stays above PI |
| Angles.StepUp | src/placement_finder.cpp:372-373 | the second loop adds the step exactly as many times as the delta stays below -PI |
| Angles.NormalisedInRange | src/placement_finder.cpp:369-373 | with any step up to a full turn, the loops leave the delta within [-PI, PI] |
| Angles.FullTurnKeepsDirection | src/placement_finder.cpp:368-373 | with full-turn steps the normalised turn is in [-PI, PI] and differs from the raw difference by whole turns |
| Angles.HalfTurnStepMisjudgesTurn | src/placement_finder.cpp:368-375 | a 0.9 PI change of direction is reported as 0.1 PI by the half-turn steps, which is not the same direction modulo a full turn, and passes a 0.5 radian limit that the full-turn steps enforce |
| Follow.VisitIsPermutation | src/placement_finder.cpp:335 | in either orientation every character is read exactly once; right to left, in reverse order |
| Follow.StartSegment | src/placement_finder.cpp:288-324 | finds the first segment whose far end passes the target; there the start point is the interpolated position, the angle is that segment's direction, the orientation follows from it and the distance is what remains past the start; otherwise it ends at the last vertex with angle and orientation 0 |
| Follow.Walk | src/placement_finder.cpp:342-365 | the walking loop ends at the cursor `WalkTo` gives |
| Follow.WalkToFacts | src/placement_finder.cpp:342-365 | the walk moves on at least one vertex, until more than the glyph width remains or the path is exhausted; the distance still measures from the same point; on the path the cursor holds the segment reached and its direction; a walk from the last vertex keeps the old direction |
| Follow.TurnTo | src/placement_finder.cpp:342-373 | the cursor is where the walk ends; the turn is the difference of the old and new directions, brought into [-PI, PI] by whole turns (the corrected step of the Findings row, not the half turns of lines 370-373) |
| Follow.ApproachGlyph | src/placement_finder.cpp:342-373 | when the segment has no room for the glyph, the cursor moves on past at least one vertex, to room for the glyph or the path's end; the turn is measured from the direction left behind and lies in [-PI, PI]; otherwise nothing moves and the turn is 0 |
| Follow.Advance | src/placement_finder.cpp:342-373 | the walk and turn before a glyph give the state `ApproachGlyph` gives |
| Follow.PoseGlyph | src/placement_finder.cpp:380-473 | a fixed-size box sits at the pen before the move; a glyph box covers the glyph's drawn position; without a turn the pen uses the glyph's width of the segment; after a turn that the corner fit cannot settle the pen is unchanged |
| Follow.FollowRunFacts | src/placement_finder.cpp:335-494 | in any run every turn lies in [-PI, PI], the run stops at the first too-sharp turn and at no other, and the nodes carry the characters in reading order |
| Follow.RenderedNode | src/placement_finder.cpp:482-491 | the node keeps the character code, is relative to the start point with y flipped, and turns half a turn for right-to-left text |
| Search.ScanStep | src/placement_finder.cpp:194-211 | trying both sides of the next offset after failures continues the scan order; a success ends the scan and commits only its own boxes |
| Search.ScanExhausted | src/placement_finder.cpp:236-252 | a scan that failed at every offset below the bound is complete and commits nothing |
| Search.OffsetIsProduct | src/placement_finder.cpp:236 | adding delta j times reaches j times delta |
| Search.OffsetBelowBound | src/placement_finder.cpp:236 | while the offset is below the bound, its index is below bound/delta, so the scan ends |
| Search.ScanCoversWindow | src/placement_finder.cpp:236-251 | a scan that found nothing tried centre + j delta and then centre - j delta for every j with j delta below the bound |
| Search.ScanStopsAtFirstSuccess | src/placement_finder.cpp:240-250 | only the last attempt of a scan can succeed, so a successful scan succeeded exactly once |
| Search.ScanCommitsOnlyItsSuccess | src/placement_finder.cpp:240-250 | a scan commits exactly the queued boxes of its successful attempt, or nothing |
| Search.CommittedConcat | src/placement_finder.cpp:191-212 | the boxes committed by consecutive runs of attempts are those of the first followed by those of the second |
| Search.LabelWindowAt | src/placement_finder.cpp:191-211 | the k-th window of line placement is the scan around the k-th ideal label distance less half the text width |
| Search.LabelWindowsStep | src/placement_finder.cpp:191-212 | adding a candidate's scan extends the windows, the attempts, the committed boxes, the success count and whether any window succeeded |
| Search.ScanUsesOneBuilder | src/placement_finder.cpp:236-251 | every attempt of a scan is made by the scan's builder |
| Search.WindowsUseFollow | src/placement_finder.cpp:191-211 | every attempt of line placement is made by the follow builder |
| Search.SuccessMeansPlaced | src/placement_finder.cpp:199-217 | placements were added exactly when some window succeeded |
| Search.NumLabelsFill | src/placement_finder.cpp:178-182 | with a spacing and room for a label, n labels and spacings fit the line and n + 1 would not |
| Search.OneLabelWhenNoRoom | src/placement_finder.cpp:178-182 | without a spacing, or without room for one label and its spacing, a line gets one label |
| Search.IdealDistanceIsProduct | src/placement_finder.cpp:184-187 | the k-th ideal label distance is k + 1/2 spacings |
| Search.IdealDistanceBelowEnd | src/placement_finder.cpp:186 | a candidate lies before the line's end exactly when it is one of the first n |
| Search.IdealDistancesInside | src/placement_finder.cpp:184-187 | the candidates lie strictly inside the line, in increasing order |
| Search.IdealLabelDistances | src/placement_finder.cpp:184-187 | the loop yields n candidates on a line of positive length and none otherwise, the k-th at k + 1/2 spacings and before the end |
| Search.OneLabelOnShortLine | src/placement_finder.cpp:178-199 | a 100-long line with spacing 50 and a 20-wide string gets one label at 50, first tried at 40 |
| Finder.PlacementFinder.constructor | src/placement_finder.cpp:139-142 | a new finder has an empty detector and has made no attempts |
| Finder.PlacementFinder.UpdateDetector | src/placement_finder.cpp:255-265 | the detector receives the queued boxes, oldest first, and the queue is left empty |
| Finder.PlacementFinder.NextLine | src/placement_finder.cpp:611-619 | at a break the pen moves to the next line's start and nothing is placed |
| Finder.PlacementFinder.PlaceGlyph | src/placement_finder.cpp:620-642 | appends character i's glyph at its offsets, returns its box and moves the pen on |
| Finder.PlacementFinder.PlaceGlyphs | src/placement_finder.cpp:597-643 | on success every glyph and box of the layout is placed and queued and each box is free; on failure the queued boxes are the free prefix of all boxes, the next box is blocked, and the nodes run up to its glyph |
| Finder.PlacementFinder.WrapText | src/placement_finder.cpp:507-577 | the text is wrapped from its stored dimensions with the placement's options, and the wrapped dimensions are stored |
| Finder.PlacementFinder.BuildPathHorizontal | src/placement_finder.cpp:501-647 | wraps the text, anchors at the point at the target (line strings) or at the label position, lays out the glyphs, queues the free boxes, adds the path to the placements exactly on success, and records the attempt |
| Finder.PlacementFinder.PlaceAlong | src/placement_finder.cpp:328-494 | the run from the start cursor: glyph j is read in state j, and its turn, box, node and next state are those its walk and pose give; every placed glyph's turn is not too sharp and its box is free; the run ends after all characters, at the first too-sharp turn, or at the first glyph whose own box is not free |
| Finder.PlacementFinder.BuildPathFollow | src/placement_finder.cpp:267-498 | starts at the point at the target, with the start segment's orientation, from the cursor at that segment's far vertex (or at the last vertex when none reaches the target); the glyphs are that run's; fails exactly at a too-sharp turn or a blocked box; queues the free boxes of the glyphs placed, adds the path on success, and records the attempt |
| Finder.PlacementFinder.Build | src/placement_finder.cpp:224-247 | calls the chosen builder once: its free boxes are queued, a success adds one placement, and the attempt is recorded |
| Finder.PlacementFinder.TryAt | src/placement_finder.cpp:238-243 | clears the queue, makes one attempt, and commits its boxes to the detector exactly when it succeeds |
| Finder.PlacementFinder.TryBothSides | src/placement_finder.cpp:238-250 | tries centre + offset, and centre - offset only if the first failed; commits only the success |
| Finder.PlacementFinder.ScanOffset | src/placement_finder.cpp:236-251 | one offset of the scan, after failures only, keeps the scan order; a success completes the scan and commits its boxes |
| Finder.PlacementFinder.ScanWindow | src/placement_finder.cpp:236-251 | the attempts made are the scan of the window in order, up to the first success; the detector receives exactly that success's boxes |
| Finder.PlacementFinder.FindPlacementHorizontal | src/placement_finder.cpp:220-253 | a one-vertex geometry gets one attempt at 0 that commits the queue on success; any other geometry is scanned around the middle, within half the length, in steps of a hundredth of it, and only the success is committed |
| Finder.PlacementFinder.FindPlacementFollow | src/placement_finder.cpp:159-218 | no attempt when the text is wider than the line; otherwise one scan per ideal label distance, each window the scan below the ideal spacing around the candidate less half the width; the detector receives the boxes of the successful attempts; found exactly when some window succeeded |
| Finder.PlacementFinder.ScanLabel | src/placement_finder.cpp:194-211 | scans one candidate's window and extends the windows, attempts, committed boxes and placement count |
| Finder.PlacementFinder.ScanLabels | src/placement_finder.cpp:191-212 | one window per candidate, in order, with attempts, committed boxes and placement count accumulated; found exactly when some window succeeded |
| Finder.PlacementFinder.FindPlacements | src/placement_finder.cpp:145-157 | point placement makes the horizontal search's attempts (one at 0 on a one-vertex geometry, else the scan around the middle) and line placement the follow search's windows, every attempt with that kind's builder; the detector receives exactly the committed boxes; found exactly when placements were added |

## Left out

- Floating point is modelled as exact reals: there is no rounding, no NaN and no infinity.
  - The scans' `i += delta` is the exact `Offset`, so the drift of a repeated double addition is not modelled.
  - One exception: the divisor search's ratio test divides by the height, and a zero height is given its IEEE outcome (+infinity, or NaN for a zero width).
- `Geometry.Interpolate`: on a zero-length segment the source divides by zero and produces NaN coordinates. The model returns the segment's end point instead.
- `sqrt`, `atan2`, `cos`, `sin`, `asin` and `pow` are not computed:
  - segment lengths are given with the path and pinned down by `IsSegmentLength`;
  - the angle functions are parameters in `Follow.Trig`.
- The corner fit of the follow builder (lines 389-451) is not modelled step by step. It is the parameter `Trig.cornerFit`, which returns the pen shift, the distance used, the render angle and the advance, or `None` when its search does not settle.
- `Follow.PoseGlyph`: its contract does not state the glyph's coordinates, because they come from the unmodelled trigonometric parameters. It states the box, the distance used and the render angle, and what happens when the corner fit does not settle.
- Follow.TurnTo: the turn is brought into [-PI, PI] by whole turns (2 PI), the corrected definition of the Findings row, not by the half turns (PI) of lines 370-373. When the raw difference exceeds PI in magnitude, the model's turn can differ from the source's, and so can the too-sharp test and the corner-fit test (|turn| > 0.05) that read it. The as-written step is `Angles.TurnAsWritten`.
- Follow.ApproachGlyph: measures the turn with the corrected whole-turn step, as `Follow.TurnTo` does.
- Finder.PlacementFinder.PlaceAlong: its too-sharp test and its corner-fit test read the corrected turn of `Follow.TurnTo`, not the half-turn result of lines 370-373.
- Geometry.ValidPath: the model excludes geometries with no vertices. There the source's unsigned `num_points() - 1` (line 112) wraps around, and its loops would read far past the path. The same holds for `Placements.Placement.GetTotalDistance` and every operation that requires a valid path.
- `Finder.PlacementFinder.BuildPathFollow`: the boxes of the glyphs placed are pushed onto the queue after the character loop, not one by one inside it. Nothing reads the queue in between, so the result is the same. The start point of an attempt that finds no start segment is stated only as unchanged.
- The projection and view transforms, the shape path iterator and `label_position` are not part of this model. The vertices arrive already transformed, and the geometry's label position is a field of the shape path.
- The detector's own implementation (its extent and its spatial index) is not part of this model. It is modelled as a sequence of committed boxes and accepts a box that intersects none of them.
- `Search.NumLabels`: the `static_cast<int>` of the label count is not bounded to 32 bits. The count is the exact floor.
- The `placement` destructor, the `CoordTransform`/`proj_transform` handles, and the commented-out logging are not modelled.
- `line_count` in the wrap loop is not modelled, because it is never read.
- `Finder.PlacementFinder.FindPlacements`: the final `return false` for other placement kinds is not modelled, because `LabelPlacement` has only the two kinds the source names.

## Findings

| source | as written | input that shows it | evidently intended | confidence | as-written member | corrected member |
|---|---|---|---|---|---|---|
| src/placement_finder.cpp:370-373 | the angle delta is brought into [-PI, PI] by subtracting or adding PI, a half turn, which changes the direction the delta stands for | last angle 0.55 PI, new angle -0.55 PI: the delta 1.1 PI becomes 0.1 PI instead of -0.9 PI, so a 162-degree kink passes a limit of 0.5 radians | step by 2 PI, a whole turn, so the result is the same turn modulo a full circle | not executed | Angles.HalfTurnStepMisjudgesTurn | Angles.FullTurnKeepsDirection |
