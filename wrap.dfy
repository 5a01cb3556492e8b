/**
 * Word wrap of the horizontal builder: the wrap column, the greedy line
 * breaks with their widths, and the bookkeeping the glyph layout uses to
 * walk the lines (where each line starts, which line a character is on,
 * which characters are laid out).
 */
module Wrap {
  import opened Text
  import opened RealArith

  // ---------------------------------------------------------------- wrap column

  /**
   * The ratio test of the divisor search: the block width/i by height*i is
   * still wider than text_ratio. A zero height makes the quotient +infinity
   * (or NaN for a zero width, which compares false) in floating point.
   */
  predicate TooWide(width: real, height: real, i: nat, textRatio: nat)
    requires i >= 1
  {
    if height * i as real == 0.0 then width / i as real > 0.0
    else (width / i as real) / (height * i as real) > textRatio as real
  }

  /** The divisor search goes on while the block is too wide and a line is still longer than wrap_width. */
  predicate KeepDividing(width: real, height: real, i: nat, wrapWidth: nat, textRatio: nat)
    requires i >= 1
  {
    TooWide(width, height, i, textRatio) && width / i as real > wrapWidth as real
  }

  /** Wrapping is asked for: a wrap width is set and the text is wider than it. */
  predicate WantsWrap(width: real, wrapWidth: nat)
  {
    wrapWidth != 0 && width > wrapWidth as real
  }

  lemma DivisorBound(width: real, wrapWidth: nat, i: nat)
    requires wrapWidth > 0 && i >= 1 && width / i as real > wrapWidth as real
    ensures (i as real) < width / wrapWidth as real
  {
    QuotientAbove(width, i as real, wrapWidth as real);
    AboveQuotient(width, wrapWidth as real, i as real);
  }

  /**
   * The wrap column: one more than the width (no wrap) unless wrapping is
   * asked for; then wrap_width, or, with a text ratio, width/i for the
   * first divisor i at which the search stops.
   */
  method WrapColumn(width: real, height: real, wrapWidth: nat, textRatio: nat) returns (wrapAt: real, ghost divisor: nat)
    requires width >= 0.0 && height >= 0.0
    ensures !WantsWrap(width, wrapWidth) ==> wrapAt == width + 1.0
    ensures WantsWrap(width, wrapWidth) && textRatio == 0 ==> wrapAt == wrapWidth as real
    ensures WantsWrap(width, wrapWidth) && textRatio != 0 ==>
      && divisor >= 1
      && wrapAt == width / divisor as real
      && !KeepDividing(width, height, divisor, wrapWidth, textRatio)
      && forall i :: 1 <= i < divisor ==> KeepDividing(width, height, i, wrapWidth, textRatio)
    ensures wrapAt < width ==> WantsWrap(width, wrapWidth)
    ensures wrapAt > 0.0
  {
    wrapAt := width + 1.0;
    divisor := 0;
    if wrapWidth != 0 && width > wrapWidth as real {
      if textRatio != 0 {
        var i: nat := 1;
        wrapAt := width / i as real;
        while KeepDividing(width, height, i, wrapWidth, textRatio)
          invariant i >= 1
          invariant wrapAt == width / i as real
          invariant forall j :: 1 <= j < i ==> KeepDividing(width, height, j, wrapWidth, textRatio)
          decreases (width / wrapWidth as real).Floor + 1 - i
        {
          DivisorBound(width, wrapWidth, i);
          i := i + 1;
          wrapAt := width / i as real;
        }
        divisor := i;
        QuotientAtMost(width, i as real);
      } else {
        wrapAt := wrapWidth as real;
      }
    }
  }

  // ---------------------------------------------------------------- line breaks

  /** The wrap loop's test for cutting a line: it has width and is wider than the wrap column. */
  predicate Overflows(lineWidth: real, wrapAt: real)
  {
    lineWidth > 0.0 && lineWidth > wrapAt
  }

  /** First character of line k: 0, or the one after the previous break. */
  function LineStart(breaks: seq<nat>, k: nat): nat
    requires k <= |breaks|
  {
    if k == 0 then 0 else breaks[k - 1] + 1
  }

  /** Every break in `breaks` cuts a line of the n characters: it lies in its line and before the end. */
  predicate Cuts(breaks: seq<nat>, n: nat)
  {
    forall k {:trigger LineStart(breaks, k)} :: 0 <= k < |breaks| ==> LineStart(breaks, k) <= breaks[k] < n
  }

  /** The shape the layout needs: cuts, then the sentinel n + 1. */
  predicate WellFormedBreaks(breaks: seq<nat>, n: nat)
  {
    |breaks| >= 1 && breaks[|breaks| - 1] == n + 1 && Cuts(breaks[..|breaks| - 1], n)
  }

  /** No space before `to` in the line starting at `from` had already made that line overflow. */
  ghost predicate NoEarlierCut(chars: seq<CharInfo>, wrapAt: real, from: nat, to: nat)
    requires from <= to <= |chars|
  {
    forall s :: from <= s < to && chars[s].code == SPACE ==> !Overflows(SumW(chars, from, s + 1), wrapAt)
  }

  /**
   * Line k ends at a space whose fold first made the line overflow; its
   * width is that of its characters up to and including the space.
   */
  ghost predicate CutLine(chars: seq<CharInfo>, wrapAt: real, breaks: seq<nat>, widths: seq<real>, k: nat)
    requires k < |breaks| && k < |widths|
  {
    && LineStart(breaks, k) <= breaks[k] < |chars|
    && chars[breaks[k]].code == SPACE
    && widths[k] == SumW(chars, LineStart(breaks, k), breaks[k] + 1)
    && Overflows(widths[k], wrapAt)
    && NoEarlierCut(chars, wrapAt, LineStart(breaks, k), breaks[k])
  }

  /**
   * The greedy word wrap of `chars` at column wrapAt: every line but the
   * last is cut at the first space where the line overflows, the last line
   * holds the rest and never overflows at a space, and the break list ends
   * with the sentinel |chars| + 1.
   */
  ghost predicate GreedyLines(chars: seq<CharInfo>, wrapAt: real, breaks: seq<nat>, widths: seq<real>)
  {
    && |breaks| == |widths| >= 1
    && breaks[|breaks| - 1] == |chars| + 1
    && (forall k :: 0 <= k < |breaks| - 1 ==> CutLine(chars, wrapAt, breaks, widths, k))
    && LineStart(breaks, |breaks| - 1) <= |chars|
    && widths[|breaks| - 1] == SumW(chars, LineStart(breaks, |breaks| - 1), |chars|)
    && NoEarlierCut(chars, wrapAt, LineStart(breaks, |breaks| - 1), |chars|)
  }

  /** The running maximum of the line widths, starting from 0. */
  function MaxOf(ws: seq<real>): real
  {
    if ws == [] then 0.0
    else var m := MaxOf(ws[..|ws| - 1]); if m > ws[|ws| - 1] then m else ws[|ws| - 1]
  }

  /** The string width after wrapping is the widest line (or 0 when every line is empty). */
  lemma {:induction false} MaxOfIsWidest(ws: seq<real>)
    ensures MaxOf(ws) >= 0.0
    ensures forall j :: 0 <= j < |ws| ==> ws[j] <= MaxOf(ws)
    ensures MaxOf(ws) == 0.0 || MaxOf(ws) in ws
  {
    if ws != [] {
      var init := ws[..|ws| - 1];
      MaxOfIsWidest(init);
      assert ws == init + [ws[|ws| - 1]];
    }
  }

  function SumOf(ws: seq<real>): real
  {
    if ws == [] then 0.0 else SumOf(ws[..|ws| - 1]) + ws[|ws| - 1]
  }

  lemma CutsPrefix(breaks: seq<nat>, n: nat, m: nat)
    requires Cuts(breaks, n) && m <= |breaks|
    ensures Cuts(breaks[..m], n)
  {
    forall k | 0 <= k < m ensures LineStart(breaks[..m], k) <= breaks[..m][k] < n {
      assert LineStart(breaks[..m], k) == LineStart(breaks, k);
    }
  }

  /** Sum of the heights of the cut lines, each the tallest of its characters up to and including its break. */
  function CutLinesHeight(chars: seq<CharInfo>, breaks: seq<nat>): real
    requires Cuts(breaks, |chars|)
  {
    if breaks == [] then 0.0
    else
      var k := |breaks| - 1;
      assert LineStart(breaks, k) <= breaks[k] < |chars|;
      CutsPrefix(breaks, |chars|, k);
      CutLinesHeight(chars, breaks[..k]) + MaxH(chars, LineStart(breaks, k), breaks[k] + 1)
  }

  lemma CutLineCuts(chars: seq<CharInfo>, wrapAt: real, breaks: seq<nat>, widths: seq<real>)
    requires |breaks| == |widths|
    requires forall k :: 0 <= k < |breaks| ==> CutLine(chars, wrapAt, breaks, widths, k)
    ensures Cuts(breaks, |chars|)
  {
    forall k | 0 <= k < |breaks| ensures LineStart(breaks, k) <= breaks[k] < |chars| {
      assert CutLine(chars, wrapAt, breaks, widths, k);
    }
  }

  /** CutLine looks only at entry k, and at entry k - 1 through the line start. */
  lemma CutLineSameEntries(chars: seq<CharInfo>, wrapAt: real, b1: seq<nat>, w1: seq<real>, b2: seq<nat>, w2: seq<real>, k: nat)
    requires k < |b1| && k < |w1| && k < |b2| && k < |w2|
    requires b1[k] == b2[k] && w1[k] == w2[k] && LineStart(b1, k) == LineStart(b2, k)
    requires CutLine(chars, wrapAt, b1, w1, k)
    ensures CutLine(chars, wrapAt, b2, w2, k)
  {
  }

  /** Appending a line cut at b, of width w, to well-cut lines keeps them well cut. */
  lemma AppendCutLine(chars: seq<CharInfo>, wrapAt: real, breaks: seq<nat>, widths: seq<real>, b: nat, w: real)
    requires |breaks| == |widths|
    requires forall k :: 0 <= k < |breaks| ==> CutLine(chars, wrapAt, breaks, widths, k)
    requires CutLine(chars, wrapAt, breaks + [b], widths + [w], |breaks|)
    ensures forall k :: 0 <= k < |breaks| + 1 ==> CutLine(chars, wrapAt, breaks + [b], widths + [w], k)
    ensures Cuts(breaks + [b], |chars|)
  {
    var nb, nw := breaks + [b], widths + [w];
    forall k | 0 <= k < |breaks|
      ensures CutLine(chars, wrapAt, nb, nw, k)
    {
      assert LineStart(nb, k) == LineStart(breaks, k);
      CutLineSameEntries(chars, wrapAt, breaks, widths, nb, nw, k);
    }
    CutLineCuts(chars, wrapAt, nb, nw);
  }

  lemma AppendMaxOf(ws: seq<real>, w: real)
    ensures MaxOf(ws + [w]) == var m := MaxOf(ws); if m > w then m else w
  {
    assert (ws + [w])[..|ws|] == ws;
  }

  lemma AppendCuts(breaks: seq<nat>, n: nat, b: nat)
    requires Cuts(breaks, n) && LineStart(breaks, |breaks|) <= b < n
    ensures Cuts(breaks + [b], n)
  {
    var nb := breaks + [b];
    forall k | 0 <= k < |nb| ensures LineStart(nb, k) <= nb[k] < n {
      assert LineStart(nb, k) == LineStart(breaks, k);
    }
  }

  lemma AppendCutLinesHeight(chars: seq<CharInfo>, breaks: seq<nat>, b: nat)
    requires Cuts(breaks, |chars|) && LineStart(breaks, |breaks|) <= b < |chars|
    ensures Cuts(breaks + [b], |chars|)
    ensures CutLinesHeight(chars, breaks + [b]) == CutLinesHeight(chars, breaks) + MaxH(chars, LineStart(breaks, |breaks|), b + 1)
  {
    AppendCuts(breaks, |chars|, b);
    var nb := breaks + [b];
    assert nb[..|breaks|] == breaks;
    assert LineStart(nb, |breaks|) == LineStart(breaks, |breaks|);
  }

  /**
   * Cutting the current line at the space b where it overflowed keeps the
   * wrap loop's account of the cut lines: one more cut line, as wide as the
   * line, the widest and the summed heights updated.
   */
  lemma CutStep(chars: seq<CharInfo>, wrapAt: real, breaks: seq<nat>, widths: seq<real>, width: real, height: real,
                b: nat, w: real, h: real)
    requires |breaks| == |widths| && Cuts(breaks, |chars|)
    requires forall k :: 0 <= k < |breaks| ==> CutLine(chars, wrapAt, breaks, widths, k)
    requires width == MaxOf(widths) && height == CutLinesHeight(chars, breaks)
    requires LineStart(breaks, |breaks|) <= b < |chars| && chars[b].code == SPACE
    requires w == SumW(chars, LineStart(breaks, |breaks|), b + 1) && h == MaxH(chars, LineStart(breaks, |breaks|), b + 1)
    requires Overflows(w, wrapAt) && NoEarlierCut(chars, wrapAt, LineStart(breaks, |breaks|), b)
    ensures Cuts(breaks + [b], |chars|) && LineStart(breaks + [b], |breaks| + 1) == b + 1
    ensures forall k :: 0 <= k < |breaks| + 1 ==> CutLine(chars, wrapAt, breaks + [b], widths + [w], k)
    ensures (if width > w then width else w) == MaxOf(widths + [w])
    ensures height + h == CutLinesHeight(chars, breaks + [b])
  {
    var nb := breaks + [b];
    assert nb[..|breaks|] == breaks;
    assert LineStart(nb, |breaks|) == LineStart(breaks, |breaks|);
    AppendCutLine(chars, wrapAt, breaks, widths, b, w);
    AppendMaxOf(widths, w);
    AppendCutLinesHeight(chars, breaks, b);
  }

  /**
   * One character of the wrap loop before the overflow test: it joins the
   * current word, and a space folds the word (space included) into the line.
   */
  method FoldChar(chars: seq<CharInfo>, ghost ls: nat, ghost f: nat, ii: nat, lastSpace: nat,
                  lineWidth: real, lineHeight: real, wordWidth: real, wordHeight: real)
    returns (ghost f': nat, lastSpace': nat, lineWidth': real, lineHeight': real, wordWidth': real, wordHeight': real)
    requires ls <= f <= ii < |chars|
    requires lineWidth == SumW(chars, ls, f) && lineHeight == MaxH(chars, ls, f)
    requires wordWidth == SumW(chars, f, ii) && wordHeight == MaxH(chars, f, ii)
    requires f > ls ==> lastSpace == f - 1
    ensures ls <= f' <= ii + 1
    ensures lineWidth' == SumW(chars, ls, f') && lineHeight' == MaxH(chars, ls, f')
    ensures wordWidth' == SumW(chars, f', ii + 1) && wordHeight' == MaxH(chars, f', ii + 1)
    ensures f' > ls ==> lastSpace' == f' - 1
    ensures chars[ii].code == SPACE ==> f' == ii + 1 && lastSpace' == ii
    ensures chars[ii].code != SPACE ==> f' == f && lastSpace' == lastSpace && lineWidth' == lineWidth
  {
    var ci := chars[ii];
    f', lastSpace', lineWidth', lineHeight' := f, lastSpace, lineWidth, lineHeight;
    wordWidth' := wordWidth + ci.width;
    wordHeight' := if wordHeight > ci.height then wordHeight else ci.height;
    if ci.code == SPACE {
      lastSpace' := ii;
      SumWSplit(chars, ls, f, ii + 1);
      MaxHSplit(chars, ls, f, ii + 1);
      lineWidth' := lineWidth + wordWidth';
      lineHeight' := if lineHeight > wordHeight' then lineHeight else wordHeight';
      wordWidth', wordHeight' := 0.0, 0.0;
      f' := ii + 1;
    }
  }

  /** A line that did not overflow at character `to` has no earlier cut up to and including it. */
  lemma NoEarlierCutStep(chars: seq<CharInfo>, wrapAt: real, from: nat, to: nat)
    requires from <= to < |chars| && NoEarlierCut(chars, wrapAt, from, to)
    requires chars[to].code == SPACE ==> !Overflows(SumW(chars, from, to + 1), wrapAt)
    ensures NoEarlierCut(chars, wrapAt, from, to + 1)
  {
  }

  /**
   * The wrap loop: scans the characters once, folding each word into the
   * line at the space that ends it and cutting the line there as soon as
   * it overflows the wrap column. Returns the break indices and line
   * widths, the widest line, and the summed height of the cut lines.
   */
  method LineBreaks(chars: seq<CharInfo>, wrapAt: real) returns (breaks: seq<nat>, widths: seq<real>, width: real, height: real)
    requires Measured(chars)
    ensures GreedyLines(chars, wrapAt, breaks, widths)
    ensures Cuts(breaks[..|breaks| - 1], |chars|)
    ensures width == MaxOf(widths)
    ensures height == CutLinesHeight(chars, breaks[..|breaks| - 1])
  {
    var lastSpace: nat := 0;
    width, height := 0.0, 0.0;
    var lineWidth, lineHeight, wordWidth, wordHeight := 0.0, 0.0, 0.0, 0.0;
    breaks, widths := [], [];
    var ii: nat := 0;
    ghost var ls: nat := 0;  // first character of the current line
    ghost var f: nat := 0;   // end of the words already folded into the line
    while ii < |chars|
      invariant ls <= f <= ii <= |chars|
      invariant |breaks| == |widths|
      invariant ls == LineStart(breaks, |breaks|)
      invariant forall k :: 0 <= k < |breaks| ==> CutLine(chars, wrapAt, breaks, widths, k)
      invariant Cuts(breaks, |chars|)
      invariant lineWidth == SumW(chars, ls, f) && lineHeight == MaxH(chars, ls, f)
      invariant wordWidth == SumW(chars, f, ii) && wordHeight == MaxH(chars, f, ii)
      invariant f > ls ==> lastSpace == f - 1
      invariant NoEarlierCut(chars, wrapAt, ls, ii)
      invariant !Overflows(lineWidth, wrapAt)
      invariant width == MaxOf(widths)
      invariant height == CutLinesHeight(chars, breaks)
      decreases |chars| - ii
    {
      f, lastSpace, lineWidth, lineHeight, wordWidth, wordHeight :=
        FoldChar(chars, ls, f, ii, lastSpace, lineWidth, lineHeight, wordWidth, wordHeight);
      if lineWidth > 0.0 && lineWidth > wrapAt {
        assert lastSpace == ii;
        CutStep(chars, wrapAt, breaks, widths, width, height, lastSpace, lineWidth, lineHeight);
        width := if width > lineWidth then width else lineWidth;
        height := height + lineHeight;
        breaks := breaks + [lastSpace];
        widths := widths + [lineWidth];
        ii := lastSpace;
        lineWidth, lineHeight, wordWidth, wordHeight := 0.0, 0.0, 0.0, 0.0;
        ls := ii + 1;
        f := ii + 1;
      } else {
        NoEarlierCutStep(chars, wrapAt, ls, ii);
      }
      ii := ii + 1;
    }
    SumWSplit(chars, ls, f, |chars|);
    lineWidth := lineWidth + wordWidth;
    width := if width > lineWidth then width else lineWidth;
    ghost var cuts := breaks;
    ghost var cutWidths := widths;
    breaks := breaks + [|chars| + 1];
    widths := widths + [lineWidth];
    assert breaks[..|breaks| - 1] == cuts;
    assert widths[..|widths| - 1] == cutWidths;
    forall k | 0 <= k < |cuts|
      ensures CutLine(chars, wrapAt, breaks, widths, k)
    {
      assert CutLine(chars, wrapAt, cuts, cutWidths, k);
      assert LineStart(breaks, k) == LineStart(cuts, k);
    }
  }

  lemma {:induction false} CutLinesHeightNonNegative(chars: seq<CharInfo>, breaks: seq<nat>)
    requires Cuts(breaks, |chars|)
    ensures CutLinesHeight(chars, breaks) >= 0.0
    decreases |breaks|
  {
    if breaks != [] {
      var k := |breaks| - 1;
      assert LineStart(breaks, k) <= breaks[k] < |chars|;
      CutsPrefix(breaks, |chars|, k);
      CutLinesHeightNonNegative(chars, breaks[..k]);
      MaxHNonNegative(chars, LineStart(breaks, k), breaks[k] + 1);
    }
  }

  /** Line k of a well-formed break list lies within the text; the last line starts at or before its end. */
  lemma WellFormedLine(breaks: seq<nat>, n: nat, k: nat)
    requires WellFormedBreaks(breaks, n) && k < |breaks|
    ensures k < |breaks| - 1 ==> LineStart(breaks, k) <= breaks[k] < n
    ensures LineStart(breaks, k) <= n
  {
    var last := |breaks| - 1;
    var cuts := breaks[..last];
    if k < last {
      assert LineStart(cuts, k) == LineStart(breaks, k);
      assert LineStart(cuts, k) <= cuts[k] < n;
    } else if k > 0 {
      assert LineStart(cuts, k - 1) == LineStart(breaks, k - 1);
      assert LineStart(cuts, k - 1) <= cuts[k - 1] < n;
    }
  }

  /** Cut lines followed by the sentinel make a well-formed break list. */
  lemma CutsThenSentinel(cuts: seq<nat>, n: nat)
    requires Cuts(cuts, n)
    ensures WellFormedBreaks(cuts + [n + 1], n)
  {
    assert (cuts + [n + 1])[..|cuts|] == cuts;
  }

  /**
   * What the wrap step of the horizontal builder yields for text of the
   * given dimensions: the wrap column; then either the greedy lines, with
   * the widest line and the summed height of the cut lines as the new
   * dimensions, or a single line holding the whole text with the
   * dimensions left as they were. Either way the break list is well formed
   * and has a width per line.
   */
  ghost predicate WrapResult(chars: seq<CharInfo>, width: real, height: real, wrapWidth: nat, textRatio: nat,
                             wrapAt: real, breaks: seq<nat>, widths: seq<real>, newWidth: real, newHeight: real)
  {
    && (!WantsWrap(width, wrapWidth) ==> wrapAt == width + 1.0)
    && (wrapAt < width ==> WantsWrap(width, wrapWidth))
    && WellFormedBreaks(breaks, |chars|) && |widths| == |breaks|
    && (wrapAt < width && |chars| > 0 ==>
         && GreedyLines(chars, wrapAt, breaks, widths)
         && newWidth == MaxOf(widths)
         && newHeight == CutLinesHeight(chars, breaks[..|breaks| - 1]))
    && (!(wrapAt < width && |chars| > 0) ==>
         breaks == [|chars| + 1] && widths == [width] && newWidth == width && newHeight == height)
    && newWidth >= 0.0 && newHeight >= 0.0
  }

  /** The wrap decision and line breaking of the horizontal builder. */
  method LayoutLines(chars: seq<CharInfo>, width: real, height: real, wrapWidth: nat, textRatio: nat)
    returns (wrapAt: real, breaks: seq<nat>, widths: seq<real>, newWidth: real, newHeight: real)
    requires Measured(chars) && width >= 0.0 && height >= 0.0
    ensures WrapResult(chars, width, height, wrapWidth, textRatio, wrapAt, breaks, widths, newWidth, newHeight)
  {
    ghost var divisor;
    wrapAt, divisor := WrapColumn(width, height, wrapWidth, textRatio);
    if wrapAt < width && |chars| > 0 {
      breaks, widths, newWidth, newHeight := LineBreaks(chars, wrapAt);
      assert breaks == breaks[..|breaks| - 1] + [|chars| + 1];
      CutsThenSentinel(breaks[..|breaks| - 1], |chars|);
      CutLinesHeightNonNegative(chars, breaks[..|breaks| - 1]);
      MaxOfIsWidest(widths);
    } else {
      breaks, widths := [|chars| + 1], [width];
      newWidth, newHeight := width, height;
      CutsThenSentinel([], |chars|);
    }
  }

  /** The widths of the first k lines add up to the width of the text before line k. */
  lemma {:induction false} CutWidthsSum(chars: seq<CharInfo>, wrapAt: real, breaks: seq<nat>, widths: seq<real>, k: nat)
    requires |breaks| == |widths| && k < |breaks|
    requires forall j :: 0 <= j < k ==> CutLine(chars, wrapAt, breaks, widths, j)
    ensures LineStart(breaks, k) <= |chars|
    ensures SumOf(widths[..k]) == SumW(chars, 0, LineStart(breaks, k))
  {
    if k > 0 {
      CutWidthsSum(chars, wrapAt, breaks, widths, k - 1);
      assert CutLine(chars, wrapAt, breaks, widths, k - 1);
      assert widths[..k][..k - 1] == widths[..k - 1];
      SumWSplit(chars, 0, LineStart(breaks, k - 1), LineStart(breaks, k));
    }
  }

  /** The greedy lines partition the text: their widths add up to the width of the whole string. */
  lemma LinesPartitionText(chars: seq<CharInfo>, wrapAt: real, breaks: seq<nat>, widths: seq<real>)
    requires GreedyLines(chars, wrapAt, breaks, widths)
    ensures SumOf(widths) == SumW(chars, 0, |chars|)
  {
    var last := |breaks| - 1;
    CutWidthsSum(chars, wrapAt, breaks, widths, last);
    assert widths == widths[..last] + [widths[last]];
    SumWSplit(chars, 0, LineStart(breaks, last), |chars|);
  }

  /** Every cut of the greedy wrap ends its line at a space, and that line is wider than the wrap column. */
  lemma CutsAtOverflowingSpaces(chars: seq<CharInfo>, wrapAt: real, breaks: seq<nat>, widths: seq<real>, k: nat)
    requires GreedyLines(chars, wrapAt, breaks, widths) && k < |breaks| - 1
    ensures breaks[k] < |chars| && chars[breaks[k]].code == SPACE
    ensures widths[k] > wrapAt && widths[k] > 0.0
  {
    assert CutLine(chars, wrapAt, breaks, widths, k);
  }
}
