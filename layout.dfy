/**
 * Bookkeeping of the horizontal glyph layout over a well-formed break
 * list: which characters get a glyph, which line a character is on, how
 * far down that line sits, and the glyph offsets that follow from them.
 */
module Layout {
  import opened Text
  import opened Wrap

  /** Break indices strictly increase, the sentinel last. */
  lemma {:induction false} BreaksIncreasing(breaks: seq<nat>, n: nat, j: nat, k: nat)
    requires WellFormedBreaks(breaks, n) && j < k < |breaks|
    ensures breaks[j] < breaks[k]
    decreases k - j
  {
    WellFormedLine(breaks, n, k - 1);
    if k < |breaks| - 1 {
      WellFormedLine(breaks, n, k);
    }
    if j < k - 1 {
      BreaksIncreasing(breaks, n, j, k - 1);
    }
  }

  /** The characters below i that the layout places: every index that is not a break, in order. */
  function Kept(breaks: seq<nat>, i: nat): seq<nat>
  {
    if i == 0 then [] else Kept(breaks, i - 1) + (if i - 1 in breaks then [] else [i - 1])
  }

  /** Each character below i that is not a break is placed exactly once, and in reading order. */
  lemma {:induction false} KeptExactly(breaks: seq<nat>, i: nat)
    ensures forall c: nat :: c in Kept(breaks, i) <==> c < i && c !in breaks
    ensures forall a, b :: 0 <= a < b < |Kept(breaks, i)| ==> Kept(breaks, i)[a] < Kept(breaks, i)[b]
  {
    if i > 0 {
      var prev := Kept(breaks, i - 1);
      KeptExactly(breaks, i - 1);
      if i - 1 in breaks {
        assert Kept(breaks, i) == prev;
      } else {
        var cur := prev + [i - 1];
        assert Kept(breaks, i) == cur;
        forall c: nat ensures c in cur <==> c < i && c !in breaks {
          assert c in cur <==> c in prev || c == i - 1;
        }
        forall a, b | 0 <= a < b < |cur| ensures cur[a] < cur[b] {
          if b == |prev| {
            assert cur[a] == prev[a] && prev[a] in prev;
          }
        }
      }
    }
  }

  /** The first line, from line k on, whose break is at or after i (the last line when none is). */
  function LineFrom(breaks: seq<nat>, i: nat, k: nat): (r: nat)
    requires k < |breaks|
    ensures k <= r < |breaks|
    ensures r == |breaks| - 1 || i <= breaks[r]
    ensures forall j :: k <= j < r ==> breaks[j] < i
    decreases |breaks| - k
  {
    if k == |breaks| - 1 || i <= breaks[k] then k else LineFrom(breaks, i, k + 1)
  }

  /** The line the layout is on when it reaches character i. */
  function LineOf(breaks: seq<nat>, i: nat): nat
    requires |breaks| >= 1
  {
    LineFrom(breaks, i, 0)
  }

  /** Character i of the text lies on line LineOf(i): after that line's start, at or before its break. */
  lemma LineOfBounds(breaks: seq<nat>, n: nat, i: nat)
    requires WellFormedBreaks(breaks, n) && i < n
    ensures LineOf(breaks, i) < |breaks|
    ensures LineStart(breaks, LineOf(breaks, i)) <= i <= breaks[LineOf(breaks, i)]
  {
    var l := LineOf(breaks, i);
    if l > 0 {
      assert breaks[l - 1] < i;
    }
  }

  /** A character between a line's start and its break is on that line and no other. */
  lemma LineOfUnique(breaks: seq<nat>, n: nat, i: nat, l: nat)
    requires WellFormedBreaks(breaks, n) && l < |breaks|
    requires LineStart(breaks, l) <= i <= breaks[l]
    ensures LineOf(breaks, i) == l
  {
    var r := LineOf(breaks, i);
    if r < l - 1 {
      BreaksIncreasing(breaks, n, r, l - 1);
    }
  }

  /** How far down line l sits: the summed heights of the lines above it, each its tallest placed glyph. */
  function LinesAbove(chars: seq<CharInfo>, breaks: seq<nat>, l: nat): real
    requires WellFormedBreaks(breaks, |chars|) && l < |breaks|
  {
    if l == 0 then 0.0
    else
      WellFormedLine(breaks, |chars|, l - 1);
      LinesAbove(chars, breaks, l - 1) + MaxH(chars, LineStart(breaks, l - 1), breaks[l - 1])
  }

  /** Each line sits at least as low as the one before it. */
  lemma LinesDescend(chars: seq<CharInfo>, breaks: seq<nat>, l: nat)
    requires WellFormedBreaks(breaks, |chars|) && 0 < l < |breaks|
    ensures LinesAbove(chars, breaks, l - 1) <= LinesAbove(chars, breaks, l)
  {
    WellFormedLine(breaks, |chars|, l - 1);
    MaxHNonNegative(chars, LineStart(breaks, l - 1), breaks[l - 1]);
  }

  /** Horizontal offset of character i: its line starts at minus half the line width, then the widths before it. */
  function GlyphX(chars: seq<CharInfo>, breaks: seq<nat>, widths: seq<real>, i: nat): real
    requires WellFormedBreaks(breaks, |chars|) && |widths| == |breaks| && i < |chars|
  {
    LineOfBounds(breaks, |chars|, i);
    var l := LineOf(breaks, i);
    -widths[l] / 2.0 + SumW(chars, LineStart(breaks, l), i)
  }

  /** Vertical offset of character i: one below the top of the block, less the lines above its own. */
  function GlyphY(chars: seq<CharInfo>, breaks: seq<nat>, height: real, i: nat): real
    requires WellFormedBreaks(breaks, |chars|) && i < |chars|
  {
    LineOfBounds(breaks, |chars|, i);
    -height / 2.0 + 1.0 - LinesAbove(chars, breaks, LineOf(breaks, i))
  }

  /** The first character of every line is placed at minus half that line's width. */
  lemma LineStartsAtHalfWidth(chars: seq<CharInfo>, breaks: seq<nat>, widths: seq<real>, l: nat)
    requires WellFormedBreaks(breaks, |chars|) && |widths| == |breaks| && l < |breaks|
    requires LineStart(breaks, l) < |chars|
    ensures GlyphX(chars, breaks, widths, LineStart(breaks, l)) == -widths[l] / 2.0
  {
    var i := LineStart(breaks, l);
    if l < |breaks| - 1 {
      WellFormedLine(breaks, |chars|, l);
    }
    LineOfUnique(breaks, |chars|, i, l);
  }

  /** Two glyphs on the same line sit at the same height, the later one further right by the widths between them. */
  lemma SameLineOffsets(chars: seq<CharInfo>, breaks: seq<nat>, widths: seq<real>, height: real, i: nat, j: nat)
    requires WellFormedBreaks(breaks, |chars|) && |widths| == |breaks| && i <= j < |chars|
    requires LineOf(breaks, i) == LineOf(breaks, j)
    ensures GlyphY(chars, breaks, height, i) == GlyphY(chars, breaks, height, j)
    ensures GlyphX(chars, breaks, widths, j) == GlyphX(chars, breaks, widths, i) + SumW(chars, i, j)
  {
    LineOfBounds(breaks, |chars|, i);
    SumWSplit(chars, LineStart(breaks, LineOf(breaks, i)), i, j);
  }

  /** A character strictly inside a line, before its break, is not a break and is on that line. */
  lemma InsideLine(breaks: seq<nat>, n: nat, i: nat, l: nat)
    requires WellFormedBreaks(breaks, n) && l < |breaks|
    requires LineStart(breaks, l) <= i < breaks[l]
    ensures i !in breaks && LineOf(breaks, i) == l
  {
    LineOfUnique(breaks, n, i, l);
    forall j | 0 <= j < |breaks| ensures breaks[j] != i {
      if j < l - 1 {
        BreaksIncreasing(breaks, n, j, l - 1);
      } else if j > l {
        BreaksIncreasing(breaks, n, l, j);
      }
    }
  }
}
