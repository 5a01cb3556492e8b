/**
 * Measured text (mapnik's string_info): per-character metrics in reading
 * order plus the aggregate dimensions the horizontal builder overwrites.
 */
module Text {

  datatype CharInfo = CharInfo(code: int, width: real, height: real)

  /** The character code of a space, where the word wrap may cut a line. */
  const SPACE: int := 32

  /** Glyph metrics are never negative. */
  predicate Measured(chars: seq<CharInfo>)
  {
    forall i :: 0 <= i < |chars| ==> chars[i].width >= 0.0 && chars[i].height >= 0.0
  }

  class StringInfo {
    const chars: seq<CharInfo>
    var width: real
    var height: real

    ghost predicate Valid()
      reads this
    {
      Measured(chars) && width >= 0.0 && height >= 0.0
    }

    constructor (chars: seq<CharInfo>, width: real, height: real)
      requires Measured(chars) && width >= 0.0 && height >= 0.0
      ensures Valid()
      ensures this.chars == chars && this.width == width && this.height == height
    {
      this.chars := chars;
      this.width := width;
      this.height := height;
    }

    method SetDimensions(w: real, h: real)
      modifies this
      ensures width == w && height == h
    {
      width := w;
      height := h;
    }
  }

  /** Total width of chars[a..b). */
  function SumW(chars: seq<CharInfo>, a: nat, b: nat): real
    requires a <= b <= |chars|
    decreases b - a
  {
    if a == b then 0.0 else SumW(chars, a, b - 1) + chars[b - 1].width
  }

  /** Tallest height among chars[a..b); 0 for none. */
  function MaxH(chars: seq<CharInfo>, a: nat, b: nat): real
    requires a <= b <= |chars|
    decreases b - a
  {
    if a == b then 0.0
    else var m := MaxH(chars, a, b - 1); if m > chars[b - 1].height then m else chars[b - 1].height
  }

  lemma {:induction false} SumWSplit(chars: seq<CharInfo>, a: nat, m: nat, b: nat)
    requires a <= m <= b <= |chars|
    ensures SumW(chars, a, m) + SumW(chars, m, b) == SumW(chars, a, b)
    decreases b - m
  {
    if m < b {
      SumWSplit(chars, a, m, b - 1);
    }
  }

  lemma {:induction false} MaxHSplit(chars: seq<CharInfo>, a: nat, m: nat, b: nat)
    requires a <= m <= b <= |chars|
    ensures var l, r := MaxH(chars, a, m), MaxH(chars, m, b);
      MaxH(chars, a, b) == if l > r then l else r
    decreases b - m
  {
    if m < b {
      MaxHSplit(chars, a, m, b - 1);
    } else {
      MaxHNonNegative(chars, a, m);
    }
  }

  lemma {:induction false} SumWNonNegative(chars: seq<CharInfo>, a: nat, b: nat)
    requires Measured(chars) && a <= b <= |chars|
    ensures SumW(chars, a, b) >= 0.0
    decreases b - a
  {
    if a < b {
      SumWNonNegative(chars, a, b - 1);
    }
  }

  lemma {:induction false} MaxHNonNegative(chars: seq<CharInfo>, a: nat, b: nat)
    requires a <= b <= |chars|
    ensures MaxH(chars, a, b) >= 0.0
    decreases b - a
  {
    if a < b {
      MaxHNonNegative(chars, a, b - 1);
    }
  }
}
