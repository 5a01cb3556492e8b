/**
 * Axis-aligned label boxes (mapnik's Envelope<double>): built from two
 * corners, grown to include a point, and checked for overlap.
 */
module Envelopes {

  datatype Envelope = Envelope(minx: real, miny: real, maxx: real, maxy: real)

  function Min(a: real, b: real): real { if a < b then a else b }
  function Max(a: real, b: real): real { if a < b then b else a }

  predicate Covers(e: Envelope, x: real, y: real)
  {
    e.minx <= x <= e.maxx && e.miny <= y <= e.maxy
  }

  predicate Proper(e: Envelope)
  {
    e.minx <= e.maxx && e.miny <= e.maxy
  }

  /** Every point e covers, f covers too. */
  predicate Within(e: Envelope, f: Envelope)
  {
    f.minx <= e.minx && e.maxx <= f.maxx && f.miny <= e.miny && e.maxy <= f.maxy
  }

  /** Envelope::init: the smallest box with both corners, in whichever order they come. */
  function Init(x0: real, y0: real, x1: real, y1: real): (e: Envelope)
    ensures Proper(e)
    ensures Covers(e, x0, y0) && Covers(e, x1, y1)
    ensures forall f :: Covers(f, x0, y0) && Covers(f, x1, y1) ==> Within(e, f)
  {
    Envelope(Min(x0, x1), Min(y0, y1), Max(x0, x1), Max(y0, y1))
  }

  /** Envelope::expand_to_include: the smallest box holding e and the point. */
  function ExpandToInclude(e: Envelope, x: real, y: real): (r: Envelope)
    requires Proper(e)
    ensures Proper(r) && Within(e, r) && Covers(r, x, y)
    ensures forall f :: Within(e, f) && Covers(f, x, y) ==> Within(r, f)
  {
    Envelope(Min(e.minx, x), Min(e.miny, y), Max(e.maxx, x), Max(e.maxy, y))
  }

  /** Two boxes overlap (touching edges included). */
  predicate Intersects(a: Envelope, b: Envelope)
  {
    a.minx <= b.maxx && b.minx <= a.maxx && a.miny <= b.maxy && b.miny <= a.maxy
  }
}
