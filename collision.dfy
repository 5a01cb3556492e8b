/**
 * The collision detector the finder consults and feeds: a store of the
 * boxes committed so far, which accepts a box that overlaps none of them.
 */
module Collision {
  import opened Envelopes

  /** A box is free when it overlaps no committed box. */
  predicate Free(boxes: seq<Envelope>, e: Envelope)
  {
    forall b :: b in boxes ==> !Intersects(b, e)
  }

  class Detector {
    var boxes: seq<Envelope>

    constructor ()
      ensures boxes == []
    {
      boxes := [];
    }

    predicate HasPlacement(e: Envelope)
      reads this
    {
      Free(boxes, e)
    }

    method Insert(e: Envelope)
      modifies this
      ensures boxes == old(boxes) + [e]
    {
      boxes := boxes + [e];
    }
  }

  /** A box already committed blocks any later attempt to place the same box. */
  lemma CommittedBoxBlocksItself(boxes: seq<Envelope>, e: Envelope)
    requires e in boxes && Proper(e)
    ensures !Free(boxes, e)
  {
    assert Intersects(e, e);
  }
}
