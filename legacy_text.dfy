/**
  * The legacy laid-out text (src/bb-text.ts): fragments and the smallest box
  * enclosing them, with no re-anchoring and no overflow.
  */
module LegacyText {
  import opened BoundingBoxes
  import opened TextFragment

  class BbText {
    var fragments: seq<Fragment>
    var bbox: Box

    /** The box is always the smallest box enclosing the fragment boxes. */
    ghost predicate Valid()
      reads this
    {
      |fragments| > 0 && bbox == SmallestBoxEnclosing(Boxes(fragments))
    }

    constructor (fragments: seq<Fragment>)
      requires |fragments| > 0
      ensures Valid() && this.fragments == fragments
    {
      this.fragments := fragments;
      bbox := SmallestBoxEnclosing(Boxes(fragments));
    }

    /** The `fragments` setter: the list is replaced and the box recomputed. */
    method SetFragments(v: seq<Fragment>)
      requires |v| > 0
      modifies this
      ensures Valid() && fragments == v
    {
      fragments := v;
      RecomputeBbox();
    }

    /**
      * `recomputeBbox`: the box depends on the fragments only, so on a valid
      * text it changes nothing.
      */
    method RecomputeBbox()
      requires |fragments| > 0
      modifies this
      ensures Valid() && fragments == old(fragments)
      ensures old(Valid()) ==> bbox == old(bbox)
    {
      bbox := SmallestBoxEnclosing(Boxes(fragments));
    }
  }
}
