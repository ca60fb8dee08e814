/**
  * A laid-out text (packages/format/src/bb-text.ts): its fragments, its own
  * box and its overflow above the root. The box is built as the smallest
  * box enclosing the fragments and then re-anchored, so that its size
  * follows the fragments while its position is a handle the caller moves.
  */
module FormatText {
  import opened BoundingBoxes
  import opened TextFragment

  class BbText {
    var fragments: seq<Fragment>
    var bbox: Box
    var yOverflow: real

    /** The smallest box enclosing the fragment boxes. */
    function Enclosure(): Box
      reads this
      requires |fragments| > 0
    {
      SmallestBoxEnclosing(Boxes(fragments))
    }

    /**
      * What every operation keeps: the box has the size of the enclosure,
      * and the overflow is the negated top edge of the enclosure.
      */
    ghost predicate Valid()
      reads this
    {
      |fragments| > 0 &&
      bbox.Width() == Enclosure().Width() && bbox.Height() == Enclosure().Height() &&
      yOverflow == -Enclosure().y1
    }

    /** Encloses the fragments, records the overflow, then moves the box to (0, 0). */
    constructor (fragments: seq<Fragment>)
      requires |fragments| > 0
      ensures Valid()
      ensures this.fragments == fragments
      ensures bbox == Moved(Enclosure(), 0.0, 0.0)
      ensures yOverflow == -Enclosure().y1
    {
      this.fragments := fragments;
      var e := SmallestBoxEnclosing(Boxes(fragments));
      bbox := e;
      yOverflow := -e.y1;
      new;
      bbox := Moved(bbox, 0.0, 0.0);
    }

    /** `translate`: the `x` and `y` accessors of the box are each incremented. */
    method Translate(dx: real, dy: real)
      requires Valid()
      modifies this
      ensures Valid()
      ensures bbox == WithY(WithX(old(bbox), old(bbox).x1 + dx), old(bbox).y1 + dy)
      ensures bbox == Shifted(old(bbox), dx, dy)
      ensures fragments == old(fragments) && yOverflow == old(yOverflow)
    {
      bbox := WithX(bbox, bbox.x1 + dx);
      bbox := WithY(bbox, bbox.y1 + dy);
    }

    /** `move`: the `x` and `y` accessors of the box are assigned. */
    method Move(x: real, y: real)
      requires Valid()
      modifies this
      ensures Valid()
      ensures bbox == WithY(WithX(old(bbox), x), y)
      ensures bbox == Moved(old(bbox), x, y)
      ensures fragments == old(fragments) && yOverflow == old(yOverflow)
    {
      MovedIsWithXY(bbox, x, y);
      bbox := WithX(bbox, x);
      bbox := WithY(bbox, y);
    }

    /** The `fragments` setter: the list is replaced and the box recomputed. */
    method SetFragments(v: seq<Fragment>)
      requires |v| > 0
      modifies this
      ensures Valid()
      ensures fragments == v
      ensures bbox == Moved(Enclosure(), old(bbox).x1, old(bbox).y1)
      ensures yOverflow == -Enclosure().y1
    {
      fragments := v;
      RecomputeBbox();
    }

    /**
      * `recomputeBbox`: the box takes the size of the new enclosure and the
      * overflow its negated top, while the box keeps the (x, y) handle it had.
      */
    method RecomputeBbox()
      requires |fragments| > 0
      modifies this
      ensures Valid()
      ensures fragments == old(fragments)
      ensures bbox == Moved(Enclosure(), old(bbox).x1, old(bbox).y1)
      ensures yOverflow == -Enclosure().y1
    {
      var x, y := bbox.x1, bbox.y1;
      bbox := SmallestBoxEnclosing(Boxes(fragments));
      yOverflow := -bbox.y1;
      bbox := Moved(bbox, x, y);
    }
  }
}
