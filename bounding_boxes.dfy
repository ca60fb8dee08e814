/**
  * Axis-aligned rectangles (src/bounding-boxes.ts).
  *
  * A `Box` is the value of a rectangle: its two corners. The class
  * `BoundingBox` is the mutable object of the source, whose setters keep
  * the corners ordered (x1 <= x2, y1 <= y2) by swapping on assignment.
  * Each in-place operation of the class is specified by a value function
  * on `Box` (the `With...`, `Moved` and `Shifted` functions), and the pure
  * operations of the source (`fromHW`, `containsPoint`, `intersects`,
  * `intersection`, `union`) are functions on `Box`.
  *
  * The source names its two combining formulas the opposite way to their
  * usual meaning: `intersection` returns the enclosing box and `union` the
  * overlap. The functions keep the source's names; the lemmas about them
  * are named by what they compute.
  */
module BoundingBoxes {

  function Min(a: real, b: real): real { if a <= b then a else b }

  function Max(a: real, b: real): real { if a <= b then b else a }

  function Abs(a: real): real { if a < 0.0 then -a else a }

  /** The two corners of a rectangle. */
  datatype Box = Box(x1: real, y1: real, x2: real, y2: real) {

    /** The invariant every `BoundingBox` keeps. */
    predicate Ordered() { x1 <= x2 && y1 <= y2 }

    function Width(): real { x2 - x1 }

    function Height(): real { y2 - y1 }
  }

  /** `outer` covers `inner` on both axes. */
  predicate Encloses(outer: Box, inner: Box) {
    outer.x1 <= inner.x1 && inner.x2 <= outer.x2 &&
    outer.y1 <= inner.y1 && inner.y2 <= outer.y2
  }

  /** What `orderX` does to the corners: swap the x's when x1 > x2. */
  function SortX(b: Box): (r: Box)
    ensures r.x1 == Min(b.x1, b.x2) && r.x2 == Max(b.x1, b.x2)
    ensures r.y1 == b.y1 && r.y2 == b.y2
  {
    if b.x1 > b.x2 then b.(x1 := b.x2, x2 := b.x1) else b
  }

  /** What `orderY` does to the corners: swap the y's when y1 > y2. */
  function SortY(b: Box): (r: Box)
    ensures r.y1 == Min(b.y1, b.y2) && r.y2 == Max(b.y1, b.y2)
    ensures r.x1 == b.x1 && r.x2 == b.x2
  {
    if b.y1 > b.y2 then b.(y1 := b.y2, y2 := b.y1) else b
  }

  /**
    * The box built by `new BoundingBox(x1, y1, x2, y2)`: the corners are
    * reordered, so the result is ordered whatever the arguments.
    */
  function Make(x1: real, y1: real, x2: real, y2: real): (r: Box)
    ensures r.Ordered()
    ensures r.x1 == Min(x1, x2) && r.x2 == Max(x1, x2)
    ensures r.y1 == Min(y1, y2) && r.y2 == Max(y1, y2)
    ensures r.Width() == Abs(x2 - x1) && r.Height() == Abs(y2 - y1)
  {
    SortY(SortX(Box(x1, y1, x2, y2)))
  }

  /**
    * `BoundingBox.fromHW(h, w, x, y)`: corners (x, y) and (x + w, y + h),
    * reordered when the width or height is negative.
    */
  function FromHW(height: real, width: real, x1: real := 0.0, y1: real := 0.0): (r: Box)
    ensures r.Ordered()
    ensures r.Width() == Abs(width) && r.Height() == Abs(height)
    ensures width >= 0.0 ==> r.x1 == x1 && r.x2 == x1 + width
    ensures width < 0.0 ==> r.x1 == x1 + width && r.x2 == x1
    ensures height >= 0.0 ==> r.y1 == y1 && r.y2 == y1 + height
    ensures height < 0.0 ==> r.y1 == y1 + height && r.y2 == y1
  {
    Make(x1, y1, x1 + width, y1 + height)
  }

  function Between(x: real, x1: real, x2: real): bool {
    x >= x1 && x <= x2
  }

  /** `containsPoint`: the closed rectangle contains (x, y). */
  function ContainsPoint(b: Box, x: real, y: real): bool {
    Between(x, b.x1, b.x2) && Between(y, b.y1, b.y2)
  }

  /** `intersects`: not strictly separated on either axis. */
  function Intersects(a: Box, b: Box): bool {
    !(a.x1 > b.x2 || a.x2 < b.x1 || a.y1 > b.y2 || a.y2 < b.y1)
  }

  /**
    * The formula the source calls `intersection`: min of the first corners,
    * max of the second ones. For ordered inputs this is the smallest box
    * enclosing both.
    */
  function Intersection(a: Box, b: Box): (r: Box)
    ensures r.Ordered()
    ensures a.Ordered() && b.Ordered() ==>
      r == Box(Min(a.x1, b.x1), Min(a.y1, b.y1), Max(a.x2, b.x2), Max(a.y2, b.y2)) &&
      Encloses(r, a) && Encloses(r, b)
  {
    Make(Min(a.x1, b.x1), Min(a.y1, b.y1), Max(a.x2, b.x2), Max(a.y2, b.y2))
  }

  /**
    * The formula the source calls `union`: max of the first corners, min of
    * the second ones, reordered by the constructor. For intersecting ordered
    * inputs this is their common region, inside both.
    */
  function Union(a: Box, b: Box): (r: Box)
    ensures r.Ordered()
    ensures a.Ordered() && b.Ordered() && Intersects(a, b) ==>
      r == Box(Max(a.x1, b.x1), Max(a.y1, b.y1), Min(a.x2, b.x2), Min(a.y2, b.y2)) &&
      Encloses(a, r) && Encloses(b, r)
  {
    Make(Max(a.x1, b.x1), Max(a.y1, b.y1), Min(a.x2, b.x2), Min(a.y2, b.y2))
  }

  /** `move(x, y)`: the top-left corner goes to (x, y), the size is kept. */
  function Moved(b: Box, x: real, y: real): (r: Box)
    ensures r.x1 == x && r.y1 == y
    ensures r.Width() == b.Width() && r.Height() == b.Height()
    ensures b.Ordered() ==> r.Ordered()
  {
    var h := b.Height();
    var w := b.Width();
    Box(x, y, x + w, y + h)
  }

  /** `offset(dx, dy)`: all four corners are translated. */
  function Shifted(b: Box, dx: real, dy: real): (r: Box)
    ensures r.x1 == b.x1 + dx && r.y1 == b.y1 + dy
    ensures r.Width() == b.Width() && r.Height() == b.Height()
    ensures b.Ordered() ==> r.Ordered()
  {
    Box(b.x1 + dx, b.y1 + dy, b.x2 + dx, b.y2 + dy)
  }

  /** Assigning `x1`: the x's are swapped when the new x1 passes x2. */
  function WithX1(b: Box, v: real): (r: Box)
    requires b.Ordered()
    ensures r.Ordered() && r.y1 == b.y1 && r.y2 == b.y2
    ensures v <= b.x2 ==> r.x1 == v && r.x2 == b.x2
    ensures v > b.x2 ==> r.x1 == b.x2 && r.x2 == v
  {
    SortX(b.(x1 := v))
  }

  /** Assigning `x2`: the x's are swapped when the new x2 passes x1. */
  function WithX2(b: Box, v: real): (r: Box)
    requires b.Ordered()
    ensures r.Ordered() && r.y1 == b.y1 && r.y2 == b.y2
    ensures v >= b.x1 ==> r.x1 == b.x1 && r.x2 == v
    ensures v < b.x1 ==> r.x1 == v && r.x2 == b.x1
  {
    SortX(b.(x2 := v))
  }

  /** Assigning `y1`: the y's are swapped when the new y1 passes y2. */
  function WithY1(b: Box, v: real): (r: Box)
    requires b.Ordered()
    ensures r.Ordered() && r.x1 == b.x1 && r.x2 == b.x2
    ensures v <= b.y2 ==> r.y1 == v && r.y2 == b.y2
    ensures v > b.y2 ==> r.y1 == b.y2 && r.y2 == v
  {
    SortY(b.(y1 := v))
  }

  /** Assigning `y2`: the y's are swapped when the new y2 passes y1. */
  function WithY2(b: Box, v: real): (r: Box)
    requires b.Ordered()
    ensures r.Ordered() && r.x1 == b.x1 && r.x2 == b.x2
    ensures v >= b.y1 ==> r.y1 == b.y1 && r.y2 == v
    ensures v < b.y1 ==> r.y1 == v && r.y2 == b.y1
  {
    SortY(b.(y2 := v))
  }

  /**
    * Assigning `width`: x2 is set to x1 + v through the x2 setter, then the
    * x's are ordered once more. A negative width flips the box to the left
    * of the old x1.
    */
  function WithWidth(b: Box, v: real): (r: Box)
    requires b.Ordered()
    ensures r.Ordered() && r.y1 == b.y1 && r.y2 == b.y2
    ensures r.Width() == Abs(v)
    ensures v >= 0.0 ==> r.x1 == b.x1 && r.x2 == b.x1 + v
    ensures v < 0.0 ==> r.x1 == b.x1 + v && r.x2 == b.x1
  {
    SortX(WithX2(b, b.x1 + v))
  }

  /** Assigning `height`, symmetric to `WithWidth`. */
  function WithHeight(b: Box, v: real): (r: Box)
    requires b.Ordered()
    ensures r.Ordered() && r.x1 == b.x1 && r.x2 == b.x2
    ensures r.Height() == Abs(v)
    ensures v >= 0.0 ==> r.y1 == b.y1 && r.y2 == b.y1 + v
    ensures v < 0.0 ==> r.y1 == b.y1 + v && r.y2 == b.y1
  {
    SortY(WithY2(b, b.y1 + v))
  }

  /**
    * Assigning the `x` accessor of the box API that the other packages
    * import: the box is repositioned so that x1 = v, keeping its width.
    */
  function WithX(b: Box, v: real): (r: Box)
    ensures r.x1 == v && r.Width() == b.Width()
    ensures r.y1 == b.y1 && r.y2 == b.y2
    ensures b.Ordered() ==> r.Ordered()
  {
    b.(x1 := v, x2 := v + b.Width())
  }

  /** Assigning the `y` accessor: y1 = v, keeping the height. */
  function WithY(b: Box, v: real): (r: Box)
    ensures r.y1 == v && r.Height() == b.Height()
    ensures r.x1 == b.x1 && r.x2 == b.x2
    ensures b.Ordered() ==> r.Ordered()
  {
    b.(y1 := v, y2 := v + b.Height())
  }

  /**
    * `smallestBoxEnclosing` (also called `sme2` in the tests): the
    * enclosing formula folded from the left over a non-empty list, seeded
    * with the first box rather than with an origin box.
    */
  function SmallestBoxEnclosing(bs: seq<Box>): (r: Box)
    requires |bs| > 0
    ensures (forall i :: 0 <= i < |bs| ==> bs[i].Ordered()) ==>
      r.Ordered() &&
      (forall i :: 0 <= i < |bs| ==> Encloses(r, bs[i])) &&
      (exists i :: 0 <= i < |bs| && r.x1 == bs[i].x1) &&
      (exists i :: 0 <= i < |bs| && r.y1 == bs[i].y1) &&
      (exists i :: 0 <= i < |bs| && r.x2 == bs[i].x2) &&
      (exists i :: 0 <= i < |bs| && r.y2 == bs[i].y2)
  {
    if |bs| == 1 then bs[0]
    else
      var r := Intersection(SmallestBoxEnclosing(bs[..|bs| - 1]), bs[|bs| - 1]);
      assert (forall i :: 0 <= i < |bs| ==> bs[i].Ordered()) ==>
        forall i :: 0 <= i < |bs| - 1 ==> bs[..|bs| - 1][i] == bs[i];
      r
  }

  // ----- Properties -----

  /** A point lies in a box exactly when the degenerate box at it touches the box. */
  lemma ContainsPointIffTouches(b: Box, x: real, y: real)
    ensures ContainsPoint(b, x, y) <==> Intersects(b, Box(x, y, x, y))
  {
  }

  /** Every corner of an ordered box is inside it: the edges are inclusive. */
  lemma CornersContained(b: Box)
    requires b.Ordered()
    ensures ContainsPoint(b, b.x1, b.y1) && ContainsPoint(b, b.x2, b.y1)
    ensures ContainsPoint(b, b.x1, b.y2) && ContainsPoint(b, b.x2, b.y2)
  {
  }

  /**
    * Two ordered boxes intersect exactly when some point lies in both;
    * boxes that only touch along an edge or at a corner intersect.
    */
  lemma IntersectsIffCommonPoint(a: Box, b: Box)
    requires a.Ordered() && b.Ordered()
    ensures Intersects(a, b) <==>
      exists x, y :: ContainsPoint(a, x, y) && ContainsPoint(b, x, y)
  {
    if Intersects(a, b) {
      var x, y := Max(a.x1, b.x1), Max(a.y1, b.y1);
      assert ContainsPoint(a, x, y) && ContainsPoint(b, x, y);
    }
  }

  /** `intersects` is symmetric. */
  lemma IntersectsSymmetric(a: Box, b: Box)
    ensures Intersects(a, b) == Intersects(b, a)
  {
  }

  /**
    * The `intersection` formula is the least enclosing box: a box encloses
    * both inputs exactly when it encloses their `intersection`.
    */
  lemma IntersectionIsLeastEnclosing(a: Box, b: Box, c: Box)
    requires a.Ordered() && b.Ordered()
    ensures Encloses(c, a) && Encloses(c, b) <==> Encloses(c, Intersection(a, b))
  {
  }

  /** The `intersection` formula is commutative and, on ordered boxes, associative. */
  lemma IntersectionCommutesAssociates(a: Box, b: Box, c: Box)
    requires a.Ordered() && b.Ordered() && c.Ordered()
    ensures Intersection(a, b) == Intersection(b, a)
    ensures Intersection(Intersection(a, b), c) == Intersection(a, Intersection(b, c))
  {
  }

  /**
    * On intersecting ordered boxes the `union` formula is exactly their
    * common region: a point is in it if and only if it is in both boxes.
    */
  lemma UnionIsCommonRegion(a: Box, b: Box, x: real, y: real)
    requires a.Ordered() && b.Ordered() && Intersects(a, b)
    ensures ContainsPoint(Union(a, b), x, y) <==> ContainsPoint(a, x, y) && ContainsPoint(b, x, y)
  {
  }

  /** The `union` formula never grows past the `intersection` formula. */
  lemma UnionInsideIntersection(a: Box, b: Box)
    requires a.Ordered() && b.Ordered()
    ensures Encloses(Intersection(a, b), Union(a, b))
  {
  }

  /** `offset` is `move` to the shifted corner, and shifting back undoes it. */
  lemma ShiftedIsMoved(b: Box, dx: real, dy: real)
    ensures Shifted(b, dx, dy) == Moved(b, b.x1 + dx, b.y1 + dy)
    ensures Shifted(Shifted(b, dx, dy), -dx, -dy) == b
  {
  }

  /** `move(x, y)` is the same as assigning the `x` and then the `y` accessor. */
  lemma MovedIsWithXY(b: Box, x: real, y: real)
    ensures Moved(b, x, y) == WithY(WithX(b, x), y)
  {
  }

  /**
    * The smallest enclosing box is the least box enclosing every input: a
    * box encloses all of them exactly when it encloses the fold.
    */
  lemma {:induction false} SmallestBoxIsLeast(bs: seq<Box>, c: Box)
    requires |bs| > 0
    requires forall i :: 0 <= i < |bs| ==> bs[i].Ordered()
    ensures Encloses(c, SmallestBoxEnclosing(bs)) <==> forall i :: 0 <= i < |bs| ==> Encloses(c, bs[i])
  {
    if |bs| > 1 {
      var init := bs[..|bs| - 1];
      assert forall i :: 0 <= i < |init| ==> init[i] == bs[i];
      SmallestBoxIsLeast(init, c);
      IntersectionIsLeastEnclosing(SmallestBoxEnclosing(init), bs[|bs| - 1], c);
      if forall i :: 0 <= i < |init| ==> Encloses(c, init[i]) {
        assert forall i :: 0 <= i < |bs| - 1 ==> Encloses(c, bs[i]);
      }
    }
  }

  /** A box enclosing every box of `bs` encloses every box of `cs` when `cs` holds only boxes of `bs`. */
  lemma EnclosesAllOf(p: Box, bs: seq<Box>, cs: seq<Box>)
    requires forall i :: 0 <= i < |bs| ==> Encloses(p, bs[i])
    requires forall b :: b in cs ==> b in bs
    ensures forall i :: 0 <= i < |cs| ==> Encloses(p, cs[i])
  {
    forall i | 0 <= i < |cs| ensures Encloses(p, cs[i]) {
      assert cs[i] in bs;
    }
  }

  /**
    * The fold does not depend on the order of the boxes: two lists holding
    * the same boxes have the same smallest enclosing box.
    */
  lemma SmallestBoxOrderFree(bs: seq<Box>, cs: seq<Box>)
    requires |bs| > 0 && multiset(bs) == multiset(cs)
    requires forall i :: 0 <= i < |bs| ==> bs[i].Ordered()
    ensures SmallestBoxEnclosing(bs) == SmallestBoxEnclosing(cs)
  {
    forall b | b in cs ensures b in bs {
      assert b in multiset(cs);
    }
    forall b | b in bs ensures b in cs {
      assert b in multiset(bs);
    }
    assert |cs| == |bs| by {
      assert |multiset(cs)| == |multiset(bs)|;
    }
    forall i | 0 <= i < |cs| ensures cs[i].Ordered() {
      assert cs[i] in bs;
    }
    var p, q := SmallestBoxEnclosing(bs), SmallestBoxEnclosing(cs);
    EnclosesAllOf(p, bs, cs);
    EnclosesAllOf(q, cs, bs);
    SmallestBoxIsLeast(cs, p);
    SmallestBoxIsLeast(bs, q);
  }

  /** The examples of the tests for `sme2`. */
  lemma SmallestBoxExamples()
    ensures SmallestBoxEnclosing([Box(0.0, 0.0, 100.0, 100.0), Box(50.0, 50.0, 200.0, 130.0), Box(-50.0, 10.0, 22.0, 29.0)])
      == Box(-50.0, 0.0, 200.0, 130.0)
    ensures SmallestBoxEnclosing([Box(-100.0, 0.0, 100.0, 100.0), Box(50.0, -50.0, 200.0, 130.0), Box(-50.0, 10.0, 220.0, 290.0)])
      == Box(-100.0, -50.0, 220.0, 290.0)
    ensures SmallestBoxEnclosing([Make(-100.0, 0.0, 100.0, -100.0), Box(50.0, 50.0, 200.0, 130.0), Box(-50.0, 10.0, 22.0, 29.0)])
      == Box(-100.0, -100.0, 200.0, 130.0)
  {
    var bs := [Box(0.0, 0.0, 100.0, 100.0), Box(50.0, 50.0, 200.0, 130.0), Box(-50.0, 10.0, 22.0, 29.0)];
    assert bs[..2][..1] == [bs[0]];
    assert SmallestBoxEnclosing(bs[..2]) == Box(0.0, 0.0, 200.0, 130.0);
    var cs := [Box(-100.0, 0.0, 100.0, 100.0), Box(50.0, -50.0, 200.0, 130.0), Box(-50.0, 10.0, 220.0, 290.0)];
    assert cs[..2][..1] == [cs[0]];
    assert SmallestBoxEnclosing(cs[..2]) == Box(-100.0, -50.0, 200.0, 130.0);
    // The first box of the third row is given bottom edge first; the constructor orders it.
    var first := Make(-100.0, 0.0, 100.0, -100.0);
    assert first == Box(-100.0, -100.0, 100.0, 0.0);
    var ds := [first, Box(50.0, 50.0, 200.0, 130.0), Box(-50.0, 10.0, 22.0, 29.0)];
    assert ds[..2][..1] == [ds[0]];
    assert SmallestBoxEnclosing(ds[..2]) == Box(-100.0, -100.0, 200.0, 130.0);
  }

  /**
    * The mutable rectangle of the source. Every setter leaves the corners
    * ordered; `Value()` is the rectangle it currently holds.
    */
  class BoundingBox {
    var x1: real
    var y1: real
    var x2: real
    var y2: real

    ghost predicate Valid()
      reads this
    {
      x1 <= x2 && y1 <= y2
    }

    function Value(): Box
      reads this
    {
      Box(x1, y1, x2, y2)
    }

    function Width(): real
      reads this
    {
      x2 - x1
    }

    function Height(): real
      reads this
    {
      y2 - y1
    }

    constructor (x1: real, y1: real, x2: real, y2: real)
      ensures Valid() && Value() == Make(x1, y1, x2, y2)
    {
      this.x1 := x1;
      this.y1 := y1;
      this.x2 := x2;
      this.y2 := y2;
      new;
      Order();
    }

    method Order()
      modifies this
      ensures Value() == SortY(SortX(old(Value())))
    {
      OrderX();
      OrderY();
    }

    /**
      * The source swaps through the public setters; the nested `orderX`
      * calls those setters make see ordered values and do nothing.
      */
    method OrderX()
      modifies this
      ensures Value() == SortX(old(Value()))
    {
      if x1 > x2 {
        x1, x2 := x2, x1;
      }
    }

    method OrderY()
      modifies this
      ensures Value() == SortY(old(Value()))
    {
      if y1 > y2 {
        y1, y2 := y2, y1;
      }
    }

    method SetX1(v: real)
      requires Valid()
      modifies this
      ensures Valid() && Value() == WithX1(old(Value()), v)
    {
      x1 := v;
      OrderX();
    }

    method SetY1(v: real)
      requires Valid()
      modifies this
      ensures Valid() && Value() == WithY1(old(Value()), v)
    {
      y1 := v;
      OrderY();
    }

    method SetX2(v: real)
      requires Valid()
      modifies this
      ensures Valid() && Value() == WithX2(old(Value()), v)
    {
      x2 := v;
      OrderX();
    }

    method SetY2(v: real)
      requires Valid()
      modifies this
      ensures Valid() && Value() == WithY2(old(Value()), v)
    {
      y2 := v;
      OrderY();
    }

    method SetWidth(v: real)
      requires Valid()
      modifies this
      ensures Valid() && Value() == WithWidth(old(Value()), v)
    {
      SetX2(x1 + v);
      OrderX();
    }

    method SetHeight(v: real)
      requires Valid()
      modifies this
      ensures Valid() && Value() == WithHeight(old(Value()), v)
    {
      SetY2(y1 + v);
      OrderY();
    }

    /** The `w` alias of the imported box API. */
    method SetW(v: real)
      requires Valid()
      modifies this
      ensures Valid() && Value() == WithWidth(old(Value()), v)
    {
      SetWidth(v);
    }

    /** The `h` alias of the imported box API. */
    method SetH(v: real)
      requires Valid()
      modifies this
      ensures Valid() && Value() == WithHeight(old(Value()), v)
    {
      SetHeight(v);
    }

    /** The `x` accessor of the imported box API. */
    method SetX(v: real)
      requires Valid()
      modifies this
      ensures Valid() && Value() == WithX(old(Value()), v)
    {
      var w := x2 - x1;
      x1, x2 := v, v + w;
    }

    /** The `y` accessor of the imported box API. */
    method SetY(v: real)
      requires Valid()
      modifies this
      ensures Valid() && Value() == WithY(old(Value()), v)
    {
      var h := y2 - y1;
      y1, y2 := v, v + h;
    }

    method Move(x: real, y: real)
      requires Valid()
      modifies this
      ensures Valid() && Value() == Moved(old(Value()), x, y)
    {
      var h := Height();
      var w := Width();
      x1 := x;
      y1 := y;
      x2 := x + w;
      y2 := y + h;
    }

    method Offset(dx: real, dy: real)
      requires Valid()
      modifies this
      ensures Valid() && Value() == Shifted(old(Value()), dx, dy)
    {
      x1 := x1 + dx;
      x2 := x2 + dx;
      y1 := y1 + dy;
      y2 := y2 + dy;
    }
  }
}
