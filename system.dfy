/**
  * `BbSystem.placeMeasures` (packages/score/src/system.ts). Its test
  * `child.type = 'segment'` assigns instead of comparing, and the assigned
  * string is truthy: every child is relabelled "segment" and every child
  * is placed, left to right, each at the total width of those before it.
  * `PlaceSegments` is the evidently intended loop, which places only the
  * children that are segments and relabels nothing.
  */
module SystemLayout {
  import opened BoundingBoxes
  import opened Placement
  import TreeNode

  const Segment: string := "segment"

  /** The boxes after `placeMeasures` over the system's children `cs`, as written. */
  function PlaceMeasures(bs: seq<Box>, cs: seq<nat>): (r: seq<Box>)
    requires InRange(cs, |bs|)
    ensures |r| == |bs|
  {
    Packed(bs, cs, All, Horizontal).0
  }

  /** The `type`s after `placeMeasures`, as written: every child's is now "segment". */
  function Relabelled(kinds: seq<string>, cs: seq<nat>): (r: seq<string>)
    ensures |r| == |kinds|
    ensures forall k :: 0 <= k < |kinds| ==> r[k] == if k in cs then Segment else kinds[k]
  {
    seq(|kinds|, k requires 0 <= k < |kinds| => if k in cs then Segment else kinds[k])
  }

  /** The total width of the children in `cs`. */
  function Widths(bs: seq<Box>, cs: seq<nat>): real
    requires InRange(cs, |bs|)
  {
    ExtentSum(bs, cs, All, Horizontal)
  }

  /**
    * As written: each child starts at the total width of the children
    * before it, whatever its type; no box changes width or moves
    * vertically; nodes that are not children are not moved.
    */
  lemma MeasuresPlaced(bs: seq<Box>, cs: seq<nat>)
    requires InRange(cs, |bs|) && TreeNode.Distinct(cs)
    ensures var r := PlaceMeasures(bs, cs);
      (forall i :: 0 <= i < |cs| ==> r[cs[i]].x1 == Widths(bs, cs[..i])) &&
      (forall k :: 0 <= k < |bs| ==> r[k].Width() == bs[k].Width() && r[k].y1 == bs[k].y1 && r[k].y2 == bs[k].y2) &&
      (forall k :: 0 <= k < |bs| && k !in cs ==> r[k] == bs[k])
  {
    var r := PlaceMeasures(bs, cs);
    PackedStarts(bs, cs, All, Horizontal);
    PackedUntouched(bs, cs, All, Horizontal);
    PackedKeepsSizes(bs, cs, All, Horizontal);
    forall k | 0 <= k < |bs| ensures r[k].Width() == bs[k].Width() && r[k].y1 == bs[k].y1 && r[k].y2 == bs[k].y2 {
      assert Extent(r[k], Horizontal) == Extent(bs[k], Horizontal);
      assert Across(r[k], Horizontal) == Across(bs[k], Horizontal);
    }
  }

  /** As written: neighbouring children sit side by side, the first at x = 0. */
  lemma MeasuresSideBySide(bs: seq<Box>, cs: seq<nat>, i: nat)
    requires InRange(cs, |bs|) && TreeNode.Distinct(cs) && i + 1 < |cs|
    ensures var r := PlaceMeasures(bs, cs);
      r[cs[0]].x1 == 0.0 && r[cs[i + 1]].x1 == r[cs[i]].x2
  {
    SelectedTouch(bs, cs, All, Horizontal, i, i + 1);
    FirstSelectedAtZero(bs, cs, All, Horizontal, 0);
  }

  /**
    * The assignment in the test shows on a system holding a segment of
    * width 10 and then a barline: the barline is moved to x = 10 and
    * becomes a "segment".
    */
  lemma PlaceMeasuresMovesAnyChild()
    ensures var bs := [Box(0.0, 0.0, 10.0, 5.0), Box(3.0, 0.0, 4.0, 5.0)];
      var kinds := [Segment, "barline"];
      PlaceMeasures(bs, [0, 1])[1] == Box(10.0, 0.0, 11.0, 5.0) && Relabelled(kinds, [0, 1])[1] == Segment
  {
    var bs := [Box(0.0, 0.0, 10.0, 5.0), Box(3.0, 0.0, 4.0, 5.0)];
    var first := Packed(bs, [0], All, Horizontal);
    assert [0, 1][..1] == [0];
    assert first.0[0] == bs[0] && first.1 == 10.0 by {
      assert [0][..0] == [];
    }
  }

  /** The evidently intended loop: only children whose type is "segment" are placed. */
  function PlaceSegments(bs: seq<Box>, kinds: seq<string>, cs: seq<nat>): (r: seq<Box>)
    requires InRange(cs, |bs|)
    ensures |r| == |bs|
  {
    Packed(bs, cs, OfKind(kinds, Segment), Horizontal).0
  }

  /**
    * Intended: each segment starts at the total width of the segments
    * before it, consecutive segments touch, and children of other types
    * keep their boxes.
    */
  lemma SegmentsPlaced(bs: seq<Box>, kinds: seq<string>, cs: seq<nat>)
    requires InRange(cs, |bs|) && TreeNode.Distinct(cs)
    ensures var r := PlaceSegments(bs, kinds, cs);
      (forall i :: 0 <= i < |cs| && cs[i] < |kinds| && kinds[cs[i]] == Segment ==>
         r[cs[i]].x1 == ExtentSum(bs, cs[..i], OfKind(kinds, Segment), Horizontal)) &&
      (forall k :: 0 <= k < |bs| && (k !in cs || k >= |kinds| || kinds[k] != Segment) ==> r[k] == bs[k])
  {
    PackedStarts(bs, cs, OfKind(kinds, Segment), Horizontal);
    PackedUntouched(bs, cs, OfKind(kinds, Segment), Horizontal);
  }

  /** Intended: on the same system the barline keeps its box. */
  lemma PlaceSegmentsKeepsBarline()
    ensures var bs := [Box(0.0, 0.0, 10.0, 5.0), Box(3.0, 0.0, 4.0, 5.0)];
      PlaceSegments(bs, [Segment, "barline"], [0, 1])[1] == bs[1]
  {
    var bs := [Box(0.0, 0.0, 10.0, 5.0), Box(3.0, 0.0, 4.0, 5.0)];
    PackedUntouched(bs, [0, 1], OfKind([Segment, "barline"], Segment), Horizontal);
  }
}
