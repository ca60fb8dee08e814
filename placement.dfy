/**
  * The placement loop shared by `BbScore.spaceSystems` and
  * `BbSystem.placeMeasures` (packages/score/src/score.ts,
  * packages/score/src/system.ts): walk a node's children in order, and for
  * each selected child set its position along one axis to a running offset
  * (keeping its size), then add its extent along that axis to the offset.
  *
  * The boxes of all elements are one sequence indexed by node; the loop is
  * the left fold `Packed`, whose properties are proved here once for both
  * axes and any selection.
  */
module Placement {
  import opened BoundingBoxes
  import TreeNode

  /** `Horizontal` moves `x` and adds widths; `Vertical` moves `y` and adds heights. */
  datatype Axis = Horizontal | Vertical

  /** Which children the loop moves: every one, or those whose `type` is `kind`. */
  datatype Selection = All | OfKind(kinds: seq<string>, kind: string)

  predicate Selects(sel: Selection, c: nat) {
    match sel
    case All => true
    case OfKind(kinds, kind) => c < |kinds| && kinds[c] == kind
  }

  /** The box's position along the axis: `x` or `y`, which read `x1` and `y1`. */
  function Start(b: Box, axis: Axis): real {
    if axis == Horizontal then b.x1 else b.y1
  }

  /** The box's extent along the axis: `w` or `height`. */
  function Extent(b: Box, axis: Axis): real {
    if axis == Horizontal then b.Width() else b.Height()
  }

  /** The box's two edges across the axis. */
  function Across(b: Box, axis: Axis): (real, real) {
    if axis == Horizontal then (b.y1, b.y2) else (b.x1, b.x2)
  }

  /** Setting `x` or `y`: the box moves to `v` along the axis and keeps its size. */
  function Reposition(b: Box, axis: Axis, v: real): (r: Box)
    ensures Start(r, axis) == v && Extent(r, axis) == Extent(b, axis) && Across(r, axis) == Across(b, axis)
  {
    if axis == Horizontal then WithX(b, v) else WithY(b, v)
  }

  predicate InRange(cs: seq<nat>, n: nat) {
    forall i :: 0 <= i < |cs| ==> cs[i] < n
  }

  /** The sum of the original extents of the selected children in `cs`. */
  function ExtentSum(bs: seq<Box>, cs: seq<nat>, sel: Selection, axis: Axis): real
    requires InRange(cs, |bs|)
  {
    if cs == [] then 0.0
    else
      var c := cs[|cs| - 1];
      ExtentSum(bs, cs[..|cs| - 1], sel, axis) + (if Selects(sel, c) then Extent(bs[c], axis) else 0.0)
  }

  /**
    * The loop over `cs`: the boxes afterwards and the final offset, the
    * offset starting at 0.
    */
  function Packed(bs: seq<Box>, cs: seq<nat>, sel: Selection, axis: Axis): (r: (seq<Box>, real))
    requires InRange(cs, |bs|)
    ensures |r.0| == |bs|
  {
    if cs == [] then (bs, 0.0)
    else
      var prev := Packed(bs, cs[..|cs| - 1], sel, axis);
      var c := cs[|cs| - 1];
      if Selects(sel, c) then
        var moved := Reposition(prev.0[c], axis, prev.1);
        (prev.0[c := moved], prev.1 + Extent(moved, axis))
      else prev
  }

  /** No box changes its size, and nothing moves across the axis. */
  lemma {:induction false} PackedKeepsSizes(bs: seq<Box>, cs: seq<nat>, sel: Selection, axis: Axis)
    requires InRange(cs, |bs|)
    ensures var r := Packed(bs, cs, sel, axis).0;
      forall k :: 0 <= k < |bs| ==> Extent(r[k], axis) == Extent(bs[k], axis) && Across(r[k], axis) == Across(bs[k], axis)
    decreases |cs|
  {
    if cs != [] {
      PackedKeepsSizes(bs, cs[..|cs| - 1], sel, axis);
    }
  }

  /** Boxes of nodes that are not selected children are not touched. */
  lemma {:induction false} PackedUntouched(bs: seq<Box>, cs: seq<nat>, sel: Selection, axis: Axis)
    requires InRange(cs, |bs|)
    ensures var r := Packed(bs, cs, sel, axis).0;
      forall k :: 0 <= k < |bs| && (k !in cs || !Selects(sel, k)) ==> r[k] == bs[k]
    decreases |cs|
  {
    if cs != [] {
      var init := cs[..|cs| - 1];
      PackedUntouched(bs, init, sel, axis);
      assert cs == init + [cs[|cs| - 1]];
    }
  }

  /** The final offset is the total extent of the selected children. */
  lemma {:induction false} PackedTotal(bs: seq<Box>, cs: seq<nat>, sel: Selection, axis: Axis)
    requires InRange(cs, |bs|)
    ensures Packed(bs, cs, sel, axis).1 == ExtentSum(bs, cs, sel, axis)
    decreases |cs|
  {
    if cs != [] {
      var init := cs[..|cs| - 1];
      PackedTotal(bs, init, sel, axis);
      PackedKeepsSizes(bs, init, sel, axis);
    }
  }

  /**
    * With no child listed twice, each selected child starts where the
    * selected children before it end in total.
    */
  lemma {:induction false} PackedStarts(bs: seq<Box>, cs: seq<nat>, sel: Selection, axis: Axis)
    requires InRange(cs, |bs|) && TreeNode.Distinct(cs)
    ensures var r := Packed(bs, cs, sel, axis).0;
      forall i :: 0 <= i < |cs| && Selects(sel, cs[i]) ==> Start(r[cs[i]], axis) == ExtentSum(bs, cs[..i], sel, axis)
    decreases |cs|
  {
    if cs != [] {
      var init := cs[..|cs| - 1];
      var c := cs[|cs| - 1];
      PackedStarts(bs, init, sel, axis);
      PackedTotal(bs, init, sel, axis);
      var r := Packed(bs, cs, sel, axis).0;
      var prev := Packed(bs, init, sel, axis).0;
      forall i | 0 <= i < |cs| && Selects(sel, cs[i])
        ensures Start(r[cs[i]], axis) == ExtentSum(bs, cs[..i], sel, axis)
      {
        if i < |init| {
          assert cs[i] != c;
          assert r[cs[i]] == prev[cs[i]];
          assert cs[..i] == init[..i];
        } else {
          assert cs[..i] == init;
        }
      }
    }
  }

  /** Selected children strictly between positions `a` and `b` add nothing when there are none. */
  lemma {:induction false} ExtentSumSkips(bs: seq<Box>, cs: seq<nat>, sel: Selection, axis: Axis, a: nat, b: nat)
    requires InRange(cs, |bs|) && a <= b <= |cs|
    requires forall m :: a <= m < b ==> !Selects(sel, cs[m])
    ensures ExtentSum(bs, cs[..b], sel, axis) == ExtentSum(bs, cs[..a], sel, axis)
    decreases b
  {
    if a < b {
      ExtentSumSkips(bs, cs, sel, axis, a, b - 1);
      assert cs[..b][..b - 1] == cs[..b - 1];
    }
  }

  /**
    * Consecutive selected children touch: the later one starts where the
    * earlier one ends.
    */
  lemma SelectedTouch(bs: seq<Box>, cs: seq<nat>, sel: Selection, axis: Axis, i: nat, j: nat)
    requires InRange(cs, |bs|) && TreeNode.Distinct(cs)
    requires i < j < |cs| && Selects(sel, cs[i]) && Selects(sel, cs[j])
    requires forall m :: i < m < j ==> !Selects(sel, cs[m])
    ensures var r := Packed(bs, cs, sel, axis).0;
      Start(r[cs[j]], axis) == Start(r[cs[i]], axis) + Extent(r[cs[i]], axis)
  {
    PackedStarts(bs, cs, sel, axis);
    PackedKeepsSizes(bs, cs, sel, axis);
    ExtentSumSkips(bs, cs, sel, axis, i + 1, j);
    assert cs[..i + 1][..i] == cs[..i];
  }

  /** The first selected child is placed at 0. */
  lemma FirstSelectedAtZero(bs: seq<Box>, cs: seq<nat>, sel: Selection, axis: Axis, i: nat)
    requires InRange(cs, |bs|) && TreeNode.Distinct(cs)
    requires i < |cs| && Selects(sel, cs[i]) && forall m :: 0 <= m < i ==> !Selects(sel, cs[m])
    ensures Start(Packed(bs, cs, sel, axis).0[cs[i]], axis) == 0.0
  {
    PackedStarts(bs, cs, sel, axis);
    ExtentSumSkips(bs, cs, sel, axis, 0, i);
  }
}
