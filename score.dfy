/**
  * `BbScore.spaceSystems` (packages/score/src/score.ts): the score's
  * children of type "system" are stacked from the top, each moved to the
  * total height of the systems before it; other children stay put.
  */
module Score {
  import opened BoundingBoxes
  import opened Placement
  import TreeNode

  const System: string := "system"

  function Systems(kinds: seq<string>): Selection {
    OfKind(kinds, System)
  }

  /** The boxes after `spaceSystems` over the score's children `cs`. */
  function SpaceSystems(bs: seq<Box>, kinds: seq<string>, cs: seq<nat>): (r: seq<Box>)
    requires InRange(cs, |bs|)
    ensures |r| == |bs|
  {
    Packed(bs, cs, Systems(kinds), Vertical).0
  }

  /** The total height of the systems among `cs`. */
  function SystemHeights(bs: seq<Box>, kinds: seq<string>, cs: seq<nat>): real
    requires InRange(cs, |bs|)
  {
    ExtentSum(bs, cs, Systems(kinds), Vertical)
  }

  /**
    * Each system's top is the total height of the systems listed before it;
    * no box changes its height or moves sideways; children that are not
    * systems and nodes that are not children are not moved.
    */
  lemma SystemsStacked(bs: seq<Box>, kinds: seq<string>, cs: seq<nat>)
    requires InRange(cs, |bs|) && TreeNode.Distinct(cs)
    ensures var r := SpaceSystems(bs, kinds, cs);
      (forall i :: 0 <= i < |cs| && cs[i] < |kinds| && kinds[cs[i]] == System ==>
         r[cs[i]].y1 == SystemHeights(bs, kinds, cs[..i])) &&
      (forall k :: 0 <= k < |bs| ==> r[k].Height() == bs[k].Height() && r[k].x1 == bs[k].x1 && r[k].x2 == bs[k].x2) &&
      (forall k :: 0 <= k < |bs| && (k !in cs || k >= |kinds| || kinds[k] != System) ==> r[k] == bs[k])
  {
    var r := SpaceSystems(bs, kinds, cs);
    PackedStarts(bs, cs, Systems(kinds), Vertical);
    PackedUntouched(bs, cs, Systems(kinds), Vertical);
    PackedKeepsSizes(bs, cs, Systems(kinds), Vertical);
    forall k | 0 <= k < |bs| ensures r[k].Height() == bs[k].Height() && r[k].x1 == bs[k].x1 && r[k].x2 == bs[k].x2 {
      assert Extent(r[k], Vertical) == Extent(bs[k], Vertical);
      assert Across(r[k], Vertical) == Across(bs[k], Vertical);
    }
  }

  /** Consecutive systems touch: each one's top is the previous one's bottom. */
  lemma SystemsTouch(bs: seq<Box>, kinds: seq<string>, cs: seq<nat>, i: nat, j: nat)
    requires InRange(cs, |bs|) && TreeNode.Distinct(cs) && i < j < |cs|
    requires cs[i] < |kinds| && kinds[cs[i]] == System && cs[j] < |kinds| && kinds[cs[j]] == System
    requires forall m :: i < m < j ==> cs[m] >= |kinds| || kinds[cs[m]] != System
    ensures var r := SpaceSystems(bs, kinds, cs);
      r[cs[j]].y1 == r[cs[i]].y2
  {
    SelectedTouch(bs, cs, Systems(kinds), Vertical, i, j);
  }

  /** The first system is placed at the top, y = 0. */
  lemma FirstSystemAtTop(bs: seq<Box>, kinds: seq<string>, cs: seq<nat>, i: nat)
    requires InRange(cs, |bs|) && TreeNode.Distinct(cs) && i < |cs|
    requires cs[i] < |kinds| && kinds[cs[i]] == System
    requires forall m :: 0 <= m < i ==> cs[m] >= |kinds| || kinds[cs[m]] != System
    ensures SpaceSystems(bs, kinds, cs)[cs[i]].y1 == 0.0
  {
    FirstSelectedAtZero(bs, cs, Systems(kinds), Vertical, i);
  }
}
