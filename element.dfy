/**
  * `BbElement` (src/element.ts): a tree node carrying a bounding box
  * relative to its parent. All elements of one tree are kept by one
  * `Elements` object: the tree arena, and the box and `type` of each node
  * by index. `x`, `y` and `absoluteBbox` walk up the parent chain; the
  * placement loops of `BbScore` and `BbSystem` rewrite the boxes of a
  * node's children.
  */
module Element {
  import opened Wrappers
  import opened BoundingBoxes
  import TreeNode
  import Trees
  import opened Placement
  import Score
  import SystemLayout

  /** The positions along `axis` of the boxes of the nodes in `a`, added up. */
  function SumStarts(bs: seq<Box>, a: seq<nat>, axis: Axis): real
    requires InRange(a, |bs|)
  {
    if a == [] then 0.0 else Start(bs[a[0]], axis) + SumStarts(bs, a[1..], axis)
  }

  /** A node's position on the canvas along `axis`: its own offset plus all its ancestors'. */
  function AbsStart(ns: seq<TreeNode.Node>, bs: seq<Box>, n: nat, axis: Axis): real
    requires TreeNode.Closed(ns) && |bs| == |ns| && n < |ns| && TreeNode.Rooted(ns, n)
  {
    SumStarts(bs, TreeNode.Ancestors(ns, n, |ns|), axis)
  }

  /** The box on the canvas: the node's own box moved to its canvas position, same size. */
  function AbsoluteBox(ns: seq<TreeNode.Node>, bs: seq<Box>, n: nat): Box
    requires TreeNode.Closed(ns) && |bs| == |ns| && n < |ns| && TreeNode.Rooted(ns, n)
  {
    Moved(bs[n], AbsStart(ns, bs, n, Horizontal), AbsStart(ns, bs, n, Vertical))
  }

  /**
    * A root's canvas position is its own offset; any other node's is its
    * own offset plus its parent's canvas position.
    */
  lemma AbsStartStep(ns: seq<TreeNode.Node>, bs: seq<Box>, n: nat, axis: Axis)
    requires TreeNode.Closed(ns) && |bs| == |ns| && n < |ns| && TreeNode.Rooted(ns, n)
    ensures ns[n].parent.None? ==> AbsStart(ns, bs, n, axis) == Start(bs[n], axis)
    ensures ns[n].parent.Some? ==>
      TreeNode.Rooted(ns, ns[n].parent.value) &&
      AbsStart(ns, bs, n, axis) == Start(bs[n], axis) + AbsStart(ns, bs, ns[n].parent.value, axis)
  {
    if ns[n].parent.Some? {
      TreeNode.ParentRooted(ns, n);
      var a := TreeNode.Ancestors(ns, n, |ns|);
      assert a[1..] == TreeNode.Ancestors(ns, ns[n].parent.value, |ns|);
    } else {
      assert TreeNode.Ancestors(ns, n, |ns|) == [n];
      assert [n][1..] == [];
      assert SumStarts(bs, [n], axis) == Start(bs[n], axis) + SumStarts(bs, [], axis);
    }
  }

  /**
    * The canvas box has the node's own size and sits at the canvas
    * position; a root's canvas box is its own box.
    */
  lemma AbsoluteBoxShape(ns: seq<TreeNode.Node>, bs: seq<Box>, n: nat)
    requires TreeNode.Closed(ns) && |bs| == |ns| && n < |ns| && TreeNode.Rooted(ns, n)
    ensures var b := AbsoluteBox(ns, bs, n);
      b.Width() == bs[n].Width() && b.Height() == bs[n].Height() &&
      b.x1 == AbsStart(ns, bs, n, Horizontal) && b.y1 == AbsStart(ns, bs, n, Vertical) &&
      (ns[n].parent.None? ==> b == bs[n])
  {
    AbsStartStep(ns, bs, n, Horizontal);
    AbsStartStep(ns, bs, n, Vertical);
  }

  /**
    * The element tree of the `positions` tests: a over aa, ab and ac; aa
    * over aaa and aab; ab over aba (nodes 0 to 6 in that order).
    */
  function SampleTree(): seq<TreeNode.Node>
  {
    [TreeNode.Node(None, [1, 4, 6]), TreeNode.Node(Some(0), [2, 3]), TreeNode.Node(Some(1), []),
     TreeNode.Node(Some(1), []), TreeNode.Node(Some(0), [5]), TreeNode.Node(Some(4), []), TreeNode.Node(Some(0), [])]
  }

  function SampleBoxes(): seq<Box>
  {
    [Box(0.0, 0.0, 100.0, 100.0), Box(2.0, 2.0, 98.0, 30.0), Box(2.0, 2.0, 94.0, 13.0),
     Box(15.0, 2.0, 94.0, 26.0), Box(2.0, 32.0, 98.0, 70.0), Box(2.0, 2.0, 94.0, 36.0), Box(2.0, 72.0, 50.0, 98.0)]
  }

  /**
    * On that tree each chain runs up to a: aa, ab and ac hang from a, aaa
    * and aab from aa, aba from ab.
    */
  lemma SampleChains(ns: seq<TreeNode.Node>)
    requires ns == SampleTree()
    ensures TreeNode.Closed(ns)
    ensures forall n :: 0 <= n < 7 ==> TreeNode.Rooted(ns, n)
    ensures TreeNode.Ancestors(ns, 0, 7) == [0] && TreeNode.Ancestors(ns, 1, 7) == [1, 0]
    ensures TreeNode.Ancestors(ns, 2, 7) == [2, 1, 0] && TreeNode.Ancestors(ns, 3, 7) == [3, 1, 0]
    ensures TreeNode.Ancestors(ns, 4, 7) == [4, 0] && TreeNode.Ancestors(ns, 5, 7) == [5, 4, 0]
    ensures TreeNode.Ancestors(ns, 6, 7) == [6, 0]
  {
    assert TreeNode.Closed(ns) by {
      forall k | 0 <= k < |ns| ensures forall c :: c in ns[k].children ==> c < |ns| {
        assert k == 0 || k == 1 || k == 2 || k == 3 || k == 4 || k == 5 || k == 6;
      }
    }
    assert TreeNode.RootedWithin(ns, 1, 6);
    assert TreeNode.RootedWithin(ns, 4, 6);
    assert TreeNode.RootedWithin(ns, 6, 6);
    forall n | 0 <= n < 7 ensures TreeNode.Rooted(ns, n) {
      assert n == 0 || n == 1 || n == 2 || n == 3 || n == 4 || n == 5 || n == 6;
    }
  }

  /**
    * There x() is 0, 2, 4, 17, 2, 4, 2 and y() is 0, 2, 4, 4, 32, 34, 72
    * for a, aa, aaa, aab, ab, aba and ac.
    */
  lemma SamplePositions(ns: seq<TreeNode.Node>, bs: seq<Box>)
    requires ns == SampleTree() && bs == SampleBoxes()
    ensures TreeNode.Closed(ns) && forall n :: 0 <= n < 7 ==> TreeNode.Rooted(ns, n)
    ensures AbsStart(ns, bs, 0, Horizontal) == 0.0
    ensures AbsStart(ns, bs, 1, Horizontal) == 2.0
    ensures AbsStart(ns, bs, 2, Horizontal) == 4.0
    ensures AbsStart(ns, bs, 3, Horizontal) == 17.0
    ensures AbsStart(ns, bs, 4, Horizontal) == 2.0
    ensures AbsStart(ns, bs, 5, Horizontal) == 4.0
    ensures AbsStart(ns, bs, 6, Horizontal) == 2.0
    ensures AbsStart(ns, bs, 0, Vertical) == 0.0
    ensures AbsStart(ns, bs, 1, Vertical) == 2.0
    ensures AbsStart(ns, bs, 2, Vertical) == 4.0
    ensures AbsStart(ns, bs, 3, Vertical) == 4.0
    ensures AbsStart(ns, bs, 4, Vertical) == 32.0
    ensures AbsStart(ns, bs, 5, Vertical) == 34.0
    ensures AbsStart(ns, bs, 6, Vertical) == 72.0
  {
    SampleChains(ns);
    assert SumStarts(bs, [0], Horizontal) == 0.0 && SumStarts(bs, [0], Vertical) == 0.0;
    assert SumStarts(bs, [1, 0], Horizontal) == 2.0 && SumStarts(bs, [1, 0], Vertical) == 2.0;
    assert SumStarts(bs, [2, 1, 0], Horizontal) == 4.0 && SumStarts(bs, [2, 1, 0], Vertical) == 4.0;
    assert SumStarts(bs, [3, 1, 0], Horizontal) == 17.0 && SumStarts(bs, [3, 1, 0], Vertical) == 4.0;
    assert SumStarts(bs, [4, 0], Horizontal) == 2.0 && SumStarts(bs, [4, 0], Vertical) == 32.0;
    assert SumStarts(bs, [5, 4, 0], Horizontal) == 4.0 && SumStarts(bs, [5, 4, 0], Vertical) == 34.0;
    assert SumStarts(bs, [6, 0], Horizontal) == 2.0 && SumStarts(bs, [6, 0], Vertical) == 72.0;
  }

  /** There the canvas boxes are the seven the `absoluteBbox` test expects. */
  lemma SampleAbsoluteBoxes(ns: seq<TreeNode.Node>, bs: seq<Box>)
    requires ns == SampleTree() && bs == SampleBoxes()
    ensures TreeNode.Closed(ns) && forall n :: 0 <= n < 7 ==> TreeNode.Rooted(ns, n)
    ensures AbsoluteBox(ns, bs, 1) == Box(2.0, 2.0, 98.0, 30.0)
    ensures AbsoluteBox(ns, bs, 2) == Box(4.0, 4.0, 96.0, 15.0)
    ensures AbsoluteBox(ns, bs, 3) == Box(17.0, 4.0, 96.0, 28.0)
    ensures AbsoluteBox(ns, bs, 4) == Box(2.0, 32.0, 98.0, 70.0)
    ensures AbsoluteBox(ns, bs, 5) == Box(4.0, 34.0, 96.0, 68.0)
    ensures AbsoluteBox(ns, bs, 6) == Box(2.0, 72.0, 50.0, 98.0)
    ensures AbsoluteBox(ns, bs, 0) == Box(0.0, 0.0, 100.0, 100.0)
  {
    SamplePositions(ns, bs);
    forall n | 0 <= n < 7
      ensures AbsoluteBox(ns, bs, n).x2 == AbsoluteBox(ns, bs, n).x1 + bs[n].Width()
      ensures AbsoluteBox(ns, bs, n).y2 == AbsoluteBox(ns, bs, n).y1 + bs[n].Height()
    {
      AbsoluteBoxShape(ns, bs, n);
    }
  }

  class Elements {
    const tree: Trees.Tree
    var bbox: seq<Box>
    var kind: seq<string>

    ghost predicate Valid()
      reads this, tree
    {
      tree.Valid() && |bbox| == |tree.nodes| && |kind| == |tree.nodes| &&
      forall k :: 0 <= k < |bbox| ==> bbox[k].Ordered()
    }

    constructor()
      ensures Valid() && fresh(tree) && tree.nodes == [] && bbox == [] && kind == []
    {
      tree := new Trees.Tree();
      bbox := [];
      kind := [];
    }

    /** `new BbElement(parent)` of the given `type`: a new node whose box is (0, 0, 0, 0). */
    method NewElement(parent: Option<nat>, k: string) returns (n: nat)
      requires Valid() && (parent.Some? ==> parent.value < |tree.nodes|)
      modifies this, tree
      ensures Valid() && n == |old(tree.nodes)|
      ensures tree.nodes == TreeNode.NewNode(old(tree.nodes), parent)
      ensures bbox == old(bbox) + [Box(0.0, 0.0, 0.0, 0.0)] && kind == old(kind) + [k]
    {
      n := tree.NewNode(parent);
      bbox := bbox + [Box(0.0, 0.0, 0.0, 0.0)];
      kind := kind + [k];
    }

    /** Assigning the `bbox` field of node `n` a box built by the `BoundingBox` constructor. */
    method SetBbox(n: nat, b: Box)
      requires Valid() && n < |bbox| && b.Ordered()
      modifies this
      ensures Valid() && bbox == old(bbox)[n := b] && kind == old(kind)
    {
      bbox := bbox[n := b];
    }

    /** The loop shared by `x()` and `y()`: add up the offsets from the node to the root. */
    method SumUp(n: nat, axis: Axis) returns (s: real)
      requires Valid() && n < |tree.nodes| && TreeNode.Rooted(tree.nodes, n)
      ensures s == AbsStart(tree.nodes, bbox, n, axis)
    {
      var ns := tree.nodes;
      s := 0.0;
      var el: Option<nat> := Some(n);
      ghost var k: nat := |ns|;
      while el.Some?
        invariant el.Some? ==> el.value < |ns| && TreeNode.RootedWithin(ns, el.value, k)
        invariant s + (if el.Some? then SumStarts(bbox, TreeNode.Ancestors(ns, el.value, k), axis) else 0.0)
          == AbsStart(ns, bbox, n, axis)
        decreases k + (if el.Some? then 1 else 0)
      {
        var e := el.value;
        var above := TreeNode.Ancestors(ns, e, k);
        assert above[1..] == if ns[e].parent.Some? then TreeNode.Ancestors(ns, ns[e].parent.value, k - 1) else [];
        s := s + Start(bbox[e], axis);
        el := ns[e].parent;
        if el.Some? {
          k := k - 1;
        }
      }
    }

    /** `x()`: the sum of `bbox.x1` over the node and all its ancestors. */
    method X(n: nat) returns (x: real)
      requires Valid() && n < |tree.nodes| && TreeNode.Rooted(tree.nodes, n)
      ensures x == AbsStart(tree.nodes, bbox, n, Horizontal)
    {
      x := SumUp(n, Horizontal);
    }

    /** `y()`: the sum of `bbox.y1` over the node and all its ancestors. */
    method Y(n: nat) returns (y: real)
      requires Valid() && n < |tree.nodes| && TreeNode.Rooted(tree.nodes, n)
      ensures y == AbsStart(tree.nodes, bbox, n, Vertical)
    {
      y := SumUp(n, Vertical);
    }

    /**
      * `absoluteBbox()`: a copy of the node's box, shifted by each
      * ancestor's offset in turn (its `x` and `y` setters keep the size).
      */
    method AbsoluteBbox(n: nat) returns (b: Box)
      requires Valid() && n < |tree.nodes| && TreeNode.Rooted(tree.nodes, n)
      ensures b == AbsoluteBox(tree.nodes, bbox, n)
    {
      var ns := tree.nodes;
      b := Make(bbox[n].x1, bbox[n].y1, bbox[n].x2, bbox[n].y2);
      assert b == bbox[n];
      var el: Option<nat> := ns[n].parent;
      ghost var k: nat := |ns| - 1;
      ghost var a := TreeNode.Ancestors(ns, n, |ns|);
      assert a[1..] == if el.Some? then TreeNode.Ancestors(ns, el.value, k) else [];
      assert AbsStart(ns, bbox, n, Horizontal) == b.x1 + SumStarts(bbox, a[1..], Horizontal);
      assert AbsStart(ns, bbox, n, Vertical) == b.y1 + SumStarts(bbox, a[1..], Vertical);
      while el.Some?
        invariant el.Some? ==> el.value < |ns| && TreeNode.RootedWithin(ns, el.value, k)
        invariant b.Width() == bbox[n].Width() && b.Height() == bbox[n].Height()
        invariant b.x1 + (if el.Some? then SumStarts(bbox, TreeNode.Ancestors(ns, el.value, k), Horizontal) else 0.0)
          == AbsStart(ns, bbox, n, Horizontal)
        invariant b.y1 + (if el.Some? then SumStarts(bbox, TreeNode.Ancestors(ns, el.value, k), Vertical) else 0.0)
          == AbsStart(ns, bbox, n, Vertical)
        decreases k + (if el.Some? then 1 else 0)
      {
        var e := el.value;
        var above := TreeNode.Ancestors(ns, e, k);
        assert above[1..] == if ns[e].parent.Some? then TreeNode.Ancestors(ns, ns[e].parent.value, k - 1) else [];
        b := WithX(b, b.x1 + bbox[e].x1);
        b := WithY(b, b.y1 + bbox[e].y1);
        el := ns[e].parent;
        if el.Some? {
          k := k - 1;
        }
      }
      AbsoluteBoxShape(ns, bbox, n);
    }

    /** `spaceSystems()` on the score `score`: its "system" children stacked from y = 0. */
    method SpaceSystems(score: nat)
      requires Valid() && score < |tree.nodes|
      modifies this
      ensures Valid() && kind == old(kind)
      ensures InRange(tree.nodes[score].children, |old(bbox)|)
      ensures bbox == Score.SpaceSystems(old(bbox), kind, tree.nodes[score].children)
    {
      var cs := tree.nodes[score].children;
      assert InRange(cs, |bbox|) by {
        forall i | 0 <= i < |cs| ensures cs[i] < |bbox| {
          assert cs[i] in tree.nodes[score].children;
        }
      }
      var h := 0.0;
      var i := 0;
      while i < |cs|
        invariant 0 <= i <= |cs| && |bbox| == |old(bbox)| && InRange(cs, |bbox|) && kind == old(kind)
        invariant forall k :: 0 <= k < |bbox| ==> bbox[k].Ordered()
        invariant (bbox, h) == Packed(old(bbox), cs[..i], Score.Systems(kind), Vertical)
      {
        assert cs[..i + 1][..i] == cs[..i];
        var child := cs[i];
        if kind[child] == Score.System {
          bbox := bbox[child := WithY(bbox[child], h)];
          h := h + bbox[child].Height();
        }
        i := i + 1;
      }
      assert cs[..i] == cs;
    }

    /**
      * `placeMeasures()` on the system `system`, as written: every child is
      * relabelled "segment" and placed, left to right, from x = 0.
      */
    method PlaceMeasures(system: nat)
      requires Valid() && system < |tree.nodes|
      modifies this
      ensures Valid()
      ensures InRange(tree.nodes[system].children, |old(bbox)|)
      ensures bbox == SystemLayout.PlaceMeasures(old(bbox), tree.nodes[system].children)
      ensures kind == SystemLayout.Relabelled(old(kind), tree.nodes[system].children)
    {
      var cs := tree.nodes[system].children;
      assert InRange(cs, |bbox|) by {
        forall i | 0 <= i < |cs| ensures cs[i] < |bbox| {
          assert cs[i] in tree.nodes[system].children;
        }
      }
      var w := 0.0;
      var i := 0;
      while i < |cs|
        invariant 0 <= i <= |cs| && |bbox| == |old(bbox)| && |kind| == |old(kind)| && InRange(cs, |bbox|)
        invariant forall k :: 0 <= k < |bbox| ==> bbox[k].Ordered()
        invariant (bbox, w) == Packed(old(bbox), cs[..i], All, Horizontal)
        invariant forall k :: 0 <= k < |kind| ==> kind[k] == if k in cs[..i] then SystemLayout.Segment else old(kind)[k]
      {
        assert cs[..i + 1] == cs[..i] + [cs[i]];
        var child := cs[i];
        kind := kind[child := SystemLayout.Segment];
        bbox := bbox[child := WithX(bbox[child], w)];
        w := w + bbox[child].Width();
        i := i + 1;
      }
      assert cs[..i] == cs;
    }
  }
}
