/**
  * `BbTreeNode`'s mutators (src/tree-node.ts) as methods of one object
  * holding the whole arena. Each method performs the source's steps in
  * order and is specified by the function of module `TreeNode` that
  * describes the same update, whose properties are proved there.
  */
module Trees {
  import opened Wrappers
  import TreeNode

  class Tree {
    var nodes: seq<TreeNode.Node>

    ghost predicate Valid()
      reads this
    {
      TreeNode.Closed(nodes)
    }

    constructor()
      ensures Valid() && nodes == []
    {
      nodes := [];
    }

    /** `new BbTreeNode(parent)`: a node with no children, appended to `parent` when there is one. */
    method NewNode(parent: Option<nat>) returns (n: nat)
      requires Valid() && (parent.Some? ==> parent.value < |nodes|)
      modifies this
      ensures Valid() && n == |old(nodes)| && n < |nodes|
      ensures nodes == TreeNode.NewNode(old(nodes), parent)
    {
      n := |nodes|;
      nodes := nodes + [TreeNode.Node(parent, [])];
      if parent.Some? {
        AppendChild(parent.value, n);
      }
    }

    /** `insertChildren(index, ...cs)` on `p`. */
    method InsertChildren(p: nat, index: int, cs: seq<nat>)
      requires Valid() && p < |nodes| && forall c :: c in cs ==> c < |nodes|
      modifies this
      ensures Valid() && nodes == TreeNode.InsertChildren(old(nodes), p, index, cs)
    {
      TreeNode.SpliceMembers(nodes[p].children, index, 0, cs);
      TreeNode.SetChildrenClosed(nodes, p, TreeNode.Splice(nodes[p].children, index, 0, cs));
      nodes := nodes[p := nodes[p].(children := TreeNode.Splice(nodes[p].children, index, 0, cs))];
    }

    /** `appendChildren(...cs)` on `p`: each child's parent set in turn, then the push. */
    method AppendChildren(p: nat, cs: seq<nat>)
      requires Valid() && p < |nodes| && forall c :: c in cs ==> c < |nodes|
      modifies this
      ensures Valid() && nodes == TreeNode.AppendChildren(old(nodes), p, cs)
    {
      SetParents(p, cs);
      TreeNode.SetChildrenClosed(nodes, p, nodes[p].children + cs);
      nodes := nodes[p := nodes[p].(children := nodes[p].children + cs)];
    }

    /** `prependChildren(...cs)` on `p`: each child's parent set in turn, then the unshift. */
    method PrependChildren(p: nat, cs: seq<nat>)
      requires Valid() && p < |nodes| && forall c :: c in cs ==> c < |nodes|
      modifies this
      ensures Valid() && nodes == TreeNode.PrependChildren(old(nodes), p, cs)
    {
      SetParents(p, cs);
      TreeNode.SetChildrenClosed(nodes, p, cs + nodes[p].children);
      nodes := nodes[p := nodes[p].(children := cs + nodes[p].children)];
    }

    /** The `forEach` loop of `appendChildren` and `prependChildren`. */
    method SetParents(p: nat, cs: seq<nat>)
      requires Valid() && p < |nodes| && forall c :: c in cs ==> c < |nodes|
      modifies this
      ensures Valid() && nodes == TreeNode.SetParents(old(nodes), cs, Some(p))
    {
      var i := 0;
      while i < |cs|
        invariant 0 <= i <= |cs|
        invariant forall c :: c in cs[..i] ==> c in cs
        invariant |nodes| == |old(nodes)| && Valid()
        invariant nodes == TreeNode.SetParents(old(nodes), cs[..i], Some(p))
      {
        TreeNode.PrefixMembers(cs, i);
        TreeNode.SetParentClosed(nodes, cs[i], Some(p));
        nodes := nodes[cs[i] := nodes[cs[i]].(parent := Some(p))];
        assert cs[..i + 1][..i] == cs[..i];
        TreeNode.PrefixMembers(cs, i + 1);
        i := i + 1;
      }
      assert cs[..i] == cs;
    }

    /** `appendChild(c)` on `p`. */
    method AppendChild(p: nat, c: nat)
      requires Valid() && p < |nodes| && c < |nodes|
      modifies this
      ensures Valid() && nodes == TreeNode.AppendChildren(old(nodes), p, [c])
    {
      assert [c][..0] == [];
      assert TreeNode.SetParents(nodes, [c], Some(p)) == TreeNode.SetParent(nodes, c, Some(p));
      TreeNode.SetParentClosed(nodes, c, Some(p));
      nodes := nodes[c := nodes[c].(parent := Some(p))];
      TreeNode.SetChildrenClosed(nodes, p, nodes[p].children + [c]);
      nodes := nodes[p := nodes[p].(children := nodes[p].children + [c])];
    }

    /** `prependChild(c)` on `p`. */
    method PrependChild(p: nat, c: nat)
      requires Valid() && p < |nodes| && c < |nodes|
      modifies this
      ensures Valid() && nodes == TreeNode.PrependChildren(old(nodes), p, [c])
    {
      assert [c][..0] == [];
      assert TreeNode.SetParents(nodes, [c], Some(p)) == TreeNode.SetParent(nodes, c, Some(p));
      TreeNode.SetParentClosed(nodes, c, Some(p));
      nodes := nodes[c := nodes[c].(parent := Some(p))];
      TreeNode.SetChildrenClosed(nodes, p, [c] + nodes[p].children);
      nodes := nodes[p := nodes[p].(children := [c] + nodes[p].children)];
    }

    /** The shared first step: splice `items` over the node in its parent's list, when it has a parent. */
    method ReplaceInParent(n: nat, items: seq<nat>)
      requires Valid() && n < |nodes| && forall c :: c in items ==> c < |nodes|
      modifies this
      ensures Valid() && nodes == TreeNode.ReplaceInParent(old(nodes), n, items)
    {
      TreeNode.ReplaceInParentClosed(nodes, n, items);
      match nodes[n].parent
      case None =>
      case Some(p) =>
        var siblings := nodes[p].children;
        nodes := nodes[p := nodes[p].(children := TreeNode.Splice(siblings, TreeNode.IndexOf(siblings, n), 1, items))];
    }

    /** `drop()`. */
    method Drop(n: nat)
      requires Valid() && n < |nodes|
      modifies this
      ensures Valid() && nodes == TreeNode.Drop(old(nodes), n)
    {
      ReplaceInParent(n, []);
      TreeNode.SetParentClosed(nodes, n, None);
      nodes := nodes[n := nodes[n].(parent := None)];
    }

    /** `changeParent(newParent, index)`; an absent index is `None`. */
    method ChangeParent(n: nat, newParent: nat, index: Option<int>)
      requires Valid() && n < |nodes| && newParent < |nodes|
      modifies this
      ensures Valid() && nodes == TreeNode.ChangeParent(old(nodes), n, newParent, index)
    {
      ReplaceInParent(n, []);
      if index.Some? && index.value != 0 {
        InsertChildren(newParent, index.value, [n]);
      } else {
        AppendChild(newParent, n);
      }
    }

    /** `moveDeeper(newParent)`. */
    method MoveDeeper(n: nat, newParent: nat)
      requires Valid() && n < |nodes| && newParent < |nodes|
      modifies this
      ensures Valid() && nodes == TreeNode.MoveDeeper(old(nodes), n, newParent)
    {
      ReplaceInParent(n, [newParent]);
      TreeNode.SetChildrenClosed(nodes, newParent, nodes[newParent].children + [n]);
      nodes := nodes[newParent := nodes[newParent].(children := nodes[newParent].children + [n])];
      TreeNode.SetParentClosed(nodes, n, Some(newParent));
      nodes := nodes[n := nodes[n].(parent := Some(newParent))];
    }

    /** `replaceWith(node)`. */
    method ReplaceWith(n: nat, node: nat)
      requires Valid() && n < |nodes| && node < |nodes|
      modifies this
      ensures Valid() && nodes == TreeNode.ReplaceWith(old(nodes), n, node)
    {
      ReplaceInParent(n, [node]);
      TreeNode.SetParentClosed(nodes, n, None);
      nodes := nodes[n := nodes[n].(parent := None)];
    }
  }
}
