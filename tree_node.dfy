/**
  * The tree bookkeeping of `BbTreeNode` (src/tree-node.ts), on an arena:
  * node `k` of the tree is `nodes[k]`, holding its parent's index and its
  * children's indices. The source's nodes are objects that point at each
  * other; here they point at positions.
  *
  * The source does not keep the parent pointers and the children lists in
  * step (`insertChildren` and `changeParent` with an index leave the parent
  * pointer alone), so the arena may hold any such state. `WellFormed` says
  * when the two agree; the lemmas say which operations keep it.
  *
  * Every update is a function on the arena (`AppendChildren`, `Drop`, ...)
  * and a method of the class `Tree` that performs it step by step; the
  * lemmas describe what the functions do.
  */
module TreeNode {
  import opened Wrappers

  datatype Node = Node(parent: Option<nat>, children: seq<nat>)

  // ----- Arrays as JavaScript treats them -----

  /** `Array.prototype.indexOf`: the first position holding `x`, or -1. */
  function IndexOf(s: seq<nat>, x: nat): (r: int)
    ensures -1 <= r < |s|
    ensures r == -1 <==> x !in s
    ensures r >= 0 ==> s[r] == x && x !in s[..r]
  {
    if s == [] then -1
    else if s[0] == x then 0
    else
      var r := IndexOf(s[1..], x);
      assert s[1..][..if r < 0 then 0 else r] == s[1..1 + if r < 0 then 0 else r];
      if r < 0 then -1 else r + 1
  }

  /** Where `splice` starts: a negative start counts from the end, and the start is clamped to the array. */
  function SpliceStart(len: nat, start: int): (a: nat)
    ensures a <= len
    ensures 0 <= start <= len ==> a == start
    ensures start < 0 ==> a == if len + start < 0 then 0 else len + start
  {
    if start < 0 then (if len + start < 0 then 0 else len + start)
    else if start > len then len
    else start
  }

  /**
    * `Array.prototype.splice(start, deleteCount, ...items)` as the value of
    * the array afterwards.
    */
  function Splice(s: seq<nat>, start: int, deleteCount: nat, items: seq<nat>): (r: seq<nat>)
    ensures var a := SpliceStart(|s|, start);
      |r| == |s| - (if deleteCount < |s| - a then deleteCount else |s| - a) + |items|
  {
    var a := SpliceStart(|s|, start);
    var d := if deleteCount < |s| - a then deleteCount else |s| - a;
    s[..a] + items + s[a + d..]
  }

  /**
    * Removing the element `indexOf` finds: when `x` is there, its first
    * occurrence is replaced by `items` and the rest keep their order.
    */
  lemma SpliceFound(s: seq<nat>, x: nat, items: seq<nat>)
    requires x in s
    ensures var i := IndexOf(s, x);
      0 <= i && s[i] == x && Splice(s, i, 1, items) == s[..i] + items + s[i + 1..]
  {
    var i := IndexOf(s, x);
    assert SpliceStart(|s|, i) == i;
    assert (if 1 < |s| - i then 1 else |s| - i) == 1;
  }

  /**
    * When `x` is not there, `indexOf` gives -1, which `splice` reads as the
    * last position: the last element is replaced instead.
    */
  lemma SpliceMissing(s: seq<nat>, x: nat, items: seq<nat>)
    requires x !in s && |s| > 0
    ensures Splice(s, IndexOf(s, x), 1, items) == s[..|s| - 1] + items
  {
  }

  /** Reading `s[j]`: `undefined` outside the array. */
  function At(s: seq<nat>, j: int): (r: Option<nat>)
    ensures r.Some? <==> 0 <= j < |s|
    ensures r.Some? ==> r.value == s[j] && r.value in s
  {
    if 0 <= j < |s| then Some(s[j]) else None
  }

  /** No index occurs twice. */
  predicate Distinct(s: seq<nat>) {
    forall i, j :: 0 <= i < j < |s| ==> s[i] != s[j]
  }

  // ----- The arena -----

  /** Every index the arena holds names one of its nodes. */
  predicate Closed(ns: seq<Node>) {
    forall k :: 0 <= k < |ns| ==>
      (ns[k].parent.Some? ==> ns[k].parent.value < |ns|) &&
      (forall c :: c in ns[k].children ==> c < |ns|)
  }

  /**
    * Parent pointers and children lists agree: each child points back at
    * the node that lists it, each node with a parent is listed by it, and
    * no list holds a node twice.
    */
  predicate WellFormed(ns: seq<Node>) {
    Closed(ns) && ChildrenPointBack(ns) && ParentsListChild(ns) && ListsDistinct(ns)
  }

  predicate ChildrenPointBack(ns: seq<Node>)
    requires Closed(ns)
  {
    forall p, c :: 0 <= p < |ns| && c in ns[p].children ==> ns[c].parent == Some(p)
  }

  predicate ParentsListChild(ns: seq<Node>)
    requires Closed(ns)
  {
    forall c :: 0 <= c < |ns| && ns[c].parent.Some? ==> c in ns[ns[c].parent.value].children
  }

  predicate ListsDistinct(ns: seq<Node>) {
    forall p :: 0 <= p < |ns| ==> Distinct(ns[p].children)
  }

  function SetParent(ns: seq<Node>, c: nat, p: Option<nat>): seq<Node>
    requires c < |ns|
  {
    ns[c := ns[c].(parent := p)]
  }

  function SetChildren(ns: seq<Node>, n: nat, cs: seq<nat>): seq<Node>
    requires n < |ns|
  {
    ns[n := ns[n].(children := cs)]
  }

  lemma PrefixMembers(s: seq<nat>, k: nat)
    requires k <= |s|
    ensures forall c :: c in s[..k] ==> c in s
    ensures k < |s| ==> s[k] in s
  {
    forall c | c in s[..k] ensures c in s {
      var j :| 0 <= j < k && s[..k][j] == c;
      assert s[j] == c;
    }
  }

  /** `children.forEach((child) => child.setParent(p))`, one child after the other. */
  function SetParents(ns: seq<Node>, cs: seq<nat>, p: Option<nat>): (r: seq<Node>)
    requires forall c :: c in cs ==> c < |ns|
    ensures |r| == |ns|
  {
    if cs == [] then ns
    else
      var init := cs[..|cs| - 1];
      PrefixMembers(cs, |cs| - 1);
      SetParent(SetParents(ns, init, p), cs[|cs| - 1], p)
  }

  /** Setting the parents of `cs` reaches exactly the nodes of `cs`, and changes nothing but parents. */
  lemma {:induction false} SetParentsAt(ns: seq<Node>, cs: seq<nat>, p: Option<nat>, k: nat)
    requires forall c :: c in cs ==> c < |ns|
    requires k < |ns|
    ensures SetParents(ns, cs, p)[k] == if k in cs then ns[k].(parent := p) else ns[k]
  {
    if cs != [] {
      var init := cs[..|cs| - 1];
      PrefixMembers(cs, |cs| - 1);
      SetParentsAt(ns, init, p, k);
      assert cs == init + [cs[|cs| - 1]];
      assert k in cs <==> k in init || k == cs[|cs| - 1];
    }
  }

  // ----- The updates, as functions on the arena -----

  /** `insertChildren(index, ...cs)` on node `p`: a splice into its list; no parent is set. */
  function InsertChildren(ns: seq<Node>, p: nat, index: int, cs: seq<nat>): seq<Node>
    requires p < |ns|
  {
    SetChildren(ns, p, Splice(ns[p].children, index, 0, cs))
  }

  /** `appendChildren(...cs)` on node `p`: their parents set to `p`, then pushed at the end. */
  function AppendChildren(ns: seq<Node>, p: nat, cs: seq<nat>): seq<Node>
    requires p < |ns| && forall c :: c in cs ==> c < |ns|
  {
    var withParents := SetParents(ns, cs, Some(p));
    SetChildren(withParents, p, withParents[p].children + cs)
  }

  /** `prependChildren(...cs)` on node `p`: their parents set to `p`, then put in front. */
  function PrependChildren(ns: seq<Node>, p: nat, cs: seq<nat>): seq<Node>
    requires p < |ns| && forall c :: c in cs ==> c < |ns|
  {
    var withParents := SetParents(ns, cs, Some(p));
    SetChildren(withParents, p, cs + withParents[p].children)
  }

  /**
    * The first step of `drop`, `changeParent`, `moveDeeper` and
    * `replaceWith`: the element `indexOf` finds in the parent's list is
    * replaced by `items` (removed when `items` is empty).
    */
  function ReplaceInParent(ns: seq<Node>, n: nat, items: seq<nat>): (r: seq<Node>)
    requires Closed(ns) && n < |ns|
    ensures |r| == |ns|
  {
    match ns[n].parent
    case None => ns
    case Some(p) =>
      var siblings := ns[p].children;
      SetChildren(ns, p, Splice(siblings, IndexOf(siblings, n), 1, items))
  }

  /** `drop`: out of the parent's list, then no parent. */
  function Drop(ns: seq<Node>, n: nat): (r: seq<Node>)
    requires Closed(ns) && n < |ns|
    ensures |r| == |ns|
  {
    SetParent(ReplaceInParent(ns, n, []), n, None)
  }

  /**
    * `changeParent(newParent, index)`: out of the old parent's list, then
    * inserted at `index` when the index is given and not 0 (the parent
    * pointer is then left as it was), appended to the new parent otherwise.
    */
  function ChangeParent(ns: seq<Node>, n: nat, newParent: nat, index: Option<int>): seq<Node>
    requires Closed(ns) && n < |ns| && newParent < |ns|
  {
    var detached := ReplaceInParent(ns, n, []);
    if index.Some? && index.value != 0 then InsertChildren(detached, newParent, index.value, [n])
    else AppendChildren(detached, newParent, [n])
  }

  /**
    * `moveDeeper(newParent)`: `newParent` takes the node's place in the
    * parent's list, the node is pushed under `newParent` and points at it.
    */
  function MoveDeeper(ns: seq<Node>, n: nat, newParent: nat): seq<Node>
    requires Closed(ns) && n < |ns| && newParent < |ns|
  {
    var replaced := ReplaceInParent(ns, n, [newParent]);
    var pushed := SetChildren(replaced, newParent, replaced[newParent].children + [n]);
    SetParent(pushed, n, Some(newParent))
  }

  /** `replaceWith(node)`: `node` takes this node's place in the parent's list; this node loses its parent. */
  function ReplaceWith(ns: seq<Node>, n: nat, node: nat): seq<Node>
    requires Closed(ns) && n < |ns| && node < |ns|
  {
    SetParent(ReplaceInParent(ns, n, [node]), n, None)
  }

  /** The constructor: a new last node with no children, appended to `parent` when there is one. */
  function NewNode(ns: seq<Node>, parent: Option<nat>): seq<Node>
    requires parent.Some? ==> parent.value < |ns|
  {
    var added := ns + [Node(parent, [])];
    if parent.Some? then AppendChildren(added, parent.value, [|ns|]) else added
  }

  /** What `splice` leaves in the array came from the array or from the inserted items. */
  lemma SpliceMembers(s: seq<nat>, start: int, deleteCount: nat, items: seq<nat>)
    ensures forall x :: x in Splice(s, start, deleteCount, items) ==> x in s || x in items
  {
    var a := SpliceStart(|s|, start);
    var d := if deleteCount < |s| - a then deleteCount else |s| - a;
    forall x | x in s[..a] + s[a + d..] ensures x in s {
      PrefixMembers(s, a);
      if x !in s[..a] {
        var j :| 0 <= j < |s[a + d..]| && s[a + d..][j] == x;
        assert s[a + d + j] == x;
      }
    }
  }

  lemma SetParentClosed(ns: seq<Node>, c: nat, p: Option<nat>)
    requires Closed(ns) && c < |ns| && (p.Some? ==> p.value < |ns|)
    ensures Closed(SetParent(ns, c, p))
  {
  }

  lemma SetChildrenClosed(ns: seq<Node>, n: nat, cs: seq<nat>)
    requires Closed(ns) && n < |ns| && forall c :: c in cs ==> c < |ns|
    ensures Closed(SetChildren(ns, n, cs))
  {
  }

  /** The first step of the detaching operations keeps every index inside the arena. */
  lemma ReplaceInParentClosed(ns: seq<Node>, n: nat, items: seq<nat>)
    requires Closed(ns) && n < |ns| && forall c :: c in items ==> c < |ns|
    ensures Closed(ReplaceInParent(ns, n, items))
  {
    if ns[n].parent.Some? {
      var p := ns[n].parent.value;
      var siblings := ns[p].children;
      SpliceMembers(siblings, IndexOf(siblings, n), 1, items);
      SetChildrenClosed(ns, p, Splice(siblings, IndexOf(siblings, n), 1, items));
    }
  }

  // ----- What the updates do -----

  /** The list without its element at `i`. */
  function RemoveAt(s: seq<nat>, i: nat): (r: seq<nat>)
    requires i < |s|
    ensures |r| == |s| - 1
    ensures forall j :: 0 <= j < i ==> r[j] == s[j]
    ensures forall j :: i <= j < |r| ==> r[j] == s[j + 1]
  {
    s[..i] + s[i + 1..]
  }

  /**
    * `appendChildren`: `cs` end the list of `p` in the given order, each of
    * them now has `p` as its parent, and nothing else changes.
    */
  lemma AppendChildrenEffect(ns: seq<Node>, p: nat, cs: seq<nat>)
    requires Closed(ns) && p < |ns| && forall c :: c in cs ==> c < |ns|
    ensures var r := AppendChildren(ns, p, cs);
      |r| == |ns| && Closed(r) && r[p].children == ns[p].children + cs &&
      (forall k :: 0 <= k < |ns| ==> r[k].parent == if k in cs then Some(p) else ns[k].parent) &&
      (forall k :: 0 <= k < |ns| && k != p ==> r[k].children == ns[k].children)
  {
    var r := AppendChildren(ns, p, cs);
    forall k | 0 <= k < |ns|
      ensures SetParents(ns, cs, Some(p))[k] == if k in cs then ns[k].(parent := Some(p)) else ns[k]
    {
      SetParentsAt(ns, cs, Some(p), k);
    }
  }

  /** `prependChildren`: `cs` start the list of `p` in the given order, each now has `p` as its parent. */
  lemma PrependChildrenEffect(ns: seq<Node>, p: nat, cs: seq<nat>)
    requires Closed(ns) && p < |ns| && forall c :: c in cs ==> c < |ns|
    ensures var r := PrependChildren(ns, p, cs);
      |r| == |ns| && Closed(r) && r[p].children == cs + ns[p].children &&
      (forall k :: 0 <= k < |ns| ==> r[k].parent == if k in cs then Some(p) else ns[k].parent) &&
      (forall k :: 0 <= k < |ns| && k != p ==> r[k].children == ns[k].children)
  {
    forall k | 0 <= k < |ns|
      ensures SetParents(ns, cs, Some(p))[k] == if k in cs then ns[k].(parent := Some(p)) else ns[k]
    {
      SetParentsAt(ns, cs, Some(p), k);
    }
  }

  /**
    * `insertChildren(index, ...cs)` with an index inside the list: `cs`
    * occupy positions `index` to `index + |cs| - 1`, the others keep their
    * order around them, and no parent pointer changes.
    */
  lemma InsertChildrenEffect(ns: seq<Node>, p: nat, index: int, cs: seq<nat>)
    requires p < |ns| && 0 <= index <= |ns[p].children|
    ensures var r := InsertChildren(ns, p, index, cs);
      var was := ns[p].children;
      |r| == |ns| && r[p].children == was[..index] + cs + was[index..] &&
      |r[p].children| == |was| + |cs| && r[p].children[index..index + |cs|] == cs &&
      (forall k :: 0 <= k < |ns| ==> r[k].parent == ns[k].parent) &&
      (forall k :: 0 <= k < |ns| && k != p ==> r[k] == ns[k])
  {
    var was := ns[p].children;
    assert (was[..index] + cs + was[index..])[index..index + |cs|] == cs;
  }

  /**
    * The first step of the detaching operations, when the parent lists the
    * node: its first occurrence there is replaced by `items`; nothing else
    * changes.
    */
  lemma ReplaceInParentFound(ns: seq<Node>, n: nat, items: seq<nat>)
    requires Closed(ns) && n < |ns| && ns[n].parent.Some?
    requires n in ns[ns[n].parent.value].children
    ensures var p := ns[n].parent.value;
      var i := IndexOf(ns[p].children, n);
      var r := ReplaceInParent(ns, n, items);
      0 <= i < |ns[p].children| && ns[p].children[i] == n && |r| == |ns| &&
      r[p] == ns[p].(children := ns[p].children[..i] + items + ns[p].children[i + 1..]) &&
      (forall k :: 0 <= k < |ns| && k != p ==> r[k] == ns[k])
  {
    var p := ns[n].parent.value;
    SpliceFound(ns[p].children, n, items);
  }

  /**
    * The same step when the parent does not list the node (after
    * `insertChildren` or `changeParent` with an index): `indexOf` gives -1
    * and the parent's LAST child is replaced instead.
    */
  lemma ReplaceInParentMissing(ns: seq<Node>, n: nat, items: seq<nat>)
    requires Closed(ns) && n < |ns| && ns[n].parent.Some?
    requires var siblings := ns[ns[n].parent.value].children; n !in siblings && |siblings| > 0
    ensures var p := ns[n].parent.value;
      var siblings := ns[p].children;
      ReplaceInParent(ns, n, items)[p].children == siblings[..|siblings| - 1] + items
  {
    var p := ns[n].parent.value;
    SpliceMissing(ns[p].children, n, items);
  }

  /**
    * `drop`, when the parent lists the node (as it does in a well-formed
    * tree): the parent's list loses that occurrence and only it, one
    * shorter and in the same order; the node has no parent; no other
    * parent pointer and no other list changes.
    */
  lemma DropEffect(ns: seq<Node>, n: nat)
    requires Closed(ns) && n < |ns|
    requires ns[n].parent.Some? ==> n in ns[ns[n].parent.value].children
    ensures var r := Drop(ns, n);
      |r| == |ns| && r[n].parent == None &&
      (ns[n].parent.Some? ==> var p := ns[n].parent.value;
         var i := IndexOf(ns[p].children, n);
         0 <= i && ns[p].children[i] == n && r[p].children == RemoveAt(ns[p].children, i)) &&
      (ns[n].parent != Some(n) ==> r[n].children == ns[n].children) &&
      (forall k :: 0 <= k < |ns| && k != n ==> r[k].parent == ns[k].parent) &&
      (forall k :: 0 <= k < |ns| && k != n && Some(k) != ns[n].parent ==> r[k] == ns[k])
  {
    var d := ReplaceInParent(ns, n, []);
    if ns[n].parent.Some? {
      ReplaceInParentRemoves(ns, n);
    } else {
      assert d == ns;
    }
    assert Drop(ns, n) == d[n := d[n].(parent := None)];
  }

  /** The first step of `drop` on its own: one occurrence leaves the parent's list. */
  lemma ReplaceInParentRemoves(ns: seq<Node>, n: nat)
    requires Closed(ns) && n < |ns| && ns[n].parent.Some?
    requires n in ns[ns[n].parent.value].children
    ensures var p := ns[n].parent.value;
      var i := IndexOf(ns[p].children, n);
      var r := ReplaceInParent(ns, n, []);
      0 <= i < |ns[p].children| && ns[p].children[i] == n && |r| == |ns| &&
      r[p] == ns[p].(children := RemoveAt(ns[p].children, i)) &&
      (forall k :: 0 <= k < |ns| && k != p ==> r[k] == ns[k])
  {
    var p := ns[n].parent.value;
    var siblings := ns[p].children;
    ReplaceInParentFound(ns, n, []);
    var i := IndexOf(siblings, n);
    assert siblings[..i] + [] + siblings[i + 1..] == RemoveAt(siblings, i);
  }

  /** The list without its `i`th element holds the others, and only them. */
  lemma RemoveAtContents(s: seq<nat>, i: nat, c: nat)
    requires i < |s| && Distinct(s)
    ensures c in RemoveAt(s, i) <==> c in s && c != s[i]
    ensures Distinct(RemoveAt(s, i))
  {
    var rest := RemoveAt(s, i);
    if c in rest {
      var j :| 0 <= j < |rest| && rest[j] == c;
      if j < i { assert rest[j] == s[j]; } else { assert rest[j] == s[j + 1]; }
    }
    if c in s && c != s[i] {
      var j :| 0 <= j < |s| && s[j] == c;
      if j < i { assert rest[j] == c; } else { assert rest[j - 1] == c; }
    }
    forall a, b | 0 <= a < b < |rest| ensures rest[a] != rest[b] {
      var a' := if a < i then a else a + 1;
      var b' := if b < i then b else b + 1;
      assert rest[a] == s[a'] && rest[b] == s[b'] && a' < b';
    }
  }

  /**
    * Taking a node out of its parent's list, and clearing its parent
    * pointer, keeps a well-formed tree well formed.
    */
  lemma DetachKeepsWellFormed(ns: seq<Node>, r: seq<Node>, n: nat, p: nat, i: nat)
    requires WellFormed(ns) && |r| == |ns| && n < |ns| && p < |ns| && ns[n].parent == Some(p)
    requires i < |ns[p].children| && ns[p].children[i] == n
    requires r[n].parent == None && r[p].children == RemoveAt(ns[p].children, i)
    requires forall k :: 0 <= k < |ns| && k != n ==> r[k].parent == ns[k].parent
    requires forall k :: 0 <= k < |ns| && k != p ==> r[k].children == ns[k].children
    ensures WellFormed(r)
  {
    var siblings := ns[p].children;
    forall c ensures c in r[p].children <==> c in siblings && c != n {
      RemoveAtContents(siblings, i, c);
    }
    RemoveAtContents(siblings, i, 0);
    assert Closed(r) by {
      forall k | 0 <= k < |r|
        ensures (r[k].parent.Some? ==> r[k].parent.value < |r|) && (forall c :: c in r[k].children ==> c < |r|)
      {
        if k == p {
          assert forall c :: c in r[k].children ==> c in siblings;
        }
      }
    }
    assert ChildrenPointBack(r) by {
      forall q, c | 0 <= q < |r| && c in r[q].children ensures r[c].parent == Some(q) {
        assert c in ns[q].children && c != n;
      }
    }
    assert ParentsListChild(r) by {
      forall c | 0 <= c < |r| && r[c].parent.Some? ensures c in r[r[c].parent.value].children {
        assert c != n && c in ns[ns[c].parent.value].children;
      }
    }
  }

  /** `drop` keeps a well-formed tree well formed. */
  lemma DropKeepsWellFormed(ns: seq<Node>, n: nat)
    requires WellFormed(ns) && n < |ns|
    ensures WellFormed(Drop(ns, n))
  {
    DropEffect(ns, n);
    if ns[n].parent.Some? {
      var p := ns[n].parent.value;
      DetachKeepsWellFormed(ns, Drop(ns, n), n, p, IndexOf(ns[p].children, n));
    }
  }

  /**
    * Appending distinct detached nodes (roots other than `p`) keeps a
    * well-formed tree well formed.
    */
  lemma AppendKeepsWellFormed(ns: seq<Node>, p: nat, cs: seq<nat>)
    requires WellFormed(ns) && p < |ns| && Distinct(cs)
    requires forall c :: c in cs ==> c < |ns| && c != p && ns[c].parent.None?
    ensures WellFormed(AppendChildren(ns, p, cs))
  {
    var r := AppendChildren(ns, p, cs);
    AppendChildrenEffect(ns, p, cs);
    forall c | c in cs ensures c !in ns[p].children {
      assert ns[c].parent != Some(p);
    }
    assert ChildrenPointBack(r) by {
      forall q, c | 0 <= q < |r| && c in r[q].children ensures r[c].parent == Some(q) {
        if c !in cs {
          assert c in ns[q].children;
        }
      }
    }
    assert ParentsListChild(r) by {
      forall c | 0 <= c < |r| && r[c].parent.Some? ensures c in r[r[c].parent.value].children {
        if c !in cs {
          assert c in ns[ns[c].parent.value].children;
        }
      }
    }
    assert Distinct(r[p].children) by {
      var l := ns[p].children;
      forall a, b | 0 <= a < b < |l + cs| ensures (l + cs)[a] != (l + cs)[b] {
        if b >= |l| && a < |l| {
          assert (l + cs)[b] in cs && (l + cs)[a] in l;
        }
      }
    }
  }

  /**
    * `changeParent` without an index (or with index 0) is `drop` followed
    * by `appendChild` on the new parent.
    */
  lemma ChangeParentIsDropThenAppend(ns: seq<Node>, n: nat, newParent: nat, index: Option<int>)
    requires Closed(ns) && n < |ns| && newParent < |ns|
    requires index.None? || index.value == 0
    ensures ChangeParent(ns, n, newParent, index) == AppendChildren(Drop(ns, n), newParent, [n])
  {
    var detached := ReplaceInParent(ns, n, []);
    var a := AppendChildren(detached, newParent, [n]);
    var b := AppendChildren(Drop(ns, n), newParent, [n]);
    SetParentsAt(detached, [n], Some(newParent), n);
    SetParentsAt(Drop(ns, n), [n], Some(newParent), n);
    forall k | 0 <= k < |ns| ensures a[k] == b[k] {
      SetParentsAt(detached, [n], Some(newParent), k);
      SetParentsAt(Drop(ns, n), [n], Some(newParent), k);
    }
  }

  /**
    * `changeParent` without an index (or with index 0) in a well-formed
    * tree: the node leaves its old parent's list, ends the new parent's
    * list and points at the new parent; the tree stays well formed.
    */
  lemma ChangeParentAppends(ns: seq<Node>, n: nat, newParent: nat, index: Option<int>)
    requires WellFormed(ns) && n < |ns| && newParent < |ns| && n != newParent
    requires index.None? || index.value == 0
    ensures var r := ChangeParent(ns, n, newParent, index);
      WellFormed(r) && r[n].parent == Some(newParent) &&
      |r[newParent].children| > 0 && r[newParent].children[|r[newParent].children| - 1] == n &&
      (ns[n].parent.Some? && ns[n].parent != Some(newParent) ==>
         var p := ns[n].parent.value; n !in r[p].children && |r[p].children| == |ns[p].children| - 1)
  {
    ChangeParentIsDropThenAppend(ns, n, newParent, index);
    var dropped := Drop(ns, n);
    DropEffect(ns, n);
    DropKeepsWellFormed(ns, n);
    AppendKeepsWellFormed(dropped, newParent, [n]);
    AppendChildrenEffect(dropped, newParent, [n]);
    if ns[n].parent.Some? && ns[n].parent != Some(newParent) {
      var p := ns[n].parent.value;
      RemoveAtContents(ns[p].children, IndexOf(ns[p].children, n), n);
    }
  }

  /**
    * `changeParent` with a non-zero index: the node is spliced into the new
    * parent's list but its parent pointer is left as it was.
    */
  lemma ChangeParentAtIndexKeepsParent(ns: seq<Node>, n: nat, newParent: nat, index: int)
    requires Closed(ns) && n < |ns| && newParent < |ns| && index != 0
    ensures var r := ChangeParent(ns, n, newParent, Some(index));
      var detached := ReplaceInParent(ns, n, []);
      r[n].parent == ns[n].parent &&
      r[newParent].children == Splice(detached[newParent].children, index, 0, [n])
  {
  }

  /** Splicing one item over the node found in the parent's list is a single-position update. */
  lemma ReplaceInParentOne(ns: seq<Node>, n: nat, x: nat)
    requires Closed(ns) && n < |ns| && ns[n].parent.Some?
    requires n in ns[ns[n].parent.value].children
    ensures var p := ns[n].parent.value;
      var i := IndexOf(ns[p].children, n);
      var r := ReplaceInParent(ns, n, [x]);
      0 <= i < |ns[p].children| && ns[p].children[i] == n && |r| == |ns| &&
      r[p] == ns[p].(children := ns[p].children[i := x]) &&
      (forall k :: 0 <= k < |ns| && k != p ==> r[k] == ns[k])
  {
    var p := ns[n].parent.value;
    var siblings := ns[p].children;
    ReplaceInParentFound(ns, n, [x]);
    var i := IndexOf(siblings, n);
    assert siblings[..i] + [x] + siblings[i + 1..] == siblings[i := x];
  }

  /**
    * `moveDeeper(newParent)`, when the parent lists the node: `newParent`
    * takes the node's place, so the parent keeps its number of children;
    * the node ends `newParent`'s list and points at it. `newParent`'s own
    * parent pointer is not updated.
    */
  lemma MoveDeeperEffect(ns: seq<Node>, n: nat, newParent: nat)
    requires Closed(ns) && n < |ns| && newParent < |ns| && n != newParent
    requires ns[n].parent.Some? ==> var p := ns[n].parent.value;
      n in ns[p].children && p != newParent && p != n
    ensures var r := MoveDeeper(ns, n, newParent);
      |r| == |ns| && r[n].parent == Some(newParent) && r[newParent].children == ns[newParent].children + [n] &&
      r[newParent].parent == ns[newParent].parent &&
      (ns[n].parent.Some? ==> var p := ns[n].parent.value;
        var i := IndexOf(ns[p].children, n);
        0 <= i && ns[p].children[i] == n && |r[p].children| == |ns[p].children| &&
        r[p].children == ns[p].children[i := newParent])
  {
    var replaced := ReplaceInParent(ns, n, [newParent]);
    if ns[n].parent.Some? {
      ReplaceInParentOne(ns, n, newParent);
    }
    PushUnder(replaced, n, newParent);
  }

  /** The last two steps of `moveDeeper`, on any arena: push under `newParent`, then point at it. */
  lemma PushUnder(ns: seq<Node>, n: nat, newParent: nat)
    requires n < |ns| && newParent < |ns| && n != newParent
    ensures var pushed := SetChildren(ns, newParent, ns[newParent].children + [n]);
      var r := SetParent(pushed, n, Some(newParent));
      |r| == |ns| && r[n] == ns[n].(parent := Some(newParent)) &&
      r[newParent] == ns[newParent].(children := ns[newParent].children + [n]) &&
      (forall k :: 0 <= k < |ns| && k != n && k != newParent ==> r[k] == ns[k])
  {
  }

  /**
    * `replaceWith(node)`, when the parent lists this node: `node` takes its
    * place, so the parent keeps its number of children, and this node has
    * no parent. `node`'s parent pointer is not updated.
    */
  lemma ReplaceWithEffect(ns: seq<Node>, n: nat, node: nat)
    requires Closed(ns) && n < |ns| && node < |ns| && n != node
    requires ns[n].parent.Some? ==> var p := ns[n].parent.value; n in ns[p].children && p != n
    ensures var r := ReplaceWith(ns, n, node);
      |r| == |ns| && r[n] == ns[n].(parent := None) && r[node].parent == ns[node].parent &&
      (ns[n].parent.Some? ==> var p := ns[n].parent.value;
        var i := IndexOf(ns[p].children, n);
        0 <= i && ns[p].children[i] == n && |r[p].children| == |ns[p].children| &&
        r[p].children == ns[p].children[i := node])
  {
    if ns[n].parent.Some? {
      ReplaceInParentOne(ns, n, node);
    }
  }

  /**
    * The constructor: the new node is the last one, with the given parent
    * and no children; a parent lists it last; nothing else changes.
    */
  lemma NewNodeEffect(ns: seq<Node>, parent: Option<nat>)
    requires Closed(ns) && (parent.Some? ==> parent.value < |ns|)
    ensures var r := NewNode(ns, parent);
      |r| == |ns| + 1 && r[|ns|] == Node(parent, []) && Closed(r) &&
      (parent.Some? ==> r[parent.value].children == ns[parent.value].children + [|ns|]) &&
      (forall k :: 0 <= k < |ns| && Some(k) != parent ==> r[k] == ns[k])
  {
    var added := ns + [Node(parent, [])];
    assert Closed(added) by {
      forall k | 0 <= k < |added|
        ensures (added[k].parent.Some? ==> added[k].parent.value < |added|) &&
                (forall c :: c in added[k].children ==> c < |added|)
      {
        if k < |ns| { assert added[k] == ns[k]; }
      }
    }
    if parent.Some? {
      AppendChildrenEffect(added, parent.value, [|ns|]);
    }
  }

  /** Constructing a node keeps a well-formed tree well formed. */
  lemma NewNodeKeepsWellFormed(ns: seq<Node>, parent: Option<nat>)
    requires WellFormed(ns) && (parent.Some? ==> parent.value < |ns|)
    ensures WellFormed(NewNode(ns, parent))
  {
    var root := ns + [Node(None, [])];
    assert WellFormed(root) by {
      assert Closed(root) by {
        forall k | 0 <= k < |root|
          ensures (root[k].parent.Some? ==> root[k].parent.value < |root|) &&
                  (forall c :: c in root[k].children ==> c < |root|)
        {
          if k < |ns| { assert root[k] == ns[k]; }
        }
      }
      assert ChildrenPointBack(root) by {
        forall q, c | 0 <= q < |root| && c in root[q].children ensures root[c].parent == Some(q) {
          assert q < |ns| && c in ns[q].children;
        }
      }
      assert ParentsListChild(root) by {
        forall c | 0 <= c < |root| && root[c].parent.Some? ensures c in root[root[c].parent.value].children {
          assert c < |ns| && root[c] == ns[c];
        }
      }
      assert ListsDistinct(root) by {
        forall q | 0 <= q < |root| ensures Distinct(root[q].children) {
          if q < |ns| { assert root[q] == ns[q]; }
        }
      }
    }
    if parent.Some? {
      var p := parent.value;
      var added := ns + [Node(parent, [])];
      AppendChildrenEffect(added, p, [|ns|]);
      AppendChildrenEffect(root, p, [|ns|]);
      assert NewNode(ns, parent) == AppendChildren(root, p, [|ns|]);
      AppendKeepsWellFormed(root, p, [|ns|]);
    }
  }

  // ----- Reading the tree -----

  /** `isRoot`: no parent. */
  predicate IsRoot(ns: seq<Node>, n: nat)
    requires n < |ns|
  {
    ns[n].parent.None?
  }

  /** `isLeaf`: no children. */
  predicate IsLeaf(ns: seq<Node>, n: nat)
    requires n < |ns|
  {
    |ns[n].children| == 0
  }

  /** `isBranch`: neither a root nor a leaf. */
  predicate IsBranch(ns: seq<Node>, n: nat)
    requires n < |ns|
  {
    !(IsRoot(ns, n) || IsLeaf(ns, n))
  }

  /**
    * A branch is a node with both a parent and children; every node is a
    * root, a leaf or a branch, and a lone node is both a root and a leaf.
    */
  lemma ReadersClassify(ns: seq<Node>, n: nat)
    requires n < |ns|
    ensures IsBranch(ns, n) <==> ns[n].parent.Some? && |ns[n].children| > 0
    ensures IsRoot(ns, n) || IsLeaf(ns, n) || IsBranch(ns, n)
    ensures IsBranch(ns, n) ==> !IsRoot(ns, n) && !IsLeaf(ns, n)
    ensures IsRoot(ns, n) && IsLeaf(ns, n) <==> ns[n] == Node(None, [])
  {
  }

  /** `index`: nothing for a root, else where `indexOf` finds the node among its parent's children. */
  function Index(ns: seq<Node>, n: nat): (r: Option<int>)
    requires Closed(ns) && n < |ns|
    ensures r.None? <==> ns[n].parent.None?
  {
    match ns[n].parent
    case None => None
    case Some(p) => Some(IndexOf(ns[p].children, n))
  }

  /** `nextSameLevel`: the parent's child after this one, if any. */
  function NextSameLevel(ns: seq<Node>, n: nat): (r: Option<nat>)
    requires Closed(ns) && n < |ns|
    ensures r.Some? ==> r.value < |ns|
  {
    match ns[n].parent
    case None => None
    case Some(p) => At(ns[p].children, IndexOf(ns[p].children, n) + 1)
  }

  /** `prevSameLevel`: the parent's child before this one, if any. */
  function PrevSameLevel(ns: seq<Node>, n: nat): (r: Option<nat>)
    requires Closed(ns) && n < |ns|
    ensures r.Some? ==> r.value < |ns|
  {
    match ns[n].parent
    case None => None
    case Some(p) => At(ns[p].children, IndexOf(ns[p].children, n) - 1)
  }

  /** In a well-formed tree a node other than a root is found at its own position among its siblings. */
  lemma IndexFindsNode(ns: seq<Node>, n: nat)
    requires WellFormed(ns) && n < |ns|
    ensures Index(ns, n).None? <==> IsRoot(ns, n)
    ensures Index(ns, n).Some? ==> var i := Index(ns, n).value;
      0 <= i < |ns[ns[n].parent.value].children| && ns[ns[n].parent.value].children[i] == n
  {
  }

  /**
    * In a well-formed tree the sibling steps undo each other, and a
    * sibling has the same parent.
    */
  lemma SiblingsInverse(ns: seq<Node>, n: nat, m: nat)
    requires WellFormed(ns) && n < |ns| && m < |ns|
    ensures NextSameLevel(ns, n) == Some(m) <==> PrevSameLevel(ns, m) == Some(n)
    ensures NextSameLevel(ns, n) == Some(m) ==> ns[m].parent == ns[n].parent
  {
    if NextSameLevel(ns, n) == Some(m) {
      var p := ns[n].parent.value;
      var cs := ns[p].children;
      var i := IndexOf(cs, n);
      assert cs[i + 1] == m && ns[m].parent == Some(p);
      assert Distinct(cs);
      IndexOfDistinct(cs, i + 1);
    }
    if PrevSameLevel(ns, m) == Some(n) {
      var p := ns[m].parent.value;
      var cs := ns[p].children;
      var j := IndexOf(cs, m);
      assert cs[j - 1] == n && ns[n].parent == Some(p);
      IndexOfDistinct(cs, j - 1);
    }
  }

  /** In a list without repeats, `indexOf` finds each element at its own position. */
  lemma IndexOfDistinct(s: seq<nat>, i: nat)
    requires Distinct(s) && i < |s|
    ensures IndexOf(s, s[i]) == i
  {
    var r := IndexOf(s, s[i]);
    assert s[r] == s[i];
  }

  // ----- Walking up -----

  /** Following parent pointers from `n` reaches a root within `k` steps. */
  predicate RootedWithin(ns: seq<Node>, n: nat, k: nat)
    requires Closed(ns) && n < |ns|
    decreases k
  {
    ns[n].parent.None? || (k > 0 && RootedWithin(ns, ns[n].parent.value, k - 1))
  }

  /** The parent chain from `n` ends (it has no cycle, so it is no longer than the arena). */
  predicate Rooted(ns: seq<Node>, n: nat)
    requires Closed(ns) && n < |ns|
  {
    RootedWithin(ns, n, |ns|)
  }

  /** The node, its parent, its parent's parent, ... up to the root. */
  function Ancestors(ns: seq<Node>, n: nat, k: nat): (a: seq<nat>)
    requires Closed(ns) && n < |ns| && RootedWithin(ns, n, k)
    ensures |a| > 0 && a[0] == n
    ensures forall i :: 0 <= i < |a| ==> a[i] < |ns|
    decreases k
  {
    match ns[n].parent
    case None => [n]
    case Some(p) => [n] + Ancestors(ns, p, k - 1)
  }

  /** A larger step bound is still a bound. */
  lemma {:induction false} RootedWithinMore(ns: seq<Node>, n: nat, k: nat, m: nat)
    requires Closed(ns) && n < |ns| && RootedWithin(ns, n, k) && k <= m
    ensures RootedWithin(ns, n, m)
    decreases k
  {
    if ns[n].parent.Some? {
      RootedWithinMore(ns, ns[n].parent.value, k - 1, m - 1);
    }
  }

  /** The chain does not depend on the step bound used to build it. */
  lemma {:induction false} AncestorsAnyBound(ns: seq<Node>, n: nat, k: nat, m: nat)
    requires Closed(ns) && n < |ns| && RootedWithin(ns, n, k) && RootedWithin(ns, n, m)
    ensures Ancestors(ns, n, k) == Ancestors(ns, n, m)
    decreases k
  {
    if ns[n].parent.Some? {
      AncestorsAnyBound(ns, ns[n].parent.value, k - 1, m - 1);
    }
  }

  /** A rooted node's parent is rooted, and its chain is the node followed by the parent's chain. */
  lemma ParentRooted(ns: seq<Node>, n: nat)
    requires Closed(ns) && n < |ns| && Rooted(ns, n) && ns[n].parent.Some?
    ensures Rooted(ns, ns[n].parent.value)
    ensures Ancestors(ns, n, |ns|) == [n] + Ancestors(ns, ns[n].parent.value, |ns|)
  {
    var p := ns[n].parent.value;
    RootedWithinMore(ns, p, |ns| - 1, |ns|);
    AncestorsAnyBound(ns, p, |ns| - 1, |ns|);
  }

  /** The chain goes from each node to its parent and ends at a root. */
  lemma {:induction false} AncestorsChain(ns: seq<Node>, n: nat, k: nat)
    requires Closed(ns) && n < |ns| && RootedWithin(ns, n, k)
    ensures var a := Ancestors(ns, n, k);
      (forall i :: 0 <= i < |a| - 1 ==> ns[a[i]].parent == Some(a[i + 1])) &&
      ns[a[|a| - 1]].parent.None?
    decreases k
  {
    if ns[n].parent.Some? {
      var p := ns[n].parent.value;
      AncestorsChain(ns, p, k - 1);
      var a := Ancestors(ns, n, k);
      assert a[1..] == Ancestors(ns, p, k - 1);
    }
  }

  /**
    * `nextUp`: the next sibling, or else the parent's `nextUp`; nothing
    * for a root.
    */
  function NextUpWithin(ns: seq<Node>, n: nat, k: nat): Option<nat>
    requires Closed(ns) && n < |ns| && RootedWithin(ns, n, k)
    decreases k
  {
    match ns[n].parent
    case None => None
    case Some(p) =>
      var nextInParent := NextSameLevel(ns, n);
      if nextInParent.Some? then nextInParent else NextUpWithin(ns, p, k - 1)
  }

  function NextUp(ns: seq<Node>, n: nat): Option<nat>
    requires Closed(ns) && n < |ns| && Rooted(ns, n)
  {
    NextUpWithin(ns, n, |ns|)
  }

  /**
    * `nextUp` is the next sibling of the nearest node, among this node and
    * its ancestors, that has one.
    */
  lemma {:induction false} NextUpNearest(ns: seq<Node>, n: nat, k: nat, i: nat)
    requires Closed(ns) && n < |ns| && RootedWithin(ns, n, k)
    requires var a := Ancestors(ns, n, k);
      i < |a| && NextSameLevel(ns, a[i]).Some? && forall j :: 0 <= j < i ==> NextSameLevel(ns, a[j]).None?
    ensures NextUpWithin(ns, n, k) == NextSameLevel(ns, Ancestors(ns, n, k)[i])
    decreases k
  {
    var a := Ancestors(ns, n, k);
    if i > 0 {
      assert NextSameLevel(ns, a[0]).None?;
      var p := ns[n].parent.value;
      var b := Ancestors(ns, p, k - 1);
      assert a == [n] + b;
      assert forall j :: 0 <= j < i - 1 ==> NextSameLevel(ns, b[j]).None? by {
        forall j | 0 <= j < i - 1 ensures NextSameLevel(ns, b[j]).None? {
          assert b[j] == a[j + 1];
        }
      }
      assert b[i - 1] == a[i];
      NextUpNearest(ns, p, k - 1, i - 1);
    }
  }

  /** No node of `a` has a next sibling. */
  predicate NoNextAmong(ns: seq<Node>, a: seq<nat>)
    requires Closed(ns)
  {
    forall i :: 0 <= i < |a| ==> a[i] < |ns| && NextSameLevel(ns, a[i]).None?
  }

  lemma NoNextCons(ns: seq<Node>, x: nat, b: seq<nat>)
    requires Closed(ns) && x < |ns|
    ensures NoNextAmong(ns, [x] + b) <==> NextSameLevel(ns, x).None? && NoNextAmong(ns, b)
  {
    var a := [x] + b;
    if NoNextAmong(ns, a) {
      assert a[0] == x;
      forall i | 0 <= i < |b| ensures b[i] < |ns| && NextSameLevel(ns, b[i]).None? {
        assert b[i] == a[i + 1];
      }
    }
    if NextSameLevel(ns, x).None? && NoNextAmong(ns, b) {
      forall i | 0 <= i < |a| ensures a[i] < |ns| && NextSameLevel(ns, a[i]).None? {
        if i > 0 {
          assert a[i] == b[i - 1];
        }
      }
    }
  }

  /** `nextUp` gives nothing exactly when neither this node nor any ancestor has a next sibling. */
  lemma {:induction false} NextUpNone(ns: seq<Node>, n: nat, k: nat)
    requires Closed(ns) && n < |ns| && RootedWithin(ns, n, k)
    ensures NextUpWithin(ns, n, k).None? <==> NoNextAmong(ns, Ancestors(ns, n, k))
    decreases k
  {
    if ns[n].parent.None? {
      assert Ancestors(ns, n, k) == [n] + [];
      NoNextCons(ns, n, []);
    } else {
      var p := ns[n].parent.value;
      var b := Ancestors(ns, p, k - 1);
      assert Ancestors(ns, n, k) == [n] + b;
      NoNextCons(ns, n, b);
      NextUpNone(ns, p, k - 1);
      assert NextUpWithin(ns, n, k) == if NextSameLevel(ns, n).Some? then NextSameLevel(ns, n) else NextUpWithin(ns, p, k - 1);
    }
  }

  /** `next`: the first child, or else `nextUp`. */
  function Next(ns: seq<Node>, n: nat): Option<nat>
    requires Closed(ns) && n < |ns| && (IsLeaf(ns, n) ==> Rooted(ns, n))
  {
    if |ns[n].children| > 0 then Some(ns[n].children[0]) else NextUp(ns, n)
  }

  /** `previousUp`: the previous sibling, or else the parent; nothing for a root. */
  function PreviousUp(ns: seq<Node>, n: nat): (r: Option<nat>)
    requires Closed(ns) && n < |ns|
    ensures r.None? <==> IsRoot(ns, n)
    ensures r.Some? ==> r.value < |ns|
  {
    match ns[n].parent
    case None => None
    case Some(p) =>
      var prevInParent := At(ns[p].children, IndexOf(ns[p].children, n) - 1);
      if prevInParent.Some? then prevInParent else Some(p)
  }

  /**
    * In a well-formed tree `previousUp` steps back to the sibling whose
    * next sibling is the node, or up to the parent when the node is its
    * parent's first child.
    */
  lemma PreviousUpSteps(ns: seq<Node>, n: nat)
    requires WellFormed(ns) && n < |ns|
    ensures Index(ns, n) == Some(0) ==> PreviousUp(ns, n) == ns[n].parent
    ensures !IsRoot(ns, n) && Index(ns, n) != Some(0) ==>
      PreviousUp(ns, n).Some? && NextSameLevel(ns, PreviousUp(ns, n).value) == Some(n)
  {
    IndexFindsNode(ns, n);
    if !IsRoot(ns, n) && Index(ns, n) != Some(0) {
      var p := ns[n].parent.value;
      var i := Index(ns, n).value;
      var m := ns[p].children[i - 1];
      assert PrevSameLevel(ns, n) == Some(m);
      SiblingsInverse(ns, m, n);
    }
  }

  /**
    * `prev`: the previous sibling's last child (one level down only), or
    * that sibling when it has none, or else `previousUp`.
    */
  function Prev(ns: seq<Node>, n: nat): Option<nat>
    requires Closed(ns) && n < |ns|
  {
    match PrevSameLevel(ns, n)
    case Some(s) =>
      var count := |ns[s].children|;
      if count > 0 then Some(ns[s].children[count - 1]) else Some(s)
    case None => PreviousUp(ns, n)
  }

  /**
    * In a well-formed tree `prev` undoes `next` whenever `next` steps down
    * to the first child or across to the next sibling.
    */
  lemma PrevUndoesNext(ns: seq<Node>, n: nat)
    requires WellFormed(ns) && n < |ns| && Rooted(ns, n)
    requires !IsLeaf(ns, n) || NextSameLevel(ns, n).Some?
    ensures Next(ns, n).Some? && Next(ns, n).value < |ns| && Prev(ns, Next(ns, n).value) == Some(n)
  {
    if !IsLeaf(ns, n) {
      var c := ns[n].children[0];
      assert c in ns[n].children;
      IndexOfDistinct(ns[n].children, 0);
    } else {
      var m := NextSameLevel(ns, n).value;
      SiblingsInverse(ns, n, m);
    }
  }

  /** Root 0 over 1 and 3, 1 over 2, 2 over 4. */
  function Deep(): seq<Node>
  {
    [Node(None, [1, 3]), Node(Some(0), [2]), Node(Some(1), [4]), Node(Some(0), []), Node(Some(2), [])]
  }

  lemma DeepWellFormed()
    ensures WellFormed(Deep()) && Rooted(Deep(), 4)
  {
    var ns := Deep();
    assert Closed(ns) by {
      forall k | 0 <= k < |ns| ensures forall c :: c in ns[k].children ==> c < |ns| {
        assert k == 0 || k == 1 || k == 2 || k == 3 || k == 4;
      }
    }
    assert ChildrenPointBack(ns) by {
      forall p, c | 0 <= p < |ns| && c in ns[p].children ensures ns[c].parent == Some(p) {
        assert p == 0 || p == 1 || p == 2 || p == 3 || p == 4;
      }
    }
    assert ParentsListChild(ns) by {
      forall c | 0 <= c < |ns| && ns[c].parent.Some? ensures c in ns[ns[c].parent.value].children {
        assert c == 1 || c == 2 || c == 3 || c == 4;
      }
    }
    assert ListsDistinct(ns) by {
      forall p | 0 <= p < |ns| ensures Distinct(ns[p].children) {
        assert p == 0 || p == 1 || p == 2 || p == 3 || p == 4;
      }
    }
    assert RootedWithin(ns, 1, 3);
    assert RootedWithin(ns, 4, |ns|);
  }

  /**
    * `prev` looks only one level down: in `Deep()`, `next` goes from 4 to 3
    * but `prev` goes from 3 to 2, not back to 4.
    */
  lemma PrevIsOneLevelDeep()
    ensures Closed(Deep()) && Rooted(Deep(), 4)
    ensures Next(Deep(), 4) == Some(3) && Prev(Deep(), 3) == Some(2)
  {
    var ns := Deep();
    DeepWellFormed();
    assert IndexOf(ns[2].children, 4) == 0;
    assert NextSameLevel(ns, 4) == None;
    assert IndexOf(ns[1].children, 2) == 0;
    assert NextSameLevel(ns, 2) == None;
    assert IndexOf(ns[0].children, 1) == 0;
    assert NextSameLevel(ns, 1) == Some(3);
    assert NextUpWithin(ns, 4, 5) == Some(3);
    assert IndexOf(ns[0].children, 3) == 1;
    assert PrevSameLevel(ns, 3) == Some(1);
  }

  // ----- Walking down -----

  /** Below `n` every path of children ends within `k` steps (no cycle through the children lists). */
  predicate BoundedBelow(ns: seq<Node>, n: nat, k: nat)
    requires Closed(ns) && n < |ns|
    decreases k
  {
    |ns[n].children| == 0 || (k > 0 && forall c :: c in ns[n].children ==> BoundedBelow(ns, c, k - 1))
  }

  predicate AllBoundedBelow(ns: seq<Node>, cs: seq<nat>, k: nat)
    requires Closed(ns)
  {
    forall c :: c in cs ==> c < |ns| && BoundedBelow(ns, c, k)
  }

  lemma ChildrenBounded(ns: seq<Node>, n: nat, k: nat)
    requires Closed(ns) && n < |ns| && BoundedBelow(ns, n, k)
    ensures |ns[n].children| == 0 || (k > 0 && AllBoundedBelow(ns, ns[n].children, k - 1))
  {
  }

  /** The two callbacks handed to the outermost `walk`. */
  datatype Callback = BeforeChildren | AfterChildren

  /** One callback invocation: which of the two callbacks, on which node. */
  datatype Call = Call(callback: Callback, node: nat)

  /**
    * `walk(node, first, second)` calls `first` on the node, walks each child
    * with the two callbacks SWAPPED, then calls `second` on the node. The
    * result is the sequence of calls made.
    */
  function Walk(ns: seq<Node>, n: nat, first: Callback, second: Callback, k: nat): (t: seq<Call>)
    requires Closed(ns) && n < |ns| && BoundedBelow(ns, n, k)
    ensures |t| >= 2 && t[0] == Call(first, n) && t[|t| - 1] == Call(second, n)
    decreases k, 1, 0
  {
    [Call(first, n)] + WalkEach(ns, ns[n].children, second, first, k) + [Call(second, n)]
  }

  /** `forEach` over the children, each child walked with `first` and `second` as given. */
  function WalkEach(ns: seq<Node>, cs: seq<nat>, first: Callback, second: Callback, k: nat): seq<Call>
    requires Closed(ns) && (|cs| == 0 || (k > 0 && AllBoundedBelow(ns, cs, k - 1)))
    decreases k, 0, |cs|
  {
    if cs == [] then []
    else
      assert cs[0] in cs;
      Walk(ns, cs[0], first, second, k - 1) + WalkEach(ns, cs[1..], first, second, k)
  }

  /** `flatten`: the node's children, then each child's flattening, in order. */
  function Flatten(ns: seq<Node>, n: nat, k: nat): seq<nat>
    requires Closed(ns) && n < |ns| && BoundedBelow(ns, n, k)
    decreases k, 1
  {
    ns[n].children + FlattenEach(ns, ns[n].children, k)
  }

  function FlattenEach(ns: seq<Node>, cs: seq<nat>, k: nat): seq<nat>
    requires Closed(ns) && (|cs| == 0 || (k > 0 && AllBoundedBelow(ns, cs, k - 1)))
    decreases k, 0, |cs|
  {
    if cs == [] then []
    else
      assert cs[0] in cs;
      Flatten(ns, cs[0], k - 1) + FlattenEach(ns, cs[1..], k)
  }

  /** The node of one call, when it is a call of `cb`. */
  function Picked(c: Call, cb: Callback): seq<nat> {
    if c.callback == cb then [c.node] else []
  }

  /** The nodes one callback was called on, in call order. */
  function CalledOn(t: seq<Call>, cb: Callback): seq<nat>
  {
    if t == [] then []
    else Picked(t[0], cb) + CalledOn(t[1..], cb)
  }

  lemma {:induction false} CalledOnAppend(t: seq<Call>, u: seq<Call>, cb: Callback)
    ensures CalledOn(t + u, cb) == CalledOn(t, cb) + CalledOn(u, cb)
  {
    if t == [] {
      assert t + u == u;
    } else {
      assert (t + u)[1..] == t[1..] + u;
      CalledOnAppend(t[1..], u, cb);
    }
  }

  /**
    * Whichever way round the callbacks are passed, each of the two is
    * called exactly once on the node and on every node `flatten` lists
    * (counted with multiplicity, order aside).
    */
  lemma {:induction false} WalkVisitsFlatten(ns: seq<Node>, n: nat, first: Callback, second: Callback, k: nat, cb: Callback)
    requires Closed(ns) && n < |ns| && BoundedBelow(ns, n, k)
    requires first != second && (cb == first || cb == second)
    ensures multiset(CalledOn(Walk(ns, n, first, second, k), cb)) == multiset([n] + Flatten(ns, n, k))
    decreases k, 1
  {
    var cs := ns[n].children;
    ChildrenBounded(ns, n, k);
    var inner := WalkEach(ns, cs, second, first, k);
    CalledOnWalk(ns, n, first, second, k, cb);
    WalkEachVisitsFlatten(ns, cs, second, first, k, cb);
    var below := CalledOn(inner, cb);
    var fe := FlattenEach(ns, cs, k);
    assert Flatten(ns, n, k) == cs + fe;
    BracketMultiset(CalledOn(Walk(ns, n, first, second, k), cb), below, n, cs + fe);
  }

  lemma BracketMultiset(w: seq<nat>, inner: seq<nat>, n: nat, rest: seq<nat>)
    requires w == [n] + inner || w == inner + [n]
    requires multiset(inner) == multiset(rest)
    ensures multiset(w) == multiset([n] + rest)
  {
    if w == [n] + inner {
      assert multiset(w) == multiset([n]) + multiset(inner);
    } else {
      assert multiset(w) == multiset(inner) + multiset([n]);
    }
  }

  /** The calls on the node itself bracket the calls on its children. */
  lemma CalledOnWalk(ns: seq<Node>, n: nat, first: Callback, second: Callback, k: nat, cb: Callback)
    requires Closed(ns) && n < |ns| && BoundedBelow(ns, n, k)
    requires first != second
    ensures cb == first ==>
      CalledOn(Walk(ns, n, first, second, k), cb) == [n] + CalledOn(WalkEach(ns, ns[n].children, second, first, k), cb)
    ensures cb == second ==>
      CalledOn(Walk(ns, n, first, second, k), cb) == CalledOn(WalkEach(ns, ns[n].children, second, first, k), cb) + [n]
  {
    ChildrenBounded(ns, n, k);
    var inner := WalkEach(ns, ns[n].children, second, first, k);
    assert Walk(ns, n, first, second, k) == [Call(first, n)] + inner + [Call(second, n)];
    CalledOnBracket(Walk(ns, n, first, second, k), inner, Call(first, n), Call(second, n), cb);
  }

  lemma CalledOnBracket(w: seq<Call>, inner: seq<Call>, x: Call, y: Call, cb: Callback)
    requires w == [x] + inner + [y]
    ensures CalledOn(w, cb) == Picked(x, cb) + CalledOn(inner, cb) + Picked(y, cb)
  {
    CalledOnAppend([x] + inner, [y], cb);
    CalledOnAppend([x], inner, cb);
    assert [x][1..] == [] && [y][1..] == [];
  }

  lemma AllBoundedBelowSplit(ns: seq<Node>, cs: seq<nat>, k: nat)
    requires Closed(ns) && cs != [] && AllBoundedBelow(ns, cs, k)
    ensures cs[0] < |ns| && BoundedBelow(ns, cs[0], k) && AllBoundedBelow(ns, cs[1..], k)
  {
    assert cs[0] in cs;
    forall c | c in cs[1..] ensures c < |ns| && BoundedBelow(ns, c, k) {
      assert c in cs;
    }
  }

  lemma {:induction false} WalkEachVisitsFlatten(ns: seq<Node>, cs: seq<nat>, first: Callback, second: Callback, k: nat, cb: Callback)
    requires Closed(ns) && (|cs| == 0 || (k > 0 && AllBoundedBelow(ns, cs, k - 1)))
    requires first != second && (cb == first || cb == second)
    ensures multiset(CalledOn(WalkEach(ns, cs, first, second, k), cb)) == multiset(cs + FlattenEach(ns, cs, k))
    decreases k, 0, |cs|
  {
    if cs != [] {
      AllBoundedBelowSplit(ns, cs, k - 1);
      var head := Walk(ns, cs[0], first, second, k - 1);
      var tail := WalkEach(ns, cs[1..], first, second, k);
      var fhead := Flatten(ns, cs[0], k - 1);
      var ftail := FlattenEach(ns, cs[1..], k);
      assert WalkEach(ns, cs, first, second, k) == head + tail;
      assert FlattenEach(ns, cs, k) == fhead + ftail;
      CalledOnAppend(head, tail, cb);
      WalkVisitsFlatten(ns, cs[0], first, second, k - 1, cb);
      WalkEachVisitsFlatten(ns, cs[1..], first, second, k, cb);
      InterleaveMultiset(CalledOn(head, cb), CalledOn(tail, cb), cs, fhead, ftail);
    }
  }

  lemma InterleaveMultiset(a: seq<nat>, b: seq<nat>, cs: seq<nat>, fa: seq<nat>, fb: seq<nat>)
    requires |cs| > 0
    requires multiset(a) == multiset([cs[0]] + fa) && multiset(b) == multiset(cs[1..] + fb)
    ensures multiset(a + b) == multiset(cs + (fa + fb))
  {
    assert cs == [cs[0]] + cs[1..];
    assert multiset(a + b) == multiset(a) + multiset(b);
    assert multiset(cs + (fa + fb)) == multiset([cs[0]]) + multiset(cs[1..]) + multiset(fa) + multiset(fb);
  }

  /**
    * Everything `flatten` lists lies below the node: its parent pointer
    * names the node itself or another listed node.
    */
  lemma {:induction false} FlattenBelow(ns: seq<Node>, n: nat, k: nat)
    requires WellFormed(ns) && n < |ns| && BoundedBelow(ns, n, k)
    ensures forall x :: x in Flatten(ns, n, k) ==>
      x < |ns| && ns[x].parent.Some? && (ns[x].parent.value == n || ns[x].parent.value in Flatten(ns, n, k))
    decreases k, 1
  {
    var cs := ns[n].children;
    ChildrenBounded(ns, n, k);
    FlattenEachBelow(ns, cs, k);
    forall x | x in Flatten(ns, n, k)
      ensures x < |ns| && ns[x].parent.Some? && (ns[x].parent.value == n || ns[x].parent.value in Flatten(ns, n, k))
    {
      if x in cs {
        assert ns[x].parent == Some(n);
      } else {
        assert x in FlattenEach(ns, cs, k);
      }
    }
  }

  lemma {:induction false} FlattenEachBelow(ns: seq<Node>, cs: seq<nat>, k: nat)
    requires WellFormed(ns) && (|cs| == 0 || (k > 0 && AllBoundedBelow(ns, cs, k - 1)))
    ensures forall x :: x in FlattenEach(ns, cs, k) ==>
      x < |ns| && ns[x].parent.Some? && ns[x].parent.value in cs + FlattenEach(ns, cs, k)
    decreases k, 0, |cs|
  {
    if cs != [] {
      assert cs[0] in cs;
      var head := Flatten(ns, cs[0], k - 1);
      var tail := FlattenEach(ns, cs[1..], k);
      FlattenBelow(ns, cs[0], k - 1);
      FlattenEachBelow(ns, cs[1..], k);
      assert FlattenEach(ns, cs, k) == head + tail;
      forall x | x in head + tail
        ensures x < |ns| && ns[x].parent.Some? && ns[x].parent.value in cs + head + tail
      {
        if x in head {
          var q := ns[x].parent.value;
          assert q == cs[0] || q in head;
        } else {
          assert x in tail;
          var q := ns[x].parent.value;
          assert q in cs[1..] + tail;
          assert q in cs[1..] ==> q in cs;
        }
      }
    }
  }

  // ----- What `flatten` lists -----

  /** Following parent pointers up from `x` reaches `n` within `d` steps: `x` lies below `n`. */
  predicate Below(ns: seq<Node>, x: nat, n: nat, d: nat)
    requires Closed(ns) && x < |ns|
    decreases d
  {
    d > 0 && ns[x].parent.Some? && (ns[x].parent.value == n || Below(ns, ns[x].parent.value, n, d - 1))
  }

  lemma {:induction false} BelowMore(ns: seq<Node>, x: nat, n: nat, d: nat, e: nat)
    requires Closed(ns) && x < |ns| && Below(ns, x, n, d) && d <= e
    ensures Below(ns, x, n, e)
    decreases d
  {
    var p := ns[x].parent.value;
    if p != n {
      BelowMore(ns, p, n, d - 1, e - 1);
    }
  }

  /** Below `a`, whose parent is `b`, is below `b` one step further up. */
  lemma {:induction false} BelowThenParent(ns: seq<Node>, x: nat, a: nat, b: nat, d: nat)
    requires Closed(ns) && x < |ns| && a < |ns| && Below(ns, x, a, d) && ns[a].parent == Some(b)
    ensures Below(ns, x, b, d + 1)
    decreases d
  {
    var p := ns[x].parent.value;
    if p != a {
      BelowThenParent(ns, p, a, b, d - 1);
    }
  }

  /** There is one way up: of two nodes that `x` lies below, one is the other or lies below it. */
  lemma {:induction false} BelowBoth(ns: seq<Node>, x: nat, a: nat, b: nat, d: nat, e: nat)
    requires Closed(ns) && x < |ns| && a < |ns| && b < |ns| && Below(ns, x, a, d) && Below(ns, x, b, e)
    ensures a == b || Below(ns, a, b, e) || Below(ns, b, a, d)
    decreases d
  {
    var p := ns[x].parent.value;
    if p == a {
      if p != b {
        BelowMore(ns, a, b, e - 1, e);
      }
    } else if p == b {
      BelowMore(ns, b, a, d - 1, d);
    } else {
      BelowBoth(ns, p, a, b, d - 1, e - 1);
      if a != b {
        if Below(ns, a, b, e - 1) {
          BelowMore(ns, a, b, e - 1, e);
        } else {
          BelowMore(ns, b, a, d - 1, d);
        }
      }
    }
  }

  /** A larger depth bound is still a bound. */
  lemma {:induction false} BoundedBelowMore(ns: seq<Node>, n: nat, k: nat, m: nat)
    requires Closed(ns) && n < |ns| && BoundedBelow(ns, n, k) && k <= m
    ensures BoundedBelow(ns, n, m)
    decreases k
  {
    if |ns[n].children| > 0 {
      forall c | c in ns[n].children
        ensures c < |ns| && BoundedBelow(ns, c, m - 1)
      {
        BoundedBelowMore(ns, c, k - 1, m - 1);
      }
    }
  }

  /** The list's flattening holds each child's flattening. */
  lemma {:induction false} FlattenEachIncludes(ns: seq<Node>, cs: seq<nat>, k: nat, i: nat)
    requires Closed(ns) && k > 0 && AllBoundedBelow(ns, cs, k - 1) && i < |cs|
    ensures cs[i] < |ns| && BoundedBelow(ns, cs[i], k - 1)
    ensures forall x :: x in Flatten(ns, cs[i], k - 1) ==> x in FlattenEach(ns, cs, k)
    decreases i
  {
    assert cs[i] in cs;
    AllBoundedBelowSplit(ns, cs, k - 1);
    assert FlattenEach(ns, cs, k) == Flatten(ns, cs[0], k - 1) + FlattenEach(ns, cs[1..], k);
    if i > 0 {
      FlattenEachIncludes(ns, cs[1..], k, i - 1);
      assert cs[1..][i - 1] == cs[i];
    }
  }

  /** Whatever the list's flattening holds comes from one child's flattening. */
  lemma {:induction false} FlattenEachWitness(ns: seq<Node>, cs: seq<nat>, k: nat, x: nat) returns (i: nat)
    requires Closed(ns) && (|cs| == 0 || (k > 0 && AllBoundedBelow(ns, cs, k - 1)))
    requires x in FlattenEach(ns, cs, k)
    ensures k > 0 && i < |cs| && cs[i] < |ns| && BoundedBelow(ns, cs[i], k - 1) && x in Flatten(ns, cs[i], k - 1)
    decreases |cs|
  {
    assert cs != [];
    AllBoundedBelowSplit(ns, cs, k - 1);
    assert FlattenEach(ns, cs, k) == Flatten(ns, cs[0], k - 1) + FlattenEach(ns, cs[1..], k);
    if x in Flatten(ns, cs[0], k - 1) {
      i := 0;
    } else {
      var j := FlattenEachWitness(ns, cs[1..], k, x);
      i := j + 1;
      assert cs[1..][j] == cs[i];
    }
  }

  /** Whatever `flatten` lists is bounded below by one step less than the node. */
  lemma {:induction false} FlattenBounded(ns: seq<Node>, n: nat, k: nat, x: nat)
    requires Closed(ns) && n < |ns| && BoundedBelow(ns, n, k) && x in Flatten(ns, n, k)
    ensures k > 0 && x < |ns| && BoundedBelow(ns, x, k - 1)
    decreases k
  {
    var cs := ns[n].children;
    ChildrenBounded(ns, n, k);
    assert Flatten(ns, n, k) == cs + FlattenEach(ns, cs, k);
    if x !in cs {
      var i := FlattenEachWitness(ns, cs, k, x);
      FlattenBounded(ns, cs[i], k - 1, x);
      BoundedBelowMore(ns, x, k - 2, k - 1);
    }
  }

  /** The list does not depend on the depth bound used to build it. */
  lemma {:induction false} FlattenAnyBound(ns: seq<Node>, n: nat, k: nat, m: nat)
    requires Closed(ns) && n < |ns| && BoundedBelow(ns, n, k) && BoundedBelow(ns, n, m)
    ensures Flatten(ns, n, k) == Flatten(ns, n, m)
    decreases k, 1
  {
    ChildrenBounded(ns, n, k);
    ChildrenBounded(ns, n, m);
    FlattenEachAnyBound(ns, ns[n].children, k, m);
  }

  lemma {:induction false} FlattenEachAnyBound(ns: seq<Node>, cs: seq<nat>, k: nat, m: nat)
    requires Closed(ns) && (|cs| == 0 || (k > 0 && AllBoundedBelow(ns, cs, k - 1)))
    requires |cs| == 0 || (m > 0 && AllBoundedBelow(ns, cs, m - 1))
    ensures FlattenEach(ns, cs, k) == FlattenEach(ns, cs, m)
    decreases k, 0, |cs|
  {
    if cs != [] {
      AllBoundedBelowSplit(ns, cs, k - 1);
      AllBoundedBelowSplit(ns, cs, m - 1);
      FlattenAnyBound(ns, cs[0], k - 1, m - 1);
      FlattenEachAnyBound(ns, cs[1..], k, m);
    }
  }

  /**
    * `flatten` never lists the node itself: a node listed below itself
    * would be bounded below by one step less, and so on down to no steps.
    */
  lemma {:induction false} FlattenNotSelf(ns: seq<Node>, n: nat, k: nat)
    requires Closed(ns) && n < |ns| && BoundedBelow(ns, n, k)
    ensures n !in Flatten(ns, n, k)
    decreases k
  {
    if n in Flatten(ns, n, k) {
      FlattenBounded(ns, n, k, n);
      FlattenAnyBound(ns, n, k - 1, k);
      FlattenNotSelf(ns, n, k - 1);
    }
  }

  /** The children of a listed node are listed too. */
  lemma {:induction false} FlattenClosed(ns: seq<Node>, n: nat, k: nat, x: nat, c: nat)
    requires Closed(ns) && n < |ns| && BoundedBelow(ns, n, k) && x in Flatten(ns, n, k)
    requires x < |ns| && c in ns[x].children
    ensures c in Flatten(ns, n, k)
    decreases k
  {
    var cs := ns[n].children;
    ChildrenBounded(ns, n, k);
    assert Flatten(ns, n, k) == cs + FlattenEach(ns, cs, k);
    if x in cs {
      var i :| 0 <= i < |cs| && cs[i] == x;
      FlattenEachIncludes(ns, cs, k, i);
      assert Flatten(ns, x, k - 1) == ns[x].children + FlattenEach(ns, ns[x].children, k - 1);
    } else {
      var i := FlattenEachWitness(ns, cs, k, x);
      FlattenClosed(ns, cs[i], k - 1, x, c);
      FlattenEachIncludes(ns, cs, k, i);
    }
  }

  /** Everything `flatten` lists lies below the node, within the depth bound. */
  lemma {:induction false} FlattenListsBelow(ns: seq<Node>, n: nat, k: nat, x: nat)
    requires WellFormed(ns) && n < |ns| && BoundedBelow(ns, n, k) && x in Flatten(ns, n, k)
    ensures x < |ns| && Below(ns, x, n, k)
    decreases k
  {
    var cs := ns[n].children;
    ChildrenBounded(ns, n, k);
    assert Flatten(ns, n, k) == cs + FlattenEach(ns, cs, k);
    if x in cs {
      assert ns[x].parent == Some(n);
    } else {
      var i := FlattenEachWitness(ns, cs, k, x);
      FlattenListsBelow(ns, cs[i], k - 1, x);
      assert cs[i] in cs;
      BelowThenParent(ns, x, cs[i], n, k - 1);
    }
  }

  /** Everything below the node is listed, however far below. */
  lemma {:induction false} FlattenComplete(ns: seq<Node>, n: nat, k: nat, m: nat, d: nat)
    requires WellFormed(ns) && n < |ns| && BoundedBelow(ns, n, k) && m < |ns| && Below(ns, m, n, d)
    ensures m in Flatten(ns, n, k)
    decreases d
  {
    var p := ns[m].parent.value;
    assert m in ns[p].children;
    if p == n {
      assert Flatten(ns, n, k) == ns[n].children + FlattenEach(ns, ns[n].children, k);
    } else {
      FlattenComplete(ns, n, k, p, d - 1);
      FlattenClosed(ns, n, k, p, m);
    }
  }

  /** `flatten` lists exactly the nodes below `n`. */
  lemma FlattenIsBelow(ns: seq<Node>, n: nat, k: nat)
    requires WellFormed(ns) && n < |ns| && BoundedBelow(ns, n, k)
    ensures forall x: nat :: x in Flatten(ns, n, k) <==> x < |ns| && Below(ns, x, n, k)
  {
    forall x: nat
      ensures x in Flatten(ns, n, k) <==> x < |ns| && Below(ns, x, n, k)
    {
      if x in Flatten(ns, n, k) {
        FlattenListsBelow(ns, n, k, x);
      }
      if x < |ns| && Below(ns, x, n, k) {
        FlattenComplete(ns, n, k, x, k);
      }
    }
  }

  /** A node other than `n` whose chain of ancestors passes through `n` lies below `n`. */
  lemma {:induction false} AncestorsBelow(ns: seq<Node>, m: nat, n: nat, j: nat)
    requires Closed(ns) && m < |ns| && RootedWithin(ns, m, j) && n in Ancestors(ns, m, j) && m != n
    ensures Below(ns, m, n, j)
    decreases j
  {
    assert ns[m].parent.Some?;
    var p := ns[m].parent.value;
    if p != n {
      AncestorsBelow(ns, p, n, j - 1);
    }
  }

  /** `flatten` lists every descendant: each other node whose ancestors include `n`. */
  lemma FlattenHoldsDescendants(ns: seq<Node>, n: nat, k: nat, m: nat)
    requires WellFormed(ns) && n < |ns| && BoundedBelow(ns, n, k)
    requires m < |ns| && m != n && Rooted(ns, m) && n in Ancestors(ns, m, |ns|)
    ensures m in Flatten(ns, n, k)
  {
    AncestorsBelow(ns, m, n, |ns|);
    FlattenComplete(ns, n, k, m, |ns|);
  }

  lemma DistinctAppend(a: seq<nat>, b: seq<nat>)
    requires Distinct(a) && Distinct(b) && forall x :: x in a ==> x !in b
    ensures Distinct(a + b)
  {
    forall i, j | 0 <= i < j < |a + b|
      ensures (a + b)[i] != (a + b)[j]
    {
      if j < |a| {
        assert (a + b)[i] == a[i] && (a + b)[j] == a[j];
      } else if i >= |a| {
        assert (a + b)[i] == b[i - |a|] && (a + b)[j] == b[j - |a|];
      } else {
        assert (a + b)[i] == a[i] && a[i] in a;
        assert (a + b)[j] == b[j - |a|] && b[j - |a|] in b;
      }
    }
  }

  /** Two different children of one node have nothing below them in common. */
  lemma SiblingsDisjoint(ns: seq<Node>, a: nat, b: nat, n: nat, j: nat)
    requires WellFormed(ns) && a < |ns| && b < |ns| && n < |ns| && a != b && a != n && b != n
    requires ns[a].parent == Some(n) && ns[b].parent == Some(n)
    requires BoundedBelow(ns, a, j) && BoundedBelow(ns, b, j)
    requires n !in Flatten(ns, a, j) && n !in Flatten(ns, b, j)
    ensures forall x :: x in Flatten(ns, a, j) ==> x !in Flatten(ns, b, j)
  {
    forall x | x in Flatten(ns, a, j)
      ensures x !in Flatten(ns, b, j)
    {
      if x in Flatten(ns, b, j) {
        FlattenListsBelow(ns, a, j, x);
        FlattenListsBelow(ns, b, j, x);
        BelowBoth(ns, x, a, b, j, j);
        if Below(ns, a, b, j) {
          FlattenComplete(ns, b, j, n, j - 1);
        } else {
          FlattenComplete(ns, a, j, n, j - 1);
        }
      }
    }
  }

  /** Each of `cs` is a child of `n` bounded below within `j` steps, with `n` not below it. */
  predicate ChildrenClear(ns: seq<Node>, n: nat, cs: seq<nat>, j: nat)
    requires Closed(ns)
  {
    forall c :: c in cs ==>
      c < |ns| && c != n && ns[c].parent == Some(n) && BoundedBelow(ns, c, j) && n !in Flatten(ns, c, j)
  }

  /** `flatten` lists no node twice. */
  lemma {:induction false} FlattenDistinct(ns: seq<Node>, n: nat, k: nat)
    requires WellFormed(ns) && n < |ns| && BoundedBelow(ns, n, k)
    ensures Distinct(Flatten(ns, n, k))
    decreases k, 1
  {
    var cs := ns[n].children;
    var fe := FlattenEach(ns, cs, k);
    assert Flatten(ns, n, k) == cs + fe;
    if cs != [] {
      ChildrenBounded(ns, n, k);
      FlattenNotSelf(ns, n, k);
      forall c | c in cs
        ensures c < |ns| && c != n && ns[c].parent == Some(n) && BoundedBelow(ns, c, k - 1) &&
                n !in Flatten(ns, c, k - 1)
      {
        var i :| 0 <= i < |cs| && cs[i] == c;
        FlattenEachIncludes(ns, cs, k, i);
      }
      assert ChildrenClear(ns, n, cs, k - 1);
      FlattenEachDistinct(ns, n, cs, k);
      forall x | x in cs
        ensures x !in fe
      {
        if x in fe {
          var i := FlattenEachWitness(ns, cs, k, x);
          assert cs[i] in cs;
          FlattenBelow(ns, cs[i], k - 1);
        }
      }
      DistinctAppend(cs, fe);
    }
  }

  lemma {:induction false} FlattenEachDistinct(ns: seq<Node>, n: nat, cs: seq<nat>, k: nat)
    requires WellFormed(ns) && n < |ns| && k > 0 && Distinct(cs) && ChildrenClear(ns, n, cs, k - 1)
    ensures AllBoundedBelow(ns, cs, k - 1) && Distinct(FlattenEach(ns, cs, k))
    decreases k, 0, |cs|
  {
    if cs != [] {
      AllBoundedBelowSplit(ns, cs, k - 1);
      assert cs[0] in cs;
      var head := Flatten(ns, cs[0], k - 1);
      var tail := FlattenEach(ns, cs[1..], k);
      assert FlattenEach(ns, cs, k) == head + tail;
      FlattenDistinct(ns, cs[0], k - 1);
      assert ChildrenClear(ns, n, cs[1..], k - 1) by {
        forall c | c in cs[1..] ensures c in cs {
        }
      }
      FlattenEachDistinct(ns, n, cs[1..], k);
      forall x | x in head
        ensures x !in tail
      {
        if x in tail {
          var i := FlattenEachWitness(ns, cs[1..], k, x);
          assert cs[1..][i] == cs[i + 1] && cs[i + 1] in cs;
          SiblingsDisjoint(ns, cs[0], cs[i + 1], n, k - 1);
        }
      }
      DistinctAppend(head, tail);
    }
  }

  lemma {:induction false} DistinctCounts(s: seq<nat>)
    requires Distinct(s)
    ensures forall x :: multiset(s)[x] == if x in s then 1 else 0
  {
    if s != [] {
      assert s == [s[0]] + s[1..];
      assert Distinct(s[1..]) by {
        forall i, j | 0 <= i < j < |s[1..]| ensures s[1..][i] != s[1..][j] {
          assert s[1..][i] == s[i + 1] && s[1..][j] == s[j + 1];
        }
      }
      DistinctCounts(s[1..]);
      assert s[0] !in s[1..] by {
        forall j | 0 <= j < |s[1..]| ensures s[1..][j] != s[0] {
          assert s[1..][j] == s[j + 1];
        }
      }
      assert multiset(s) == multiset([s[0]]) + multiset(s[1..]);
    }
  }

  /**
    * With parent pointers and children lists consistent, `walk` calls each
    * of its callbacks exactly once on the node and on each node below it,
    * and never on any other node.
    */
  lemma WalkVisitsOnce(ns: seq<Node>, n: nat, first: Callback, second: Callback, k: nat, cb: Callback)
    requires WellFormed(ns) && n < |ns| && BoundedBelow(ns, n, k)
    requires first != second && (cb == first || cb == second)
    ensures forall x: nat ::
              multiset(CalledOn(Walk(ns, n, first, second, k), cb))[x] ==
              (if x == n || (x < |ns| && Below(ns, x, n, k)) then 1 else 0)
  {
    WalkVisitsFlatten(ns, n, first, second, k, cb);
    FlattenNotSelf(ns, n, k);
    FlattenDistinct(ns, n, k);
    FlattenIsBelow(ns, n, k);
    DistinctAppend([n], Flatten(ns, n, k));
    DistinctCounts([n] + Flatten(ns, n, k));
  }

  /**
    * The swap shows on a chain 0 over 1 over 2: walking 0 with "before"
    * and "after" calls "after" on 1 before it walks 1's child.
    */
  function Chain(): seq<Node> {
    [Node(None, [1]), Node(Some(0), [2]), Node(Some(1), [])]
  }

  lemma WalkSwapsCallbacks()
    ensures Closed(Chain()) && BoundedBelow(Chain(), 0, 2) &&
      Walk(Chain(), 0, BeforeChildren, AfterChildren, 2) ==
        [Call(BeforeChildren, 0), Call(AfterChildren, 1), Call(BeforeChildren, 2),
         Call(AfterChildren, 2), Call(BeforeChildren, 1), Call(AfterChildren, 0)]
  {
    var ns := Chain();
    assert ns[0].children == [1] && ns[1].children == [2] && ns[2].children == [];
    assert BoundedBelow(ns, 2, 0);
    assert BoundedBelow(ns, 1, 1);
    assert [1][1..] == [] && [2][1..] == [];
    var w2 := Walk(ns, 2, BeforeChildren, AfterChildren, 0);
    assert w2 == [Call(BeforeChildren, 2), Call(AfterChildren, 2)];
    var w1 := Walk(ns, 1, AfterChildren, BeforeChildren, 1);
    assert WalkEach(ns, [2], BeforeChildren, AfterChildren, 1) == w2;
    assert w1 == [Call(AfterChildren, 1)] + w2 + [Call(BeforeChildren, 1)];
    assert WalkEach(ns, [1], AfterChildren, BeforeChildren, 2) == w1;
  }
}
