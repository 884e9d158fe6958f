/** The generic orbit tree of src/Kopernicus/IniTreeGeneration.cs: nodes that link to their parent
  * and keep a list of children, and a tree whose `elements` property lists the nodes in pre-order
  * into one reused list.
  *
  * A `List<Node<T>>` field that may be null becomes an `Option<seq<Node<T>>>`; the list that
  * `elements` hands out is an object of its own (`NodeList`), because the property returns the
  * same list object on every access. `List.Remove` removes the first occurrence by reference,
  * which is what `RemoveFirst` does on the sequence. */
module IniTree {
  import opened Numerics

  // ---------------------------------------------------------------- Child lists

  /** The children a node's list holds; a null list holds none. */
  function ChildList<T>(children: Option<seq<Node<T>>>): seq<Node<T>>
  {
    if children.Some? then children.value else []
  }

  /** The position of the first occurrence of `x` in `s`, as `List.IndexOf` finds it. */
  function FirstIndex<T>(s: seq<Node<T>>, x: Node<T>): (i: nat)
    requires x in s
    ensures i < |s| && s[i] == x && x !in s[..i]
    decreases |s|
  {
    if s[0] == x then 0
    else
      var j := FirstIndex(s[1..], x);
      assert s[..j + 1] == [s[0]] + s[1..][..j];
      j + 1
  }

  /** `List.Remove(x)` on the list `s`: its first occurrence of `x` goes, nothing else changes. */
  function RemoveFirst<T>(s: seq<Node<T>>, x: Node<T>): (r: seq<Node<T>>)
    ensures x !in s ==> r == s
    ensures x in s ==> |r| == |s| - 1 && exists i :: 0 <= i < |s| && s[i] == x && x !in s[..i] && r == s[..i] + s[i + 1..]
    ensures multiset(r) == multiset(s) - multiset{x}
  {
    if x in s then
      var i := FirstIndex(s, x);
      assert s == s[..i] + [x] + s[i + 1..];
      s[..i] + s[i + 1..]
    else
      s
  }

  /** Appending a node that was not a child and then removing it gives back the list. */
  lemma RemoveFirstAfterAppend<T>(s: seq<Node<T>>, x: Node<T>)
    requires x !in s
    ensures RemoveFirst(s + [x], x) == s
  {
    assert forall j :: 0 <= j < |s| ==> (s + [x])[j] == s[j];
    assert (s + [x])[..|s|] == s;
  }

  /** Removing the first occurrence keeps a later one when the node was listed twice. */
  lemma RemoveFirstKeepsDuplicate<T>(s: seq<Node<T>>, x: Node<T>)
    requires multiset(s)[x] >= 2
    ensures x in RemoveFirst(s, x)
  {
    assert multiset(RemoveFirst(s, x))[x] == multiset(s)[x] - 1;
  }

  // ---------------------------------------------------------------- Nodes

  class Node<T> {
    var children: Option<seq<Node<T>>>
    var parent: Node?<T>
    var item: T

    /** `Node(i)`: a root with an empty child list. */
    constructor (i: T)
      ensures item == i && children == Some([]) && parent == null
    {
      item := i;
      children := Some([]);
      parent := null;
    }

    /** `Node(i, parent)`: the new node is appended to `parent`'s children, then given an empty
      * child list of its own. */
    constructor WithParent(i: T, parent: Node<T>)
      modifies parent
      ensures item == i && children == Some([]) && this.parent == parent
      ensures parent.children == Some(ChildList(old(parent.children)) + [this])
      ensures parent.item == old(parent.item) && parent.parent == old(parent.parent)
    {
      item := i;
      children := None;
      this.parent := null;
      new;
      parent.AddChildren(this);
      children := Some([]);
    }

    /** `AddChildren(element)`: `element` becomes the last child, the list being created when
      * null, and this node its parent. */
    method AddChildren(element: Node<T>)
      modifies this, element
      ensures children == Some(ChildList(old(children)) + [element])
      ensures element.parent == this
      ensures item == old(item) && element.item == old(element.item)
      ensures element != this ==> parent == old(parent) && element.children == old(element.children)
    {
      if children.None? {
        children := Some([]);
      }
      children := Some(children.value + [element]);
      element.parent := this;
    }

    /** `RemoveChildren(element)`: with a null list nothing happens; otherwise `element` loses
      * its parent link, even when it is not a child, and its first occurrence leaves the list. */
    method RemoveChildren(element: Node<T>)
      modifies this, element
      ensures old(children).None? ==> children == old(children) && element.parent == old(element.parent)
      ensures old(children).Some? ==> children == Some(RemoveFirst(old(children).value, element)) && element.parent == null
      ensures item == old(item) && element.item == old(element.item)
      ensures element != this ==> parent == old(parent) && element.children == old(element.children)
    {
      if children.None? {
        return;
      }
      element.parent := null;
      children := Some(RemoveFirst(children.value, element));
    }

    /** `SetParent(element)`: the node leaves its old parent's list (its first occurrence there)
      * and becomes `element`'s last child, with `element` as its parent. */
    method SetParent(element: Node<T>)
      modifies this, element, parent
      ensures parent == element
      ensures var p := old(parent);
        var start := if p != null && old(p.children).Some? && p == element
                     then RemoveFirst(old(p.children).value, this)
                     else ChildList(old(element.children));
        element.children == Some(start + [this])
      ensures element.children.Some? && element.children.value[|element.children.value| - 1] == this
      ensures var p := old(parent);
        p != null && p != element ==>
          p.children == if old(p.children).Some? then Some(RemoveFirst(old(p.children).value, this)) else old(p.children)
      ensures item == old(item)
      ensures this != element && this != old(parent) ==> children == old(children)
      ensures element != this ==> element.parent == old(element.parent) && element.item == old(element.item)
      ensures var p := old(parent);
        p != null && p != this && p != element ==> p.parent == old(p.parent) && p.item == old(p.item)
    {
      if parent != null {
        parent.RemoveChildren(this);
      }
      element.AddChildren(this);
    }
  }

  /** Moving a node to a new parent and back to its old one, when it was listed once, leaves the
    * old parent's list with the node moved to the end. */
  lemma ReparentOrder<T>(s: seq<Node<T>>, x: Node<T>)
    requires multiset(s)[x] == 1
    ensures var r := RemoveFirst(s, x) + [x];
      multiset(r) == multiset(s) && r[|r| - 1] == x && x !in r[..|r| - 1]
  {
    var r := RemoveFirst(s, x) + [x];
    assert r[..|r| - 1] == RemoveFirst(s, x);
    assert multiset(RemoveFirst(s, x))[x] == 0;
  }

  // ---------------------------------------------------------------- Pre-order listing

  /** A ranking of nodes under which every listed child ranks below its parent: the nodes it
    * covers form a forest (no node is its own descendant). */
  predicate Ranked<T>(rank: map<Node<T>, nat>)
    reads rank.Keys
  {
    forall n :: n in rank && n.children.Some? ==>
      forall c :: c in n.children.value ==> c in rank && rank[c] < rank[n]
  }

  /** The nodes `AddNodesToList(node)` appends: the node, then its children's subtrees in list
    * order. */
  function PreOrder<T>(node: Node<T>, rank: map<Node<T>, nat>): (r: seq<Node<T>>)
    requires Ranked(rank) && node in rank
    reads rank.Keys
    ensures |r| >= 1 && r[0] == node
    ensures forall i :: 0 < i < |r| ==> r[i] in rank && rank[r[i]] < rank[node]
    decreases rank[node], 1, 0
  {
    var cs := ChildList(node.children);
    [node] + Forest(cs, |cs|, rank, rank[node])
  }

  /** The subtrees of the first `k` of the children `cs`, each ranked below `bound`, one after
    * the other. */
  function Forest<T>(cs: seq<Node<T>>, k: nat, rank: map<Node<T>, nat>, bound: nat): (r: seq<Node<T>>)
    requires Ranked(rank) && k <= |cs|
    requires forall c :: c in cs ==> c in rank && rank[c] < bound
    reads rank.Keys
    ensures forall i :: 0 <= i < |r| ==> r[i] in rank && rank[r[i]] < bound
    decreases bound, 0, k
  {
    if k == 0 then []
    else
      var front := Forest(cs, k - 1, rank, bound);
      var last := PreOrder(cs[k - 1], rank);
      assert forall i :: |front| <= i < |front| + |last| ==> (front + last)[i] == last[i - |front|];
      front + last
  }

  /** The number of nodes in the subtree of `node`. */
  function Size<T>(node: Node<T>, rank: map<Node<T>, nat>): nat
    requires Ranked(rank) && node in rank
    reads rank.Keys
    decreases rank[node], 1, 0
  {
    var cs := ChildList(node.children);
    1 + ForestSize(cs, |cs|, rank, rank[node])
  }

  function ForestSize<T>(cs: seq<Node<T>>, k: nat, rank: map<Node<T>, nat>, bound: nat): nat
    requires Ranked(rank) && k <= |cs|
    requires forall c :: c in cs ==> c in rank && rank[c] < bound
    reads rank.Keys
    decreases bound, 0, k
  {
    if k == 0 then 0 else ForestSize(cs, k - 1, rank, bound) + Size(cs[k - 1], rank)
  }

  /** The listing holds each node of the subtree once per path to it: its length is the subtree
    * size. */
  lemma {:induction false} PreOrderLength<T>(node: Node<T>, rank: map<Node<T>, nat>)
    requires Ranked(rank) && node in rank
    ensures |PreOrder(node, rank)| == Size(node, rank)
    decreases rank[node], 1, 0
  {
    var cs := ChildList(node.children);
    ForestLength(cs, |cs|, rank, rank[node]);
  }

  lemma {:induction false} ForestLength<T>(cs: seq<Node<T>>, k: nat, rank: map<Node<T>, nat>, bound: nat)
    requires Ranked(rank) && k <= |cs|
    requires forall c :: c in cs ==> c in rank && rank[c] < bound
    ensures |Forest(cs, k, rank, bound)| == ForestSize(cs, k, rank, bound)
    decreases bound, 0, k
  {
    if k > 0 {
      ForestLength(cs, k - 1, rank, bound);
      PreOrderLength(cs[k - 1], rank);
    }
  }

  /** The listing depends on the tree only, not on the ranking that shows it is a forest. */
  lemma {:induction false} PreOrderRankFree<T>(node: Node<T>, rank: map<Node<T>, nat>, rank': map<Node<T>, nat>)
    requires Ranked(rank) && node in rank && Ranked(rank') && node in rank'
    ensures PreOrder(node, rank) == PreOrder(node, rank')
    decreases rank[node], 1, 0
  {
    var cs := ChildList(node.children);
    ForestRankFree(cs, |cs|, rank, rank[node], rank', rank'[node]);
  }

  lemma {:induction false} ForestRankFree<T>(cs: seq<Node<T>>, k: nat, rank: map<Node<T>, nat>, bound: nat,
                                             rank': map<Node<T>, nat>, bound': nat)
    requires Ranked(rank) && k <= |cs| && forall c :: c in cs ==> c in rank && rank[c] < bound
    requires Ranked(rank') && forall c :: c in cs ==> c in rank' && rank'[c] < bound'
    ensures Forest(cs, k, rank, bound) == Forest(cs, k, rank', bound')
    decreases bound, 0, k
  {
    if k > 0 {
      ForestRankFree(cs, k - 1, rank, bound, rank', bound');
      PreOrderRankFree(cs[k - 1], rank, rank');
    }
  }

  /** Each child's subtree is a contiguous block of its parent's listing, placed after the node
    * and the subtrees of the children before it. */
  lemma ChildBlock<T>(node: Node<T>, rank: map<Node<T>, nat>, j: nat)
    requires Ranked(rank) && node in rank && j < |ChildList(node.children)|
    ensures var cs := ChildList(node.children);
      var start := 1 + |Forest(cs, j, rank, rank[node])|;
      var sub := PreOrder(cs[j], rank);
      start + |sub| <= |PreOrder(node, rank)| && PreOrder(node, rank)[start..start + |sub|] == sub
  {
    var cs := ChildList(node.children);
    ForestPrefix(cs, j + 1, |cs|, rank, rank[node]);
    var f := Forest(cs, |cs|, rank, rank[node]);
    var g := Forest(cs, j + 1, rank, rank[node]);
    var sub := PreOrder(cs[j], rank);
    assert g == Forest(cs, j, rank, rank[node]) + sub;
    assert PreOrder(node, rank) == [node] + f;
  }

  /** A shorter forest listing is a prefix of a longer one. */
  lemma {:induction false} ForestPrefix<T>(cs: seq<Node<T>>, k: nat, m: nat, rank: map<Node<T>, nat>, bound: nat)
    requires Ranked(rank) && k <= m <= |cs|
    requires forall c :: c in cs ==> c in rank && rank[c] < bound
    ensures Forest(cs, k, rank, bound) <= Forest(cs, m, rank, bound)
    decreases m - k
  {
    if k < m {
      ForestPrefix(cs, k, m - 1, rank, bound);
    }
  }

  lemma Associative<T>(a: seq<T>, b: seq<T>, c: seq<T>)
    ensures a + b + c == a + (b + c)
  {
  }

  /** The .NET list `elements` hands out. */
  class NodeList<T> {
    var items: seq<Node<T>>

    constructor ()
      ensures items == []
    {
      items := [];
    }

    method Add(node: Node<T>)
      modifies this
      ensures items == old(items) + [node]
    {
      items := items + [node];
    }

    method Clear()
      modifies this
      ensures items == []
    {
      items := [];
    }
  }

  class Tree<T> {
    var root: Node?<T>
    var internalStorage: NodeList?<T>

    constructor ()
      ensures root == null && internalStorage == null
    {
      root := null;
      internalStorage := null;
    }

    /** The getter of `elements`: the list, created on the first access and cleared on every
      * later one, is refilled with the pre-order listing from the root. The rank is the ghost
      * witness that the tree has no cycle. */
    method Elements(ghost rank: map<Node<T>, nat>) returns (list: NodeList<T>)
      requires root != null && Ranked(rank) && root in rank
      modifies this, internalStorage
      ensures list == internalStorage && root == old(root)
      ensures old(internalStorage) != null ==> list == old(internalStorage)
      ensures old(internalStorage) == null ==> fresh(list)
      ensures list.items == PreOrder(root, rank)
    {
      if internalStorage == null {
        internalStorage := new NodeList();
      } else {
        internalStorage.Clear();
      }
      list := internalStorage;
      AddNodesToList(list, root, rank);
    }

    /** `AddNodesToList(node)`: appends the subtree of `node` in pre-order. */
    static method AddNodesToList(list: NodeList<T>, node: Node<T>, ghost rank: map<Node<T>, nat>)
      requires Ranked(rank) && node in rank
      modifies list
      ensures list.items == old(list.items) + PreOrder(node, rank)
      decreases rank[node], 1
    {
      ghost var forest := Forest(ChildList(node.children), |ChildList(node.children)|, rank, rank[node]);
      list.Add(node);
      if node.children.Some? && |node.children.value| != 0 {
        AddSubtreesToList(list, node, rank);
        Associative(old(list.items), [node], forest);
      } else {
        assert forest == [];
      }
    }

    /** The `foreach` of `AddNodesToList(node)` over the children of `node`. */
    static method AddSubtreesToList(list: NodeList<T>, node: Node<T>, ghost rank: map<Node<T>, nat>)
      requires Ranked(rank) && node in rank && node.children.Some?
      modifies list
      ensures list.items == old(list.items) + Forest(node.children.value, |node.children.value|, rank, rank[node])
      decreases rank[node], 0
    {
      var cs := node.children.value;
      for i := 0 to |cs|
        invariant list.items == old(list.items) + Forest(cs, i, rank, rank[node])
      {
        ghost var before := Forest(cs, i, rank, rank[node]);
        assert rank[cs[i]] < rank[node];
        AddNodesToList(list, cs[i], rank);
        Associative(old(list.items), before, PreOrder(cs[i], rank));
        assert Forest(cs, i + 1, rank, rank[node]) == before + PreOrder(cs[i], rank);
      }
    }
  }
}
