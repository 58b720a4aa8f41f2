/** Searching and walking: the read-only operations, stated on the in-order sequence. */
module AvlSearch {
  import opened AvlShape
  import opened AvlHeap
  import opened Avl

  /** The comparator is a total preorder with results -1, 0 and 1. */
  ghost predicate Ordering<T(!new)>(cmp: (T, T) -> int) {
    && (forall a, b :: -1 <= cmp(a, b) <= 1 && cmp(a, b) == -cmp(b, a))
    && (forall a, b, c :: cmp(a, b) <= 0 && cmp(b, c) <= 0 ==> cmp(a, c) <= 0)
  }

  lemma Below<T(!new)>(cmp: (T, T) -> int, a: T, b: T, c: T)
    requires Ordering(cmp) && cmp(a, b) <= 0 && cmp(b, c) <= 0 && (cmp(a, b) < 0 || cmp(b, c) < 0)
    ensures cmp(a, c) < 0
  {
    assert cmp(c, a) <= 0 ==> cmp(b, a) <= 0 && cmp(c, b) <= 0;
  }

  /** Strictly increasing data. */
  ghost predicate Sorted<T>(s: seq<Node<T>>, cmp: (T, T) -> int)
    reads s`data
  {
    forall i, j :: 0 <= i < j < |s| ==> cmp(s[i].data, s[j].data) < 0
  }

  lemma SortedAt<T>(s: seq<Node<T>>, cmp: (T, T) -> int, i: nat, j: nat)
    requires Sorted(s, cmp) && i < j < |s|
    ensures cmp(s[i].data, s[j].data) < 0
  {
  }

  /** `value` belongs between the first `k` nodes and the others. */
  ghost predicate Splits<T>(s: seq<Node<T>>, k: nat, value: T, cmp: (T, T) -> int)
    reads s`data
  {
    && k <= |s|
    && (forall i :: 0 <= i < k ==> cmp(value, s[i].data) > 0)
    && (forall i :: k <= i < |s| ==> cmp(value, s[i].data) < 0)
  }

  /** The element before (0) or after (1) position `i`. */
  ghost function Adjacent<T>(s: seq<Node<T>>, i: int, side: Side): Node?<T>
    requires 0 <= i < |s|
  {
    if side == 0 then (if i == 0 then null else s[i - 1])
    else if i + 1 == |s| then null else s[i + 1]
  }

  /** The nearest node outside the hole of `p`, before (0) or after (1) it. */
  ghost function Edge<T>(p: Path<T>, side: Side): Node?<T> {
    if side == 0 then (if Before(p) == [] then null else Before(p)[|Before(p)| - 1])
    else if After(p) == [] then null else After(p)[0]
  }

  /** The lowest valued node, or null. */
  method First<T>(tree: AvlTree<T>) returns (r: Node?<T>)
    requires tree.Valid()
    ensures var s := InOrder(tree.tree); r == if s == [] then null else s[0]
  {
    r := EndOf(tree, 0);
  }

  /** The highest valued node, or null. */
  method Last<T>(tree: AvlTree<T>) returns (r: Node?<T>)
    requires tree.Valid()
    ensures var s := InOrder(tree.tree); r == if s == [] then null else s[|s| - 1]
  {
    r := EndOf(tree, 1);
  }

  method EndOf<T>(tree: AvlTree<T>, side: Side) returns (prev: Node?<T>)
    requires tree.Valid()
    ensures var s := InOrder(tree.tree);
      prev == if s == [] then null else if side == 0 then s[0] else s[|s| - 1]
  {
    hide Nodes, Height, Distinct, PathLinked;
    prev := null;
    var node := tree.root;
    ghost var t := tree.tree;
    while node != null
      invariant Shape(t) && node == Root(t)
      invariant t.Fork? ==> tree.tree.Fork? && End(t, side) == End(tree.tree, side)
      invariant t.Leaf? ==> if prev == null then tree.tree.Leaf? else tree.tree.Fork? && prev == End(tree.tree, side)
      decreases t
    {
      prev := node;
      node := node.child.At(side);
      t := Kid(t, side);
    }
  }

  /** Walk from one node to its neighbour: the previous one (`left` is 0) or the next one (1). */
  method Walk<T>(tree: AvlTree<T>, oldnode: Node?<T>, left: Side, ghost i: nat) returns (r: Node?<T>)
    requires tree.Valid()
    requires oldnode != null ==>
      oldnode in Nodes(tree.tree) && i < |InOrder(tree.tree)| && InOrder(tree.tree)[i] == oldnode
    ensures r == if oldnode == null then null else Adjacent(InOrder(tree.tree), i, left)
  {
    hide InOrder, Nodes, PathNodes, Distinct, PathDistinct, Height, PathLinked, PathRoot, Plug, Before, After;
    if oldnode == null {
      return null;
    }
    ghost var q, u := tree.FocusOn(oldnode);
    Position(q, u, i);
    WalkTarget(q, u, i, left);
    if oldnode.child.At(left) != null {
      r := GoDown(oldnode.child.At(left), 1 - left, Kid(u, left));
    } else {
      r := WalkUp(oldnode, left, q, Height(u));
    }
  }

  /** Where the walk has to end. */
  lemma WalkTarget<T>(q: Path<T>, u: Tree<T>, i: nat, left: Side)
    requires u.Fork? && i == |Before(q)| + |InOrder(u.left)|
    ensures var s := Before(q) + InOrder(u) + After(q);
      i < |s| && Adjacent(s, i, left) == if Kid(u, left).Fork? then End(Kid(u, left), 1 - left) else Edge(q, left)
  {
    hide Before, After, Nodes;
    var s, x := Before(q) + InOrder(u) + After(q), |Before(q)|;
    assert forall j :: 0 <= j < |InOrder(u)| ==> s[x + j] == InOrder(u)[j];
    if Kid(u, left).Fork? {
      var e := End(Kid(u, left), 1 - left);
    }
  }

  /** Return through parents until we come from the child on the far side. */
  method WalkUp<T>(start: Node<T>, left: Side, ghost path: Path<T>, ghost height: nat) returns (node: Node?<T>)
    requires PathLinked(path, start, height)
    requires start.parent == Owner(path) && (path.Step? ==> start.childIndex == path.side)
    ensures node == Edge(path, left)
  {
    hide InOrder, Nodes, PathNodes, Height;
    var right: Side := 1 - left;
    node := start;
    ghost var q, h: nat := path, height;
    while true
      invariant node != null && PathLinked(q, node, h) && Edge(q, left) == Edge(path, left)
      invariant node.parent == Owner(q) && (q.Step? ==> node.childIndex == q.side)
      decreases q
    {
      var wasChild := node.childIndex;
      node := node.parent;
      if node == null {
        return;
      }
      if wasChild == right {
        return;
      }
      q, h := q.up, 1 + Max(h, Height(q.sibling));
    }
  }

  /** The node immediately before (0) or after (1) the place `where`, which `k` nodes precede. */
  method Nearest<T>(tree: AvlTree<T>, where: Cookie<T>, direction: Side, ghost k: nat) returns (r: Node?<T>)
    requires tree.Valid() && tree.Gap(where, k)
    ensures var s := InOrder(tree.tree);
      r == if direction == 0 then (if k == 0 then null else s[k - 1]) else if k == |s| then null else s[k]
  {
    if where.node == null {
      return null;
    }
    if where.child != direction {
      return where.node;
    }
    r := Walk(tree, where.node, direction, k - where.child);
  }

  /** Search for `value`.  When it is absent, `where` is the place it belongs to, after `k` nodes. */
  method Find<T(!new)>(tree: AvlTree<T>, value: T) returns (r: Node?<T>, where: Cookie<T>, ghost k: nat)
    requires tree.Valid() && Ordering(tree.compar) && Sorted(InOrder(tree.tree), tree.compar)
    ensures r != null ==> r in Nodes(tree.tree) && tree.compar(value, r.data) == 0
    ensures r == null ==> tree.Gap(where, k) && Splits(InOrder(tree.tree), k, value, tree.compar)
  {
    hide *;
    where, k := Cookie(null, 0), 0;
    SearchStart(tree, value);
    var node := tree.root;
    var prev: Node?<T> := null;
    var child: Side := 0;
    ghost var q, t := Top, tree.tree;
    while node != null
      invariant Searching(tree, q, t, value) && node == Root(t)
      invariant Sorted(InOrder(tree.tree), tree.compar)
      invariant prev == Owner(q) && child == SideOf(q)
      decreases t
    {
      SearchHere(tree, q, t, value);
      prev := node;
      var diff := tree.compar(value, node.data);
      if diff == 0 {
        return node, where, k;
      }
      child := if diff < 0 then 0 else 1;
      SearchDown(tree, q, t, value);
      node := node.child.At(child);
      q, t := Step(t.node, child, Kid(t, 1 - child), q), Kid(t, child);
    }
    where := Cookie(prev, child);
    r, k := null, |Before(q)|;
    SearchEnd(tree, q, t, value);
  }

  /** Everything before the hole of `q` is smaller than `value`, and everything after it larger. */
  ghost predicate SearchBounds<T>(q: Path<T>, t: Tree<T>, value: T, cmp: (T, T) -> int)
    reads InOrder(Plug(q, t))`data
  {
    var s := InOrder(Plug(q, t));
    && |Before(q)| + |After(q)| <= |s|
    && (forall i :: 0 <= i < |Before(q)| ==> cmp(value, s[i].data) > 0)
    && (forall i :: |s| - |After(q)| <= i < |s| ==> cmp(value, s[i].data) < 0)
  }

  lemma Flip<T(!new)>(cmp: (T, T) -> int, a: T, b: T)
    requires Ordering(cmp)
    ensures cmp(a, b) == -cmp(b, a)
  {
  }

  lemma SearchStep<T(!new)>(q: Path<T>, t: Tree<T>, value: T, cmp: (T, T) -> int)
    requires Ordering(cmp) && Sorted(InOrder(Plug(q, t)), cmp) && SearchBounds(q, t, value, cmp)
    requires t.Fork? && cmp(value, t.node.data) != 0
    ensures var i: Side := if cmp(value, t.node.data) < 0 then 0 else 1;
      var q' := Step(t.node, i, Kid(t, 1 - i), q);
      Plug(q', Kid(t, i)) == Plug(q, t) && SearchBounds(q', Kid(t, i), value, cmp)
  {
    hide Nodes, Distinct, Height, Ordering, Sorted;
    var i: Side := if cmp(value, t.node.data) < 0 then 0 else 1;
    var q' := Step(t.node, i, Kid(t, 1 - i), q);
    assert Plug(q', Kid(t, i)) == Plug(q, Join(i, Kid(t, i), t.node, Kid(t, 1 - i)));
    PlugInOrder(q, t);
    var s, m := InOrder(Plug(q, t)), |Before(q)| + |InOrder(t.left)|;
    assert InOrder(t)[|InOrder(t.left)|] == t.node;
    assert s[m] == t.node;
    BothSides(s, m, value, cmp);
  }

  /** Nodes on the far side of one that differs from `value` differ from it the same way. */
  lemma BothSides<T(!new)>(s: seq<Node<T>>, m: nat, value: T, cmp: (T, T) -> int)
    requires Ordering(cmp) && Sorted(s, cmp) && m < |s|
    ensures cmp(value, s[m].data) < 0 ==> forall j :: m <= j < |s| ==> cmp(value, s[j].data) < 0
    ensures cmp(value, s[m].data) > 0 ==> forall j :: 0 <= j <= m ==> cmp(value, s[j].data) > 0
  {
    hide Ordering, Sorted;
    Flip(cmp, value, s[m].data);
    forall j | m < j < |s| && cmp(value, s[m].data) < 0 ensures cmp(value, s[j].data) < 0 {
      SortedAt(s, cmp, m, j);
      Below(cmp, value, s[m].data, s[j].data);
    }
    forall j | 0 <= j < m && cmp(value, s[m].data) > 0 ensures cmp(value, s[j].data) > 0 {
      SortedAt(s, cmp, j, m);
      Below(cmp, s[j].data, s[m].data, value);
      Flip(cmp, value, s[j].data);
    }
  }

  /** The search for `value` has come down to the subtree `t`. */
  ghost predicate Searching<T>(tree: AvlTree<T>, q: Path<T>, t: Tree<T>, value: T)
    reads tree, Nodes(tree.tree), Nodes(t), InOrder(tree.tree)`data
  {
    tree.Valid() && Shape(t) && Plug(q, t) == tree.tree && SearchBounds(q, t, value, tree.compar)
  }

  lemma SearchStart<T>(tree: AvlTree<T>, value: T)
    requires tree.Valid()
    ensures Searching(tree, Top, tree.tree, value) && tree.root == Root(tree.tree)
    ensures Owner<T>(Top) == null && SideOf<T>(Top) == 0
  {
  }

  lemma SearchHere<T>(tree: AvlTree<T>, q: Path<T>, t: Tree<T>, value: T)
    requires Searching(tree, q, t, value) && Root(t) != null
    ensures t.Fork? && t.node == Root(t) && t.node in Nodes(tree.tree)
  {
    PlugNodes(q, t);
  }

  lemma SearchDown<T(!new)>(tree: AvlTree<T>, q: Path<T>, t: Tree<T>, value: T)
    requires Searching(tree, q, t, value) && t.Fork? && tree.compar(value, t.node.data) != 0
    requires Ordering(tree.compar) && Sorted(InOrder(tree.tree), tree.compar)
    ensures var i: Side := if tree.compar(value, t.node.data) < 0 then 0 else 1;
      var q' := Step(t.node, i, Kid(t, 1 - i), q);
      && Searching(tree, q', Kid(t, i), value) && Root(Kid(t, i)) == t.node.child.At(i)
      && Owner(q') == t.node && SideOf(q') == i && (Kid(t, i) == t.left || Kid(t, i) == t.right)
  {
    hide SearchBounds, Ordering, Sorted, InOrder, Plug;
    SearchStep(q, t, value, tree.compar);
  }

  lemma SearchEnd<T>(tree: AvlTree<T>, q: Path<T>, t: Tree<T>, value: T)
    requires Searching(tree, q, t, value) && Root(t) == null
    ensures tree.Gap(Cookie(Owner(q), SideOf(q)), |Before(q)|)
    ensures Splits(InOrder(tree.tree), |Before(q)|, value, tree.compar)
  {
    hide Distinct, Height, PathDistinct;
    PlugInOrder(q, Leaf);
    PlugNodes(q, Leaf);
    FocusPlug(q, Leaf);
  }

  /** Walking from the first node, one neighbour at a time, visits the whole sequence in order. */
  method Enumerate<T>(tree: AvlTree<T>) returns (visited: seq<Node<T>>)
    requires tree.Valid()
    ensures visited == InOrder(tree.tree)
  {
    hide InOrder, Nodes, AvlTree.Valid;
    NodesAllocated(tree.tree);
    visited := [];
    var node := First(tree);
    ghost var s := InOrder(tree.tree);
    while node != null
      invariant tree.Valid() && s == InOrder(tree.tree)
      invariant |visited| <= |s| && visited == s[..|visited|]
      invariant node == if |visited| == |s| then null else s[|visited|]
      decreases |s| - |visited|
    {
      NodesAllocated(tree.tree);
      InOrderNodes(tree.tree);
      var next := Walk(tree, node, 1, |visited|);
      visited := visited + [node];
      node := next;
    }
  }

  /** Walking forward and then backward, or backward and then forward, comes back to the start. */
  method WalkThereAndBack<T>(tree: AvlTree<T>, node: Node<T>, side: Side, ghost i: nat)
    returns (there: Node?<T>, back: Node?<T>)
    requires tree.Valid() && node in Nodes(tree.tree) && i < |InOrder(tree.tree)| && InOrder(tree.tree)[i] == node
    ensures there == null ==> back == null
    ensures there != null ==> back == node
  {
    hide InOrder, Nodes, AvlTree.Valid;
    NodesAllocated(tree.tree);
    InOrderNodes(tree.tree);
    there := Walk(tree, node, side, i);
    back := Walk(tree, there, 1 - side, if side == 0 then if i == 0 then 0 else i - 1 else i + 1);
  }
}
