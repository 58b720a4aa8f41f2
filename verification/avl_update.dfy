/** Operations that keep the tree sorted: adding, inserting beside a node, and re-sorting after a key change. */
module AvlUpdate {
  import opened AvlShape
  import opened AvlHeap
  import opened Avl
  import opened AvlSearch

  /** Insert `newNode` right before (0) or right after (1) the member `here`. */
  method InsertHere<T>(tree: AvlTree<T>, newNode: Node<T>, here: Node<T>, direction: Side, ghost i: nat)
    requires tree.Valid() && newNode !in Nodes(tree.tree)
    requires here in Nodes(tree.tree) && i < |InOrder(tree.tree)| && InOrder(tree.tree)[i] == here
    modifies tree`root, tree`numnodes, tree`tree
    modifies (Nodes(tree.tree) + {newNode})`child, (Nodes(tree.tree) + {newNode})`parent
    modifies (Nodes(tree.tree) + {newNode})`childIndex, (Nodes(tree.tree) + {newNode})`balance
    ensures tree.Valid()
    ensures var k := i + direction;
      InOrder(tree.tree) == old(InOrder(tree.tree)[..k] + [newNode] + InOrder(tree.tree)[k..])
    ensures Nodes(tree.tree) == old(Nodes(tree.tree)) + {newNode}
  {
    hide InOrder, Nodes, AvlTree.Valid;
    NodesAllocated(tree.tree);
    var where := GapBeside(tree, here, direction, i);
    ghost var r := tree.Insert(newNode, where, i + direction);
  }

  /** The empty place beside `here`. */
  method GapBeside<T>(tree: AvlTree<T>, here: Node<T>, direction: Side, ghost i: nat) returns (where: Cookie<T>)
    requires tree.Valid()
    requires here in Nodes(tree.tree) && i < |InOrder(tree.tree)| && InOrder(tree.tree)[i] == here
    ensures tree.Valid() && tree.Gap(where, i + direction)
  {
    hide InOrder, Nodes, PathNodes, Distinct, PathDistinct, Height, PathLinked, PathRoot, Plug, Before, After;
    ghost var q, u := tree.FocusOn(here);
    Position(q, u, i);
    WalkTarget(q, u, i, direction);
    var node, child := here, direction;
    if node.child.At(child) != null {
      node := node.child.At(child);
      child := 1 - child;
      ghost var t := Kid(u, direction);
      while node.child.At(child) != null
        invariant t.Fork? && Shape(t) && node == Root(t) && End(t, child) == End(Kid(u, direction), child)
        invariant tree.Valid()
        decreases t
      {
        node := node.child.At(child);
        t := Kid(t, child);
      }
      GapAtEnd(tree, q, u, direction);
    }
    where := Cookie(node, child);
  }

  lemma GapAtEnd<T>(tree: AvlTree<T>, q: Path<T>, u: Tree<T>, direction: Side)
    requires u.Fork? && Kid(u, direction).Fork? && Nodes(u) <= Nodes(tree.tree)
    ensures End(Kid(u, direction), 1 - direction) in Nodes(tree.tree)
  {
  }

  /** `value` compares different from every node. */
  ghost predicate Absent<T>(s: seq<Node<T>>, value: T, cmp: (T, T) -> int)
    reads s`data
  {
    forall i :: 0 <= i < |s| ==> cmp(value, s[i].data) != 0
  }

  lemma SortedInsert<T(!new)>(s: seq<Node<T>>, k: nat, n: Node<T>, cmp: (T, T) -> int)
    requires Ordering(cmp) && Sorted(s, cmp) && Splits(s, k, n.data, cmp)
    ensures Sorted(s[..k] + [n] + s[k..], cmp)
  {
    hide Ordering, Sorted;
    var w := s[..k] + [n] + s[k..];
    forall i, j | 0 <= i < j < |w| ensures cmp(w[i].data, w[j].data) < 0 {
      var a, b := if i < k then i else i - 1, if j < k then j else j - 1;
      if j == k {
        Flip(cmp, w[i].data, n.data);
      } else if i != k {
        SortedAt(s, cmp, a, b);
      }
    }
    SortedFrom(w, cmp);
  }

  lemma SortedFrom<T>(s: seq<Node<T>>, cmp: (T, T) -> int)
    requires forall i, j :: 0 <= i < j < |s| ==> cmp(s[i].data, s[j].data) < 0
    ensures Sorted(s, cmp)
  {
  }

  /** Add a node whose data is not in the tree yet. */
  method Add<T(!new)>(tree: AvlTree<T>, newNode: Node<T>)
    requires tree.Valid() && newNode !in Nodes(tree.tree)
    requires Ordering(tree.compar) && Sorted(InOrder(tree.tree), tree.compar)
    requires Absent(InOrder(tree.tree), newNode.data, tree.compar)
    modifies tree`root, tree`numnodes, tree`tree
    modifies (Nodes(tree.tree) + {newNode})`child, (Nodes(tree.tree) + {newNode})`parent
    modifies (Nodes(tree.tree) + {newNode})`childIndex, (Nodes(tree.tree) + {newNode})`balance
    ensures tree.Valid() && Sorted(InOrder(tree.tree), tree.compar)
    ensures Nodes(tree.tree) == old(Nodes(tree.tree)) + {newNode}
  {
    hide InOrder, Nodes, AvlTree.Valid, AvlTree.Gap, Ordering, Sorted, Splits;
    NodesAllocated(tree.tree);
    InOrderAllocated(tree.tree);
    InOrderNodes(tree.tree);
    ghost var s := InOrder(tree.tree);
    var r, where;
    ghost var k;
    r, where, k := Find(tree, newNode.data);
    assert r != null ==> r in s;
    ghost var rotations := tree.Insert(newNode, where, k);
    SortedInsert(s, k, newNode, tree.compar);
  }

  /** Sorted, apart from the node at position `i`, whose data may be anything not found elsewhere. */
  ghost predicate SortedExcept<T>(s: seq<Node<T>>, i: nat, cmp: (T, T) -> int)
    reads s`data
  {
    && i < |s|
    && (forall a, b :: 0 <= a < b < |s| && a != i && b != i ==> cmp(s[a].data, s[b].data) < 0)
    && (forall a :: 0 <= a < |s| && a != i ==> cmp(s[i].data, s[a].data) != 0)
  }

  /** Two neighbour checks decide global order. */
  lemma NeighboursSuffice<T(!new)>(s: seq<Node<T>>, i: nat, cmp: (T, T) -> int)
    requires Ordering(cmp) && SortedExcept(s, i, cmp)
    ensures Sorted(s, cmp) <==>
            (i > 0 ==> cmp(s[i].data, s[i - 1].data) >= 0) && (i + 1 < |s| ==> cmp(s[i].data, s[i + 1].data) <= 0)
  {
    hide Ordering;
    if i > 0 { Flip(cmp, s[i].data, s[i - 1].data); }
    if (i > 0 ==> cmp(s[i].data, s[i - 1].data) >= 0) && (i + 1 < |s| ==> cmp(s[i].data, s[i + 1].data) <= 0) {
      forall a, b | 0 <= a < b < |s| ensures cmp(s[a].data, s[b].data) < 0 {
        if b == i && a < i - 1 {
          Below(cmp, s[a].data, s[i - 1].data, s[i].data);
        } else if a == i && i + 1 < b {
          Below(cmp, s[i].data, s[i + 1].data, s[b].data);
        }
      }
    }
  }

  lemma RestSorted<T>(s: seq<Node<T>>, i: nat, cmp: (T, T) -> int)
    requires SortedExcept(s, i, cmp)
    ensures Sorted(s[..i] + s[i + 1..], cmp) && Absent(s[..i] + s[i + 1..], s[i].data, cmp)
  {
    var w := s[..i] + s[i + 1..];
    forall a, b | 0 <= a < b < |w| ensures cmp(w[a].data, w[b].data) < 0 {
      assert w[a] == s[if a < i then a else a + 1] && w[b] == s[if b < i then b else b + 1];
    }
    forall a | 0 <= a < |w| ensures cmp(s[i].data, w[a].data) != 0 {
      assert w[a] == s[if a < i then a else a + 1];
    }
  }

  /** Take `obj` out and put it back where its data belongs. */
  method Reinsert<T(!new)>(tree: AvlTree<T>, obj: Node<T>, ghost i: nat)
    requires tree.Valid() && Ordering(tree.compar) && obj in Nodes(tree.tree)
    requires SortedExcept(InOrder(tree.tree), i, tree.compar) && InOrder(tree.tree)[i] == obj
    modifies tree`root, tree`numnodes, tree`tree
    modifies Nodes(tree.tree)`child, Nodes(tree.tree)`parent, Nodes(tree.tree)`childIndex, Nodes(tree.tree)`balance
    ensures tree.Valid() && Sorted(InOrder(tree.tree), tree.compar)
    ensures Nodes(tree.tree) == old(Nodes(tree.tree))
  {
    hide InOrder, Nodes, AvlTree.Valid, Ordering, Sorted, Absent, SortedExcept;
    ghost var s := InOrder(tree.tree);
    NodesAllocated(tree.tree);
    InOrderAllocated(tree.tree);
    ExceptIndex(s, i, tree.compar);
    tree.Remove(obj, i);
    RestSorted(s, i, tree.compar);
    Add(tree, obj);
  }

  lemma ExceptIndex<T>(s: seq<Node<T>>, i: nat, cmp: (T, T) -> int)
    requires SortedExcept(s, i, cmp)
    ensures i < |s|
  {
  }

  /** Re-sort after the data of `obj` became smaller; the source asserts it is still before its successor. */
  method UpdateLt<T(!new)>(tree: AvlTree<T>, obj: Node<T>, ghost i: nat) returns (moved: bool)
    requires tree.Valid() && Ordering(tree.compar) && obj in Nodes(tree.tree)
    requires SortedExcept(InOrder(tree.tree), i, tree.compar) && InOrder(tree.tree)[i] == obj
    requires i + 1 < |InOrder(tree.tree)| ==> tree.compar(obj.data, InOrder(tree.tree)[i + 1].data) <= 0
    modifies tree`root, tree`numnodes, tree`tree
    modifies Nodes(tree.tree)`child, Nodes(tree.tree)`parent, Nodes(tree.tree)`childIndex, Nodes(tree.tree)`balance
    ensures tree.Valid() && Sorted(InOrder(tree.tree), tree.compar)
    ensures Nodes(tree.tree) == old(Nodes(tree.tree))
    ensures moved <==> !old(Sorted(InOrder(tree.tree), tree.compar))
    ensures !moved ==> InOrder(tree.tree) == old(InOrder(tree.tree))
  {
    hide InOrder, Nodes, AvlTree.Valid, Ordering, Sorted, Absent, SortedExcept;
    ghost var s := InOrder(tree.tree);
    NodesAllocated(tree.tree);
    InOrderAllocated(tree.tree);
    ExceptIndex(s, i, tree.compar);
    NeighboursSuffice(s, i, tree.compar);
    var neighbor := Walk(tree, obj, 0, i);
    if neighbor != null && tree.compar(obj.data, neighbor.data) < 0 {
      Reinsert(tree, obj, i);
      return true;
    }
    return false;
  }

  /** Re-sort after the data of `obj` became larger; the source asserts it is still after its predecessor. */
  method UpdateGt<T(!new)>(tree: AvlTree<T>, obj: Node<T>, ghost i: nat) returns (moved: bool)
    requires tree.Valid() && Ordering(tree.compar) && obj in Nodes(tree.tree)
    requires SortedExcept(InOrder(tree.tree), i, tree.compar) && InOrder(tree.tree)[i] == obj
    requires 0 < i ==> tree.compar(obj.data, InOrder(tree.tree)[i - 1].data) >= 0
    modifies tree`root, tree`numnodes, tree`tree
    modifies Nodes(tree.tree)`child, Nodes(tree.tree)`parent, Nodes(tree.tree)`childIndex, Nodes(tree.tree)`balance
    ensures tree.Valid() && Sorted(InOrder(tree.tree), tree.compar)
    ensures Nodes(tree.tree) == old(Nodes(tree.tree))
    ensures moved <==> !old(Sorted(InOrder(tree.tree), tree.compar))
    ensures !moved ==> InOrder(tree.tree) == old(InOrder(tree.tree))
  {
    hide InOrder, Nodes, AvlTree.Valid, Ordering, Sorted, Absent, SortedExcept;
    ghost var s := InOrder(tree.tree);
    NodesAllocated(tree.tree);
    InOrderAllocated(tree.tree);
    ExceptIndex(s, i, tree.compar);
    NeighboursSuffice(s, i, tree.compar);
    var neighbor := Walk(tree, obj, 1, i);
    if neighbor != null && tree.compar(obj.data, neighbor.data) > 0 {
      Reinsert(tree, obj, i);
      return true;
    }
    return false;
  }

  /** Re-sort after the data of `obj` changed to any value no other member has. */
  method Update<T(!new)>(tree: AvlTree<T>, obj: Node<T>, ghost i: nat) returns (moved: bool)
    requires tree.Valid() && Ordering(tree.compar) && obj in Nodes(tree.tree)
    requires SortedExcept(InOrder(tree.tree), i, tree.compar) && InOrder(tree.tree)[i] == obj
    modifies tree`root, tree`numnodes, tree`tree
    modifies Nodes(tree.tree)`child, Nodes(tree.tree)`parent, Nodes(tree.tree)`childIndex, Nodes(tree.tree)`balance
    ensures tree.Valid() && Sorted(InOrder(tree.tree), tree.compar)
    ensures Nodes(tree.tree) == old(Nodes(tree.tree))
    ensures moved <==> !old(Sorted(InOrder(tree.tree), tree.compar))
    ensures !moved ==> InOrder(tree.tree) == old(InOrder(tree.tree))
  {
    hide InOrder, Nodes, AvlTree.Valid, Ordering, Sorted, Absent, SortedExcept;
    ghost var s := InOrder(tree.tree);
    NodesAllocated(tree.tree);
    InOrderAllocated(tree.tree);
    ExceptIndex(s, i, tree.compar);
    NeighboursSuffice(s, i, tree.compar);
    var neighbor := Walk(tree, obj, 0, i);
    if neighbor != null && tree.compar(obj.data, neighbor.data) < 0 {
      Reinsert(tree, obj, i);
      return true;
    }
    neighbor := Walk(tree, obj, 1, i);
    if neighbor != null && tree.compar(obj.data, neighbor.data) > 0 {
      Reinsert(tree, obj, i);
      return true;
    }
    return false;
  }
}
