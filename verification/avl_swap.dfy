/** Swapping a node with a neighbour through a placeholder is a renaming of the tree. */
module AvlSwap {
  import opened AvlShape
  import opened AvlHeap

  /** `node` takes the place of `del`, and the placeholder `tmp` the place of `node`. */
  ghost function Ren<T>(x: Node?<T>, del: Node<T>, node: Node<T>, tmp: Node<T>): Node?<T> {
    if x == del then node else if x == node then tmp else x
  }

  ghost function RenTree<T>(t: Tree<T>, del: Node<T>, node: Node<T>, tmp: Node<T>): Tree<T> {
    if t.Leaf? then Leaf
    else Fork(RenTree(t.left, del, node, tmp), Ren(t.node, del, node, tmp), RenTree(t.right, del, node, tmp))
  }

  lemma {:induction false} RenTreeInOrder<T>(t: Tree<T>, del: Node<T>, node: Node<T>, tmp: Node<T>)
    ensures Height(RenTree(t, del, node, tmp)) == Height(t)
    ensures |InOrder(RenTree(t, del, node, tmp))| == |InOrder(t)|
    ensures forall i :: 0 <= i < |InOrder(t)| ==>
      InOrder(RenTree(t, del, node, tmp))[i] == Ren(InOrder(t)[i], del, node, tmp)
  {
    if t.Fork? {
      RenTreeInOrder(t.left, del, node, tmp);
      RenTreeInOrder(t.right, del, node, tmp);
    }
  }

  /** The members of the renamed tree. */
  ghost function RenNodes<T>(all: set<Node<T>>, del: Node<T>, node: Node<T>, tmp: Node<T>): set<Node<T>> {
    (all - {del, node}) + (if del in all then {node} else {}) + (if node in all then {tmp} else {})
  }

  lemma {:induction false} RenTreeMembers<T>(t: Tree<T>, del: Node<T>, node: Node<T>, tmp: Node<T>)
    requires Distinct(t) && del != node && tmp != del && tmp != node
    ensures Nodes(RenTree(t, del, node, tmp)) == RenNodes(Nodes(t), del, node, tmp)
  {
    if t.Fork? {
      RenTreeMembers(t.left, del, node, tmp);
      RenTreeMembers(t.right, del, node, tmp);
    }
  }

  lemma RenNodesApart<T>(a: set<Node<T>>, b: set<Node<T>>, del: Node<T>, node: Node<T>, tmp: Node<T>)
    requires a !! b && tmp !in a + b && del != node && tmp != del && tmp != node
    ensures RenNodes(a, del, node, tmp) !! RenNodes(b, del, node, tmp)
    ensures forall n :: n !in a && n !in {del, node, tmp} ==> n !in RenNodes(a, del, node, tmp)
  {
  }

  lemma {:induction false} RenTreeNodes<T>(t: Tree<T>, del: Node<T>, node: Node<T>, tmp: Node<T>)
    requires Distinct(t) && tmp !in Nodes(t)
    requires del != node && tmp != del && tmp != node
    ensures Distinct(RenTree(t, del, node, tmp))
    ensures Nodes(RenTree(t, del, node, tmp)) ==
            (Nodes(t) - {del, node})
            + (if del in Nodes(t) then {node} else {}) + (if node in Nodes(t) then {tmp} else {})
  {
    RenTreeMembers(t, del, node, tmp);
    if t.Fork? {
      RenTreeNodes(t.left, del, node, tmp);
      RenTreeNodes(t.right, del, node, tmp);
      RenNodesApart(Nodes(t.left), Nodes(t.right), del, node, tmp);
    }
  }

  /** The link fields of a node at some moment. */
  datatype Fields<T> = Fields(child: Links<T>, parent: Node?<T>, childIndex: Side, balance: Balance)

  type Snapshot<T> = map<Node<T>, Fields<T>>

  ghost function FieldsOf<T>(n: Node<T>): Fields<T>
    reads n
  {
    Fields(n.child, n.parent, n.childIndex, n.balance)
  }

  /** The snapshot spelled out `t` when it was taken. */
  ghost predicate WasShape<T>(t: Tree<T>, s: Snapshot<T>) {
    t.Fork? ==>
      && t.node in s && s[t.node].child == Links(Root(t.left), Root(t.right))
      && s[t.node].balance == Height(t.right) - Height(t.left)
      && (t.left.Fork? ==> t.left.node in s && s[t.left.node].parent == t.node && s[t.left.node].childIndex == 0)
      && (t.right.Fork? ==> t.right.node in s && s[t.right.node].parent == t.node && s[t.right.node].childIndex == 1)
      && WasShape(t.left, s) && WasShape(t.right, s)
  }

  lemma SubNodes<T>(t: Tree<T>)
    requires t.Fork?
    ensures Nodes(t) == Nodes(t.left) + {t.node} + Nodes(t.right)
    ensures t.left.Fork? ==> t.left.node in Nodes(t.left)
    ensures t.right.Fork? ==> t.right.node in Nodes(t.right)
  {
  }

  lemma {:induction false} TakeSnapshot<T>(t: Tree<T>, s: Snapshot<T>)
    requires Shape(t) && forall m :: m in Nodes(t) ==> m in s && s[m] == FieldsOf(m)
    ensures WasShape(t, s)
  {
    hide InOrder, Distinct, Height, Nodes;
    if t.Fork? {
      SubNodes(t);
      TakeSnapshot(t.left, s);
      TakeSnapshot(t.right, s);
    }
  }

  /** The heir of `m` now has the renamed fields `m` had. */
  ghost predicate Renamed<T>(m: Node<T>, s: Snapshot<T>, del: Node<T>, node: Node<T>, tmp: Node<T>)
    requires m in s
    reads Ren(m, del, node, tmp)
  {
    var n := Ren(m, del, node, tmp);
    && n.child == Links(Ren(s[m].child.lo, del, node, tmp), Ren(s[m].child.hi, del, node, tmp))
    && n.balance == s[m].balance && n.childIndex == s[m].childIndex
    && n.parent == Ren(s[m].parent, del, node, tmp)
  }

  lemma {:induction false} RenTreeShape<T>(t: Tree<T>, s: Snapshot<T>, del: Node<T>, node: Node<T>, tmp: Node<T>)
    requires WasShape(t, s) && forall m :: m in Nodes(t) ==> m in s && Renamed(m, s, del, node, tmp)
    ensures Shape(RenTree(t, del, node, tmp))
    decreases t
  {
    hide InOrder, Distinct, Height, Nodes;
    if t.Fork? {
      SubNodes(t);
      RenTreeShape(t.left, s, del, node, tmp);
      RenTreeShape(t.right, s, del, node, tmp);
      RenTreeInOrder(t.left, del, node, tmp);
      RenTreeInOrder(t.right, del, node, tmp);
      assert Renamed(t.node, s, del, node, tmp);
    }
  }

  lemma RenTreeSwaps<T>(t: Tree<T>, k: nat, j: nat, del: Node<T>, node: Node<T>, tmp: Node<T>)
    requires Distinct(t) && del != node
    requires k < |InOrder(t)| && InOrder(t)[k] == del && j < |InOrder(t)| && InOrder(t)[j] == node
    ensures InOrder(RenTree(t, del, node, tmp)) == InOrder(t)[k := node][j := tmp]
  {
    hide Distinct, InOrder, Height, RenTree;
    RenTreeInOrder(t, del, node, tmp);
    InOrderInjective(t);
  }

  /** The whole tree after a swap. */
  lemma Swapped<T>(t: Tree<T>, s: Snapshot<T>, k: nat, j: nat, del: Node<T>, node: Node<T>, tmp: Node<T>)
    requires t.Fork? && Distinct(t) && WasShape(t, s) && tmp !in Nodes(t)
    requires AllRenamed(Nodes(t), s, del, node, tmp)
    requires del in Nodes(t) && node in Nodes(t) && del != node
    requires k < |InOrder(t)| && InOrder(t)[k] == del && j < |InOrder(t)| && InOrder(t)[j] == node
    requires t.node in s && s[t.node].parent == null
    ensures var w := RenTree(t, del, node, tmp);
      && Focus(Top, w, Height(w)) && Root(w) == Ren(t.node, del, node, tmp)
      && Nodes(w) == Nodes(t) - {del} + {tmp}
      && InOrder(w) == InOrder(t)[k := node][j := tmp]
  {
    hide Nodes, Distinct, InOrder, Height, WasShape;
    var w := RenTree(t, del, node, tmp);
    RenTreeShape(t, s, del, node, tmp);
    RenTreeNodes(t, del, node, tmp);
    RenTreeSwaps(t, k, j, del, node, tmp);
    SubNodes(t);
    assert PathNodes<T>(Top) == {};
    assert Renamed(t.node, s, del, node, tmp);
  }

  /** Links are mirrored: who is whose child and who is whose parent say the same. */
  ghost predicate Mirrored<T>(m: Node<T>, all: set<Node<T>>)
    reads m, all
  {
    && (m.child.lo != null ==> m.child.lo in all && m.child.lo.parent == m && m.child.lo.childIndex == 0)
    && (m.child.hi != null ==> m.child.hi in all && m.child.hi.parent == m && m.child.hi.childIndex == 1)
    && (m.parent != null ==> m.parent in all && m.parent.child.At(m.childIndex) == m)
  }

  lemma {:induction false} ShapeMirrored<T>(t: Tree<T>, all: set<Node<T>>)
    requires Shape(t) && Nodes(t) <= all
    requires t.Fork? && t.node.parent != null ==>
      t.node.parent in all && t.node.parent.child.At(t.node.childIndex) == t.node
    ensures forall m :: m in Nodes(t) ==> Mirrored(m, all)
    ensures forall m :: m in Nodes(t) && m != Root(t) ==> m.parent != null
  {
    if t.Fork? {
      hide InOrder, Distinct, Height, Nodes;
      SubNodes(t);
      ShapeMirrored(t.left, all);
      ShapeMirrored(t.right, all);
    }
  }

  /** What the neighbours of the two swapped nodes look like afterwards. */
  ghost predicate Relinked<T>(m: Node<T>, s: Snapshot<T>, left: Side, del: Node<T>, node: Node<T>, tmp: Node<T>)
    requires m in s && del in s && node in s
    reads m
  {
    var d, n := s[del], s[node];
    && m.child == (if m == d.parent then s[m].child.With(d.childIndex, node)
                   else if m == n.parent then s[m].child.With(n.childIndex, tmp) else s[m].child)
    && m.parent == (if m == d.child.lo || m == d.child.hi then node
                    else if m == n.child.At(left) then tmp else s[m].parent)
    && m.balance == s[m].balance && m.childIndex == s[m].childIndex
  }

  /** The same, half way: only the neighbours of `del` know of the change yet. */
  ghost predicate HalfRelinked<T>(m: Node<T>, s: Snapshot<T>, del: Node<T>, node: Node<T>)
    requires m in s && del in s
    reads m
  {
    var d := s[del];
    && m.child == (if m == d.parent then s[m].child.With(d.childIndex, node) else s[m].child)
    && m.parent == (if m == d.child.lo || m == d.child.hi then node else s[m].parent)
    && m.balance == s[m].balance && m.childIndex == s[m].childIndex
  }

  /** What the two swapped places look like afterwards. */
  ghost predicate Exchanged<T>(s: Snapshot<T>, left: Side, del: Node<T>, node: Node<T>, tmp: Node<T>)
    requires del in s && node in s
    reads node, tmp
  {
    var d, n := s[del], s[node];
    && FieldsOf(node) == d.(child := if d.child.At(left) == node then d.child.With(left, tmp) else d.child)
    && FieldsOf(tmp) == n.(parent := if d.child.At(left) == node then node else n.parent)
  }

  lemma HasRoot<T>(t: Tree<T>, m: Node<T>)
    requires m in Nodes(t)
    ensures t.Fork?
  {
  }

  /** Parents of members are members, or own the whole tree; nobody is its own parent. */
  lemma {:induction false} ParentsAbove<T>(t: Tree<T>, parent: Node?<T>, side: Side, m: Node<T>)
    requires t.Fork? && Shape(t) && UpLink(t, parent, side) && Distinct(t) && m in Nodes(t)
    requires (parent == null || parent !in Nodes(t))
    ensures m.parent == parent || m.parent in Nodes(t)
    ensures m.parent != m && (m.parent == null ==> parent == null && m == Root(t))
  {
    hide Nodes, Distinct, InOrder, Height;
    UnfoldTree(t);
    if m in Nodes(t.left) {
      HasRoot(t.left, m);
      ParentsAbove(t.left, t.node, 0, m);
    } else if m in Nodes(t.right) {
      HasRoot(t.right, m);
      ParentsAbove(t.right, t.node, 1, m);
    }
  }

  /** The neighbour found below `del` on side `left`, and its surroundings. */
  lemma NeighbourBelow<T>(q: Path<T>, u: Tree<T>, left: Side, node: Node<T>)
    requires u.Fork? && Focus(q, u, Height(u)) && Kid(u, left).Fork? && node == End(Kid(u, left), 1 - left)
    requires Kid(u, 1 - left).Fork?
    ensures node != u.node && node != u.node.parent && node != Kid(u, 1 - left).node
    ensures node.parent != null && node.parent != u.node.parent && node.parent != node && u.node.parent != u.node
    ensures node in Nodes(u)
    ensures var a := |InOrder(u.left)|; var b := if left == 0 then a - 1 else a + 1;
      0 <= b < |InOrder(u)| && InOrder(u)[b] == node
  {
    hide Nodes, PathNodes, Distinct, PathDistinct, Height, PathLinked;
    UnfoldTree(u);
    ParentsAbove(Kid(u, left), u.node, left, node);
    if q.Step? { UnfoldPath(q); }
  }

  /** Links were mirrored when the snapshot was taken. */
  ghost predicate WasMirrored<T>(m: Node<T>, all: set<Node<T>>, s: Snapshot<T>)
    requires all <= s.Keys && m in s
  {
    var f := s[m];
    && (f.child.lo != null ==> f.child.lo in all && s[f.child.lo].parent == m && s[f.child.lo].childIndex == 0)
    && (f.child.hi != null ==> f.child.hi in all && s[f.child.hi].parent == m && s[f.child.hi].childIndex == 1)
    && (f.parent != null ==> f.parent in all && s[f.parent].child.At(f.childIndex) == m)
  }

  lemma RelinkedRenames<T>(m: Node<T>, all: set<Node<T>>, s: Snapshot<T>, left: Side, del: Node<T>, node: Node<T>,
                           tmp: Node<T>)
    requires all <= s.Keys && m in all && del in all && node in all && node != del
    requires WasMirrored(m, all, s) && WasMirrored(del, all, s) && WasMirrored(node, all, s)
    requires s[node].parent != null && s[node].child.At(1 - left) == null
    requires node != s[del].parent && s[node].parent != s[del].parent && node != s[del].child.At(1 - left)
    requires s[node].parent != node && s[del].parent != del
    requires Exchanged(s, left, del, node, tmp)
    requires m != del && m != node ==> Relinked(m, s, left, del, node, tmp)
    ensures Renamed(m, s, del, node, tmp)
  {
  }

  /** `node` takes over the place of `del`, and `tmp` keeps what `node` was. */
  method TakePlace<T>(del: Node<T>, node: Node<T>, tmp: Node<T>, left: Side, ghost all: set<Node<T>>,
                      ghost s: Snapshot<T>)
    requires all <= s.Keys && del in all && node in all && node != del && tmp !in all
    requires forall m :: m in all ==> s[m] == FieldsOf(m)
    requires FieldsOf(tmp) == FieldsOf(node)
    requires Mirrored(del, all) && del.child.lo != null && del.child.hi != null
    requires node != del.parent && node != del.child.At(1 - left)
    modifies all`child, all`parent, all`childIndex, all`balance, tmp`parent
    ensures Exchanged(s, left, del, node, tmp)
    ensures forall m :: m in all && m != del && m != node ==> HalfRelinked(m, s, del, node)
  {
    var right: Side := 1 - left;
    node.child, node.parent, node.childIndex, node.balance := del.child, del.parent, del.childIndex, del.balance;
    if node.child.At(left) == node {
      node.child := node.child.With(left, tmp);
    }
    if node.parent != null {
      node.parent.child := node.parent.child.With(node.childIndex, node);
    }
    node.child.At(left).parent := node;
    node.child.At(right).parent := node;
  }

  /** Put the placeholder where `node` was. */
  method PutPlaceholder<T>(tmp: Node<T>, ghost del: Node<T>, ghost node: Node<T>, left: Side,
                           ghost all: set<Node<T>>, ghost s: Snapshot<T>)
    requires all <= s.Keys && del in all && node in all && node != del && tmp !in all
    requires Exchanged(s, left, del, node, tmp)
    requires forall m :: m in all && m != del && m != node ==> HalfRelinked(m, s, del, node)
    requires WasMirrored(node, all, s) && WasMirrored(del, all, s)
    requires s[node].parent != null && s[node].child.At(1 - left) == null
    requires node != s[del].parent && s[node].parent != s[del].parent && node != s[del].child.At(1 - left)
    requires s[node].parent != node && s[del].parent != del
    modifies all`child, all`parent
    ensures Exchanged(s, left, del, node, tmp)
    ensures forall m :: m in all && m != del && m != node ==> Relinked(m, s, left, del, node, tmp)
  {
    var parent := tmp.parent;
    parent.child := parent.child.With(tmp.childIndex, tmp);
    var whichChild: Side := if tmp.child.At(1) != null then 1 else 0;
    if tmp.child.At(whichChild) != null {
      tmp.child.At(whichChild).parent := tmp;
    }
  }

  /** `s` holds the fields of all members, whose links are mirrored. */
  ghost predicate Captured<T>(all: set<Node<T>>, s: Snapshot<T>)
    reads all
  {
    all <= s.Keys && forall m :: m in all ==> s[m] == FieldsOf(m) && Mirrored(m, all)
  }

  ghost predicate AllRenamed<T>(all: set<Node<T>>, s: Snapshot<T>, del: Node<T>, node: Node<T>, tmp: Node<T>)
    reads all, tmp, node
  {
    all <= s.Keys && forall m :: m in all ==> Renamed(m, s, del, node, tmp)
  }

  /** Take a snapshot of a whole tree. */
  lemma Capture<T>(t: Tree<T>) returns (s: Snapshot<T>)
    requires Focus(Top, t, Height(t))
    ensures Captured(Nodes(t), s) && WasShape(t, s)
    ensures t.Fork? ==> t.node in s && s[t.node].parent == null
  {
    hide Nodes, Distinct, InOrder, Height;
    s := map m | m in Nodes(t) :: FieldsOf(m);
    TakeSnapshot(t, s);
    ShapeMirrored(t, Nodes(t));
    if t.Fork? { SubNodes(t); }
  }

  /** Swap `del` with `node`, which has no child on the far side, through a placeholder. */
  method SwapNodes<T>(del: Node<T>, node: Node<T>, left: Side, ghost all: set<Node<T>>, ghost s: Snapshot<T>)
    returns (tmp: Node<T>)
    requires Captured(all, s) && del in all && node in all && node != del
    requires del.child.lo != null && del.child.hi != null
    requires node.parent != null && node.child.At(1 - left) == null
    requires node != del.parent && node.parent != del.parent && node != del.child.At(1 - left)
    requires node.parent != node && del.parent != del
    modifies all`child, all`parent, all`childIndex, all`balance
    ensures fresh(tmp) && AllRenamed(all, s, del, node, tmp)
    ensures node.parent == old(del.parent) && tmp.child.At(1 - left) == null
  {
    assert forall m :: m in all ==> WasMirrored(m, all, s);
    tmp := new Node(node.data);
    tmp.child, tmp.parent, tmp.childIndex, tmp.balance := node.child, node.parent, node.childIndex, node.balance;
    TakePlace(del, node, tmp, left, all, s);
    PutPlaceholder(tmp, del, node, left, all, s);
    forall m | m in all ensures Renamed(m, s, del, node, tmp) {
      RelinkedRenames(m, all, s, left, del, node, tmp);
    }
    assert Renamed(node, s, del, node, tmp) && Renamed(del, s, del, node, tmp);
  }
}
