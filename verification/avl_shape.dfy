/** Shapes of AVL trees and the zipper used to talk about "the tree above this point".

    A `Tree` is the shape a linked structure has at one moment: which node sits where.
    A `Path` is what remains of a tree when one subtree is taken out. */
module AvlShape {

  /** Child indices: 0 is left ("<"), 1 is right (">"). */
  type Side = i: int | 0 <= i <= 1

  /** The three balances a node's packed word can hold. */
  type Balance = b: int | -1 <= b <= 1

  /** The two child links of a node. */
  datatype Links<T> = Links(lo: Node?<T>, hi: Node?<T>) {
    function At(i: Side): Node?<T> {
      if i == 0 then lo else hi
    }

    function With(i: Side, n: Node?<T>): Links<T> {
      if i == 0 then Links(n, hi) else Links(lo, n)
    }
  }

  /** The embedded tree node: two child links, the parent link, the "which child am I" bit and
      the balance.  `data` stands for the structure the node is embedded in. */
  class Node<T> {
    var child: Links<T>
    var parent: Node?<T>
    var childIndex: Side
    var balance: Balance
    var data: T

    constructor (d: T)
      ensures data == d
    {
      child := Links(null, null);
      parent := null;
      childIndex := 0;
      balance := 0;
      data := d;
    }
  }

  datatype Tree<T> = Leaf | Fork(left: Tree<T>, node: Node<T>, right: Tree<T>)

  datatype Path<T> = Top | Step(node: Node<T>, side: Side, sibling: Tree<T>, up: Path<T>)

  ghost function Max(a: int, b: int): int {
    if a < b then b else a
  }

  /** A node together with the subtree `a` on side `i` and the subtree `b` on the other side. */
  ghost function Join<T>(i: Side, a: Tree<T>, n: Node<T>, b: Tree<T>): Tree<T> {
    if i == 0 then Fork(a, n, b) else Fork(b, n, a)
  }

  ghost function Kid<T>(t: Tree<T>, i: Side): Tree<T>
    requires t.Fork?
  {
    if i == 0 then t.left else t.right
  }

  ghost function Root<T>(t: Tree<T>): Node?<T> {
    if t.Leaf? then null else t.node
  }

  /** The set that holds `n`, if there is one. */
  ghost function Some<T>(n: Node?<T>): set<Node<T>> {
    if n == null then {} else {n}
  }

  ghost function Height<T>(t: Tree<T>): nat {
    if t.Leaf? then 0 else 1 + Max(Height(t.left), Height(t.right))
  }

  lemma HeightLeaf<T>(t: Tree<T>)
    ensures Height(t) == 0 <==> t.Leaf?
  {
  }

  lemma HeightJoin<T>(i: Side, a: Tree<T>, n: Node<T>, b: Tree<T>)
    ensures Height(Join(i, a, n, b)) == 1 + Max(Height(a), Height(b))
  {
  }

  ghost function InOrder<T>(t: Tree<T>): seq<Node<T>> {
    if t.Leaf? then [] else InOrder(t.left) + [t.node] + InOrder(t.right)
  }

  ghost function Nodes<T>(t: Tree<T>): set<Node<T>> {
    if t.Leaf? then {} else Nodes(t.left) + {t.node} + Nodes(t.right)
  }

  lemma NodesEither<T>(a: Tree<T>, n: Node<T>, b: Tree<T>)
    ensures Nodes(Join(0, a, n, b)) == Nodes(Join(1, a, n, b))
  {
  }

  /** No node occurs twice in the shape. */
  ghost predicate Distinct<T>(t: Tree<T>) {
    t.Leaf? ||
    (&& Distinct(t.left) && Distinct(t.right)
     && t.node !in Nodes(t.left) && t.node !in Nodes(t.right)
     && Nodes(t.left) !! Nodes(t.right))
  }

  ghost function Plug<T>(p: Path<T>, t: Tree<T>): Tree<T>
    decreases p
  {
    if p.Top? then t else Plug(p.up, Join(p.side, t, p.node, p.sibling))
  }

  ghost function PathNodes<T>(p: Path<T>): set<Node<T>> {
    if p.Top? then {} else {p.node} + Nodes(p.sibling) + PathNodes(p.up)
  }

  ghost predicate PathDistinct<T>(p: Path<T>) {
    p.Top? ||
    (&& Distinct(p.sibling) && PathDistinct(p.up)
     && p.node !in Nodes(p.sibling) && p.node !in PathNodes(p.up)
     && Nodes(p.sibling) !! PathNodes(p.up))
  }

  /** The members of `t` below its root. */
  ghost function Inner<T>(t: Tree<T>): (s: set<Node<T>>)
    ensures s <= Nodes(t) && (t.Fork? && Distinct(t) ==> t.node !in s)
  {
    if t.Leaf? then {} else Nodes(t.left) + Nodes(t.right)
  }

  /** The unfolding of `Nodes` and `Distinct`, for proofs that keep the two hidden. */
  lemma UnfoldTree<T>(t: Tree<T>)
    requires t.Fork? && Distinct(t)
    ensures Nodes(t) == Nodes(t.left) + {t.node} + Nodes(t.right)
    ensures Distinct(t.left) && Distinct(t.right) && Nodes(t.left) !! Nodes(t.right)
    ensures t.node !in Nodes(t.left) && t.node !in Nodes(t.right)
    ensures Inner(t) <= Nodes(t) && Inner(t.left) <= Nodes(t.left) && Inner(t.right) <= Nodes(t.right)
    ensures t.node !in Inner(t)
    ensures t.left.Fork? ==> t.left.node in Nodes(t.left)
    ensures t.right.Fork? ==> t.right.node in Nodes(t.right)
  {
  }

  lemma {:induction false} NodesAllocated<T>(t: Tree<T>)
    ensures allocated(Nodes(t))
  {
    if t.Fork? {
      NodesAllocated(t.left);
      NodesAllocated(t.right);
    }
  }

  lemma {:induction false} InOrderAllocated<T>(t: Tree<T>)
    ensures allocated(InOrder(t))
  {
    if t.Fork? {
      InOrderAllocated(t.left);
      InOrderAllocated(t.right);
    }
  }

  lemma {:induction false} PathNodesAllocated<T>(p: Path<T>)
    ensures allocated(PathNodes(p))
  {
    if p.Step? {
      NodesAllocated(p.sibling);
      PathNodesAllocated(p.up);
    }
  }

  /** The unfolding of `PathNodes` and `PathDistinct`. */
  lemma UnfoldPath<T>(p: Path<T>)
    requires p.Step? && PathDistinct(p)
    ensures PathNodes(p) == {p.node} + Nodes(p.sibling) + PathNodes(p.up)
    ensures Distinct(p.sibling) && PathDistinct(p.up) && Nodes(p.sibling) !! PathNodes(p.up)
    ensures p.node !in Nodes(p.sibling) && p.node !in PathNodes(p.up)
    ensures Inner(p.sibling) <= Nodes(p.sibling)
    ensures p.sibling.Fork? ==> p.sibling.node in Nodes(p.sibling)
  {
  }

  /** What precedes, in order, whatever is plugged into `p`. */
  ghost function Before<T>(p: Path<T>): seq<Node<T>> {
    if p.Top? then []
    else if p.side == 0 then Before(p.up)
    else Before(p.up) + InOrder(p.sibling) + [p.node]
  }

  /** What follows, in order, whatever is plugged into `p`. */
  ghost function After<T>(p: Path<T>): seq<Node<T>> {
    if p.Top? then []
    else if p.side == 0 then [p.node] + InOrder(p.sibling) + After(p.up)
    else After(p.up)
  }

  /** The node that owns the hole of `p`. */
  ghost function Owner<T>(p: Path<T>): Node?<T> {
    if p.Top? then null else p.node
  }

  /** The topmost node of the tree when the hole of `p` holds `hole`. */
  ghost function PathRoot<T>(p: Path<T>, hole: Node?<T>): Node?<T>
    decreases p
  {
    if p.Top? then hole else PathRoot(p.up, p.node)
  }

  /** Moving a subtree's parent from the path into the subtree changes neither order nor members. */
  lemma {:induction false} MoveUp<T>(p: Path<T>, t: Tree<T>)
    requires p.Step?
    ensures var u := Join(p.side, t, p.node, p.sibling);
      && Before(p.up) + InOrder(u) + After(p.up) == Before(p) + InOrder(t) + After(p)
      && PathNodes(p.up) + Nodes(u) == PathNodes(p) + Nodes(t)
  {
    hide PathDistinct, Distinct;
    var b, x, y, a := Before(p.up), InOrder(t), InOrder(p.sibling), After(p.up);
    if p.side == 0 {
      assert b + (x + [p.node] + y) + a == b + x + ([p.node] + y + a);
    } else {
      assert b + (y + [p.node] + x) + a == (b + y + [p.node]) + x + a;
    }
  }

  lemma {:induction false} PlugInOrder<T>(p: Path<T>, t: Tree<T>)
    ensures InOrder(Plug(p, t)) == Before(p) + InOrder(t) + After(p)
    decreases p
  {
    if p.Step? {
      PlugInOrder(p.up, Join(p.side, t, p.node, p.sibling));
    }
  }

  lemma {:induction false} PlugNodes<T>(p: Path<T>, t: Tree<T>)
    ensures Nodes(Plug(p, t)) == PathNodes(p) + Nodes(t)
    ensures PathDistinct(p) && Distinct(t) && PathNodes(p) !! Nodes(t) <==> Distinct(Plug(p, t))
    ensures Root(Plug(p, t)) == PathRoot(p, Root(t))
    decreases p
  {
    if p.Step? {
      PlugNodes(p.up, Join(p.side, t, p.node, p.sibling));
    }
  }

  lemma {:induction false} InOrderNodes<T>(t: Tree<T>)
    ensures forall i :: 0 <= i < |InOrder(t)| ==> InOrder(t)[i] in Nodes(t)
    ensures forall n :: n in Nodes(t) ==> n in InOrder(t)
  {
    if t.Fork? {
      InOrderNodes(t.left);
      InOrderNodes(t.right);
    }
  }

  lemma {:induction false} InOrderInjective<T>(t: Tree<T>)
    requires Distinct(t)
    ensures forall i, j :: 0 <= i < j < |InOrder(t)| ==> InOrder(t)[i] != InOrder(t)[j]
  {
    if t.Fork? {
      InOrderInjective(t.left);
      InOrderInjective(t.right);
      InOrderNodes(t.left);
      InOrderNodes(t.right);
      var a, s, b := InOrder(t.left), InOrder(t), InOrder(t.right);
      forall i, j | 0 <= i < j < |s| ensures s[i] != s[j] {
        assert s == a + [t.node] + b;
      }
    }
  }

  /** Every member of a tree is the root of some subtree. */
  lemma {:induction false} Locate<T>(t: Tree<T>, n: Node<T>, p: Path<T>) returns (q: Path<T>, s: Tree<T>)
    requires n in Nodes(t)
    ensures Plug(q, s) == Plug(p, t) && s.Fork? && s.node == n
    decreases t
  {
    if t.node == n {
      q, s := p, t;
    } else if n in Nodes(t.left) {
      q, s := Locate(t.left, n, Step(t.node, 0, t.right, p));
    } else {
      q, s := Locate(t.right, n, Step(t.node, 1, t.left, p));
    }
  }

  /** Where a located node stands in order. */
  lemma {:induction false} Position<T>(q: Path<T>, s: Tree<T>, i: nat)
    requires s.Fork? && Distinct(Plug(q, s)) && i < |InOrder(Plug(q, s))| && InOrder(Plug(q, s))[i] == s.node
    ensures i == |Before(q)| + |InOrder(s.left)|
  {
    hide Distinct;
    var w, j := InOrder(Plug(q, s)), |Before(q)| + |InOrder(s.left)|;
    PlugInOrder(q, s);
    InOrderInjective(Plug(q, s));
    assert InOrder(s)[|InOrder(s.left)|] == s.node;
    assert w[j] == s.node;
  }

  ghost function Fib(n: nat): nat {
    if n < 2 then n else Fib(n - 1) + Fib(n - 2)
  }

  lemma {:induction false} FibMonotone(m: nat, n: nat)
    requires m <= n
    ensures Fib(m) <= Fib(n)
    decreases n
  {
    if m < n {
      FibMonotone(m, n - 1);
    }
  }

  lemma FibSteps(n: nat)
    ensures Fib(n + 2) == Fib(n + 1) + Fib(n) && Fib(2) == 1
  {
  }
}
