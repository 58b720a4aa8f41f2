/** When a linked structure has a given AVL shape. */
module AvlHeap {
  import opened AvlShape

  /** The root of `t` knows that it is child `side` of `parent`. */
  ghost predicate UpLink<T>(t: Tree<T>, parent: Node?<T>, side: Side)
    reads Some(Root(t))`parent, Some(Root(t))`childIndex
  {
    t.Fork? ==> t.node.parent == parent && (parent != null ==> t.node.childIndex == side)
  }

  /** The links, child bits and stored balances spell out the AVL tree `t`; nothing is said
      about the way up from its root. */
  ghost predicate Shape<T>(t: Tree<T>)
    reads Nodes(t)`child, Nodes(t)`balance, Inner(t)`parent, Inner(t)`childIndex
  {
    t.Fork? ==>
      && t.node.child.At(0) == Root(t.left) && t.node.child.At(1) == Root(t.right)
      && t.node.balance == Height(t.right) - Height(t.left)
      && (assert t.left.Fork? ==> t.left.node in Nodes(t.left); UpLink(t.left, t.node, 0))
      && (assert t.right.Fork? ==> t.right.node in Nodes(t.right); UpLink(t.right, t.node, 1))
      && Shape(t.left) && Shape(t.right)
  }

  /** The balance of a node with height `h` on side `i` and height `k` on the other side. */
  ghost function Tilt(i: Side, h: int, k: int): int {
    if i == 0 then k - h else h - k
  }

  ghost function SideOf<T>(p: Path<T>): Side {
    if p.Top? then 0 else p.side
  }

  /** What `Shape` says of one node, with `a` on side `i` and `b` on the other side. */
  ghost predicate Knot<T>(i: Side, a: Tree<T>, n: Node<T>, b: Tree<T>)
    reads n`child, n`balance, Nodes(a)`parent, Nodes(a)`childIndex, Nodes(b)`parent, Nodes(b)`childIndex
  {
    && n.child.At(i) == Root(a) && n.child.At(1 - i) == Root(b)
    && n.balance == Tilt(i, Height(a), Height(b))
    && UpLink(a, n, i) && UpLink(b, n, 1 - i)
  }

  lemma ShapeJoin<T>(i: Side, a: Tree<T>, n: Node<T>, b: Tree<T>)
    ensures Shape(Join(i, a, n, b)) <==> Knot(i, a, n, b) && Shape(a) && Shape(b)
  {
  }

  /** Everything outside the hole of `p` is linked as it should be when the hole holds a
      subtree of height `h` rooted at `hole`. */
  ghost predicate PathLinked<T>(p: Path<T>, hole: Node?<T>, h: nat)
    reads PathNodes(p)
    decreases p
  {
    p.Step? ==>
      && p.node.child.At(p.side) == hole && p.node.child.At(1 - p.side) == Root(p.sibling)
      && p.node.parent == Owner(p.up) && (p.up.Step? ==> p.node.childIndex == p.up.side)
      && p.node.balance == Tilt(p.side, h, Height(p.sibling))
      && Shape(p.sibling) && UpLink(p.sibling, p.node, 1 - p.side)
      && PathLinked(p.up, p.node, 1 + Max(h, Height(p.sibling)))
  }

  ghost predicate Apart<T>(p: Path<T>, t: Tree<T>) {
    PathDistinct(p) && Distinct(t) && PathNodes(p) !! Nodes(t)
  }

  /** The subtree `t` sits in `p`, whose balances expect a subtree of height `h`. */
  ghost predicate Focus<T>(p: Path<T>, t: Tree<T>, h: nat)
    reads PathNodes(p), Nodes(t)
  {
    Apart(p, t) && PathLinked(p, Root(t), h) && Shape(t) && UpLink(t, Owner(p), SideOf(p))
  }

  lemma ApartUp<T>(p: Path<T>, t: Tree<T>)
    requires p.Step?
    ensures Apart(p, t) <==> Apart(p.up, Join(p.side, t, p.node, p.sibling))
  {
  }

  /** Moving the focus one level up. */
  lemma FocusUp<T>(p: Path<T>, t: Tree<T>)
    requires p.Step?
    ensures Focus(p, t, Height(t)) <==>
            var u := Join(p.side, t, p.node, p.sibling); Focus(p.up, u, Height(u))
  {
    ApartUp(p, t);
  }

  /** A focused tree is the whole tree, seen from one of its subtrees. */
  lemma {:induction false} FocusPlug<T>(p: Path<T>, t: Tree<T>)
    ensures Focus(p, t, Height(t)) <==> Focus(Top, Plug(p, t), Height(Plug(p, t)))
    decreases p
  {
    if p.Step? {
      FocusUp(p, t);
      FocusPlug(p.up, Join(p.side, t, p.node, p.sibling));
    }
  }

  /** `n` is not a member of `t`. */
  ghost predicate Off<T>(n: Node?<T>, t: Tree<T>)
    ensures Off(n, t) && n != null ==> n !in Nodes(t) && n !in Inner(t) && n != Root(t)
  {
    n == null || n !in Nodes(t)
  }

  /** What `PathLinked` says of the lowest step. */
  ghost predicate PathKnot<T>(p: Path<T>, hole: Node?<T>, h: nat)
    requires p.Step?
    reads p.node`child, p.node`balance, p.node`parent, p.node`childIndex
    reads Nodes(p.sibling)`parent, Nodes(p.sibling)`childIndex
  {
    && p.node.child.At(p.side) == hole && p.node.child.At(1 - p.side) == Root(p.sibling)
    && p.node.parent == Owner(p.up) && (p.up.Step? ==> p.node.childIndex == p.up.side)
    && p.node.balance == Tilt(p.side, h, Height(p.sibling))
    && UpLink(p.sibling, p.node, 1 - p.side)
  }

  lemma UnfoldPathLinked<T>(p: Path<T>, hole: Node?<T>, h: nat)
    ensures PathLinked(p, hole, h) <==>
            (p.Step? ==>
               && PathKnot(p, hole, h) && Shape(p.sibling)
               && PathLinked(p.up, p.node, 1 + Max(h, Height(p.sibling))))
    ensures PathRoot(p, hole) == if p.Top? then hole else PathRoot(p.up, p.node)
  {
  }

  /** A focused subtree, together with its parent. */
  lemma UnfoldFocus<T>(p: Path<T>, t: Tree<T>, h: nat)
    requires p.Step? && Focus(p, t, h)
    ensures var u := Join(p.side, t, p.node, p.sibling);
      && Apart(p.up, u) && PathKnot(p, Root(t), h) && Height(u) == 1 + Max(Height(t), Height(p.sibling))
      && Shape(t) && UpLink(t, p.node, p.side) && Shape(p.sibling)
      && PathLinked(p.up, p.node, 1 + Max(h, Height(p.sibling)))
      && Before(p.up) + InOrder(u) + After(p.up) == Before(p) + InOrder(t) + After(p)
      && PathNodes(p.up) + Nodes(u) == PathNodes(p) + Nodes(t)
      && PathRoot(p, Root(t)) == PathRoot(p.up, p.node)
      && p.node in PathNodes(p) && (p.up.Step? ==> p.up.node in PathNodes(p))
  {
    hide Before, After, InOrder, Nodes, PathNodes, Distinct, PathDistinct, Shape, PathLinked, PathRoot, Height;
    UnfoldPathLinked(p, Root(t), h);
    UnfoldPath(p);
    if p.up.Step? { UnfoldPath(p.up); }
    ApartUp(p, t);
    MoveUp(p, t);
    HeightJoin(p.side, t, p.node, p.sibling);
  }

  /** The tree obtained by plugging the focused subtree in is a whole AVL tree. */
  lemma CloseFocus<T>(p: Path<T>, t: Tree<T>)
    requires Focus(p, t, Height(t))
    ensures var w := Plug(p, t);
      && Focus(Top, w, Height(w)) && Root(w) == PathRoot(p, Root(t))
      && InOrder(w) == Before(p) + InOrder(t) + After(p) && Nodes(w) == PathNodes(p) + Nodes(t)
  {
    hide *;
    FocusPlug(p, t);
    PlugInOrder(p, t);
    PlugNodes(p, t);
  }

  /** Make the subtree `s`, rooted at `c`, child `side` of `n`, whose other child is `o`, and store the
      new balance of `n`. */
  method Hang<T>(n: Node<T>, side: Side, c: Node?<T>, bal: Balance, ghost s: Tree<T>, ghost o: Tree<T>)
    requires Distinct(Join(side, s, n, o))
    requires c == Root(s) && Shape(s)
    requires n.child.At(1 - side) == Root(o) && UpLink(o, n, 1 - side) && Shape(o)
    requires bal == Tilt(side, Height(s), Height(o))
    modifies n`child, n`balance
    modifies Some(c)`parent, Some(c)`childIndex
    ensures Shape(Join(side, s, n, o))
    ensures n.child == old(n.child.With(side, c))
  {
    hide Shape, Nodes, Distinct, Height;
    UnfoldTree(Join(side, s, n, o));
    if c != null { UnfoldTree(s); }
    n.child := n.child.With(side, c);
    if c != null {
      c.parent := n;
      c.childIndex := side;
    }
    n.balance := bal;
    ShapeJoin(side, s, n, o);
  }

  /** Give `n` the children `c` on side `side` and `d` on the other side, and store its new balance. */
  method HangBoth<T>(n: Node<T>, side: Side, c: Node<T>, d: Node<T>, bal: Balance, ghost s: Tree<T>, ghost o: Tree<T>)
    requires Distinct(Join(side, s, n, o))
    requires c == Root(s) && Shape(s) && d == Root(o) && Shape(o)
    requires bal == Tilt(side, Height(s), Height(o))
    modifies n`child, n`balance, c`parent, c`childIndex, d`parent, d`childIndex
    ensures Shape(Join(side, s, n, o))
  {
    hide Shape, Nodes, Distinct, Height;
    UnfoldTree(Join(side, s, n, o));
    UnfoldTree(s);
    UnfoldTree(o);
    n.child := n.child.With(side, c);
    c.parent := n;
    c.childIndex := side;
    n.child := n.child.With(1 - side, d);
    d.parent := n;
    d.childIndex := 1 - side;
    n.balance := bal;
    ShapeJoin(side, s, n, o);
  }

  /** The first (`i` is 0) or last (`i` is 1) node of a nonempty tree. */
  ghost function End<T>(t: Tree<T>, i: Side): (n: Node<T>)
    requires t.Fork?
    ensures n in Nodes(t) && |InOrder(t)| > 0
    ensures n == if i == 0 then InOrder(t)[0] else InOrder(t)[|InOrder(t)| - 1]
  {
    if Kid(t, i).Leaf? then t.node else End(Kid(t, i), i)
  }

  /** Go down from `start`, the root of `t`, as far as possible on side `i`. */
  method GoDown<T>(start: Node<T>, i: Side, ghost t: Tree<T>) returns (node: Node<T>)
    requires Shape(t) && start == Root(t)
    ensures node == End(t, i) && node.child.At(i) == null
  {
    hide InOrder, Nodes, Height;
    node := start;
    ghost var u := t;
    while node.child.At(i) != null
      invariant Shape(u) && node == Root(u) && End(u, i) == End(t, i)
      decreases u
    {
      node := node.child.At(i);
      u := Kid(u, i);
    }
  }

  lemma Heights<T>(t: Tree<T>)
    requires Shape(t)
    ensures t.Leaf? ==> Height(t) == 0
    ensures t.Fork? ==>
      && Shape(t.left) && Shape(t.right) && -1 <= Height(t.right) - Height(t.left) <= 1
      && Height(t) == 1 + Max(Height(t.left), Height(t.right))
      && |InOrder(t)| == |InOrder(t.left)| + 1 + |InOrder(t.right)|
  {
    hide Nodes;
  }

  /** An AVL tree of height h holds at least Fib(h + 2) - 1 nodes, so every search is logarithmic. */
  lemma {:induction false} FibonacciHeight<T>(t: Tree<T>)
    requires Shape(t)
    ensures |InOrder(t)| >= Fib(Height(t) + 2) - 1
  {
    hide Shape, Nodes, Fib, Height, InOrder;
    Heights(t);
    FibSteps(Height(t));
    if t.Fork? {
      FibonacciHeight(t.left);
      FibonacciHeight(t.right);
      FibMonotone(Height(t), Height(t.left) + 2);
      FibMonotone(Height(t), Height(t.right) + 2);
    }
  }
}
