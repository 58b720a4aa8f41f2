/** The two cases of a rotation, as operations on the subtree below the unbalanced node. */
module AvlRotation {
  import opened AvlShape
  import opened AvlHeap

  lemma {:induction false} RotationInOrder<T>(x: seq<T>, c: T, y: seq<T>, n: T, z: seq<T>)
    ensures (x + [c] + y) + [n] + z == x + [c] + (y + [n] + z)
  {
  }

  /** Rotating keeps the in-order sequence. */
  lemma {:induction false} SingleRotationKeeps<T>(i: Side, a: Tree<T>, c: Node<T>, b: Tree<T>, n: Node<T>, d: Tree<T>)
    ensures var s, t := Join(i, Join(i, a, c, b), n, d), Join(i, a, c, Join(i, b, n, d));
      InOrder(s) == InOrder(t)
  {
    hide Nodes, Distinct;
    RotationInOrder(InOrder(a), c, InOrder(b), n, InOrder(d));
    RotationInOrder(InOrder(d), n, InOrder(b), c, InOrder(a));
  }

  /** Rotating keeps the members. */
  lemma {:induction false} SingleRotationMembers<T>(i: Side, a: Tree<T>, c: Node<T>, b: Tree<T>, n: Node<T>, d: Tree<T>)
    ensures var s, t := Join(i, Join(i, a, c, b), n, d), Join(i, a, c, Join(i, b, n, d));
      Nodes(s) == Nodes(t) && (Distinct(s) <==> Distinct(t))
  {
    hide InOrder;
  }

  lemma SingleRotationDistinct<T>(i: Side, a: Tree<T>, n: Node<T>, b: Tree<T>)
    requires a.Fork? && Distinct(Join(i, a, n, b))
    ensures var al, ar, u := Kid(a, i), Kid(a, 1 - i), Join(i, Kid(a, 1 - i), n, b);
      && Off(n, al) && n != a.node && Off(Root(ar), al)
      && Distinct(u) && Distinct(Join(i, al, a.node, u))
      && {n, a.node} <= Nodes(Join(i, a, n, b)) && (ar.Fork? ==> ar.node in Nodes(Join(i, a, n, b)))
  {
    hide InOrder, Height;
    var al, ar, u := Kid(a, i), Kid(a, 1 - i), Join(i, Kid(a, 1 - i), n, b);
    assert a == Join(i, al, a.node, ar);
    SingleRotationMembers(i, al, a.node, ar, n, b);
    UnfoldTree(Join(i, a, n, b));
    UnfoldTree(a);
    UnfoldTree(Join(i, al, a.node, u));
  }

  /** The tree a double rotation starts from and the tree it makes. */
  lemma {:induction false} DoubleRotationKeeps<T>(i: Side, a: Tree<T>, c: Node<T>, x: Tree<T>, g: Node<T>,
                                                   y: Tree<T>, n: Node<T>, b: Tree<T>)
    ensures var s := Join(i, Join(i, a, c, Join(i, x, g, y)), n, b);
            var t := Join(i, Join(i, a, c, x), g, Join(i, y, n, b));
            InOrder(s) == InOrder(t) && Nodes(s) == Nodes(t) && (Distinct(s) <==> Distinct(t))
  {
    hide Nodes, Distinct, InOrder;
    var k := Join(i, a, c, Join(i, x, g, y));
    var m := Join(i, Join(i, a, c, x), g, y);
    SingleRotationKeeps(i, a, c, x, g, y);
    SingleRotationMembers(i, a, c, x, g, y);
    SingleRotationKeeps(i, Join(i, a, c, x), g, y, n, b);
    SingleRotationMembers(i, Join(i, a, c, x), g, y, n, b);
    SameWithin(i, k, m, n, b);
  }

  lemma SameWithin<T>(i: Side, k: Tree<T>, m: Tree<T>, n: Node<T>, b: Tree<T>)
    requires InOrder(k) == InOrder(m) && Nodes(k) == Nodes(m) && (Distinct(k) <==> Distinct(m))
    ensures InOrder(Join(i, k, n, b)) == InOrder(Join(i, m, n, b))
    ensures Nodes(Join(i, k, n, b)) == Nodes(Join(i, m, n, b))
    ensures Distinct(Join(i, k, n, b)) <==> Distinct(Join(i, m, n, b))
  {
  }

  lemma DoubleRotationDistinct<T>(i: Side, al: Tree<T>, c: Node<T>, x: Tree<T>, g: Node<T>, y: Tree<T>, n: Node<T>,
                                  b: Tree<T>)
    requires Distinct(Join(i, Join(i, al, c, x), g, Join(i, y, n, b)))
    ensures var v, w := Join(i, al, c, x), Join(i, y, n, b);
      && n != c && n != g && c != g
      && Off(n, al) && Off(n, x) && Off(c, w) && Off(g, v) && Off(g, w)
      && Off(Root(y), al) && Off(Root(y), x) && Off(Root(x), w)
      && Distinct(v) && Distinct(w)
      && {n, c, g} <= Nodes(Join(i, v, g, w))
      && (x.Fork? ==> x.node in Nodes(Join(i, v, g, w))) && (y.Fork? ==> y.node in Nodes(Join(i, v, g, w)))
  {
    hide InOrder, Height;
    var v, w := Join(i, al, c, x), Join(i, y, n, b);
    UnfoldTree(Join(i, v, g, w));
    UnfoldTree(v);
    UnfoldTree(w);
  }

  /** `node` is two levels too tall on side `left`, where `a` is; its stored balance is not looked at. */
  ghost predicate Overweight<T>(left: Side, a: Tree<T>, node: Node<T>, b: Tree<T>)
    reads Nodes(a), Nodes(b), node`child
  {
    && Distinct(Join(left, a, node, b))
    && node.child.At(left) == Root(a) && node.child.At(1 - left) == Root(b)
    && Shape(a) && UpLink(a, node, left) && Shape(b) && UpLink(b, node, 1 - left)
    && Height(a) == Height(b) + 2
  }

  /** What a single rotation finds below `node`. */
  lemma SingleRotationParts<T>(left: Side, a: Tree<T>, node: Node<T>, b: Tree<T>)
    requires Overweight(left, a, node, b)
    ensures a.Fork? && a == Join(left, Kid(a, left), a.node, Kid(a, 1 - left))
    ensures Knot(left, Kid(a, left), a.node, Kid(a, 1 - left)) && Shape(Kid(a, left)) && Shape(Kid(a, 1 - left))
    ensures Height(a) == 1 + Max(Height(Kid(a, left)), Height(Kid(a, 1 - left)))
  {
    ShapeJoin(left, Kid(a, left), a.node, Kid(a, 1 - left));
  }

  /** Case 1 of a rotation: `child`, which is not heavy on its right, takes the place of `node`. */
  method LiftChild<T>(node: Node<T>, left: Side, ghost a: Tree<T>, ghost b: Tree<T>)
    returns (shorter: bool, ghost t: Tree<T>)
    requires Overweight(left, a, node, b)
    requires a.node.balance != (if left == 0 then 1 else -1)
    modifies Nodes(Join(left, a, node, b))`child, Nodes(Join(left, a, node, b))`parent
    modifies Nodes(Join(left, a, node, b))`childIndex, Nodes(Join(left, a, node, b))`balance
    ensures Shape(t) && Distinct(t) && Root(t) == old(node.child.At(left))
    ensures InOrder(t) == InOrder(Join(left, a, node, b)) && Nodes(t) == Nodes(Join(left, a, node, b))
    ensures Height(t) == Height(a) + if shorter then 0 else 1
    ensures shorter <==> old(a.node.balance) != 0
  {
    hide InOrder, Distinct, Nodes, Shape, Height;
    SingleRotationParts(left, a, node, b);
    var right: Side := 1 - left;
    var rightHeavy := if left == 0 then 1 else -1;
    var child := node.child.At(left);
    ghost var al, ar := Kid(a, left), Kid(a, right);
    ghost var u := Join(left, ar, node, b);
    t := Join(left, al, child, u);
    SingleRotationKeeps(left, al, child, ar, node, b);
    SingleRotationMembers(left, al, child, ar, node, b);
    SingleRotationDistinct(left, a, node, b);
    HeightJoin(left, ar, node, b);
    HeightJoin(left, al, child, u);
    NodesAllocated(al);

    var childBal := child.balance + rightHeavy;
    Hang(node, left, child.child.At(right), -childBal, ar, b);
    Hang(child, right, node, childBal, u, al);
    assert t == Join(right, u, child, al);
    shorter := childBal == 0;
  }

  /** What a double rotation finds below `node`, and the heights and balances that follow. */
  lemma DoubleRotationParts<T>(left: Side, a: Tree<T>, node: Node<T>, b: Tree<T>)
    requires Overweight(left, a, node, b)
    requires a.node.balance == (if left == 0 then 1 else -1)
    ensures a.Fork? && Kid(a, 1 - left).Fork?
    ensures var al, g := Kid(a, left), Kid(a, 1 - left);
      var x, y := Kid(g, left), Kid(g, 1 - left);
      && a == Join(left, al, a.node, Join(left, x, g.node, y))
      && a.node.child.At(1 - left) == g.node && UpLink(al, a.node, left) && a.node.child.At(left) == Root(al)
      && g.node.child.At(left) == Root(x) && g.node.child.At(1 - left) == Root(y)
      && Shape(al) && Shape(x) && Shape(y)
      && var leftHeavy := if left == 0 then -1 else 1;
      && (if g.node.balance == leftHeavy then -leftHeavy else 0) == Tilt(left, Height(y), Height(b))
      && (if g.node.balance == -leftHeavy then leftHeavy else 0) == Tilt(1 - left, Height(x), Height(al))
      && var v, w := Join(left, al, a.node, x), Join(left, y, node, b);
      && 0 == Tilt(left, Height(v), Height(w)) && Height(Join(left, v, g.node, w)) == Height(a)
  {
    var al, g := Kid(a, left), Kid(a, 1 - left);
    HeightJoin(left, al, a.node, Kid(g, left));
    HeightJoin(left, Kid(g, 1 - left), node, b);
    ShapeJoin(left, al, a.node, g);
    ShapeJoin(left, Kid(g, left), g.node, Kid(g, 1 - left));
  }

  /** The lower half of a double rotation: `node` and `child` take over the children of `gchild`. */
  method SplitGrandchild<T>(node: Node<T>, left: Side, child: Node<T>, gchild: Node<T>,
                            ghost al: Tree<T>, ghost x: Tree<T>, ghost y: Tree<T>, ghost b: Tree<T>)
    requires Distinct(Join(left, Join(left, al, child, x), gchild, Join(left, y, node, b)))
    requires Shape(al) && child.child.At(left) == Root(al) && UpLink(al, child, left)
    requires Shape(b) && node.child.At(1 - left) == Root(b) && UpLink(b, node, 1 - left)
    requires Shape(x) && gchild.child.At(left) == Root(x) && Shape(y) && gchild.child.At(1 - left) == Root(y)
    requires var leftHeavy := if left == 0 then -1 else 1;
      && (if gchild.balance == leftHeavy then -leftHeavy else 0) == Tilt(left, Height(y), Height(b))
      && (if gchild.balance == -leftHeavy then leftHeavy else 0) == Tilt(1 - left, Height(x), Height(al))
    modifies node`child, node`balance, child`child, child`balance
    modifies Some(Root(x))`parent, Some(Root(x))`childIndex, Some(Root(y))`parent, Some(Root(y))`childIndex
    ensures Shape(Join(left, al, child, x)) && Shape(Join(left, y, node, b))
  {
    hide InOrder, Distinct, Nodes, Shape, Height, Tilt, Max;
    var right: Side := 1 - left;
    var leftHeavy := if left == 0 then -1 else 1;
    var rightHeavy := -leftHeavy;
    var gleft := gchild.child.At(left);
    var gright := gchild.child.At(right);
    ghost var v, w := Join(left, al, child, x), Join(left, y, node, b);
    DoubleRotationDistinct(left, al, child, x, gchild, y, node, b);
    NodesAllocated(al);
    NodesAllocated(x);
    NodesAllocated(w);

    var balance := gchild.balance;
    Hang(node, left, gright, if balance == leftHeavy then rightHeavy else 0, y, b);
    Hang(child, right, gleft, if balance == rightHeavy then leftHeavy else 0, x, al);
    assert v == Join(right, x, child, al);
  }

  /** Case 2 of a rotation: `child` is heavy on its right, and its right child takes the place of `node`. */
  method LiftGrandchild<T>(node: Node<T>, left: Side, ghost a: Tree<T>, ghost b: Tree<T>) returns (ghost t: Tree<T>)
    requires Overweight(left, a, node, b)
    requires a.node.balance == (if left == 0 then 1 else -1)
    modifies Nodes(Join(left, a, node, b))`child, Nodes(Join(left, a, node, b))`parent
    modifies Nodes(Join(left, a, node, b))`childIndex, Nodes(Join(left, a, node, b))`balance
    ensures Shape(t) && Distinct(t) && Root(t) == old(node.child.At(left).child.At(1 - left))
    ensures InOrder(t) == InOrder(Join(left, a, node, b)) && Nodes(t) == Nodes(Join(left, a, node, b))
    ensures Height(t) == Height(a)
  {
    hide InOrder, Distinct, Nodes, Shape, Height, Tilt, Max;
    DoubleRotationParts(left, a, node, b);
    var right: Side := 1 - left;
    var child := node.child.At(left);
    var gchild := child.child.At(right);
    ghost var al, x, y := Kid(a, left), Kid(Kid(a, right), left), Kid(Kid(a, right), right);
    ghost var v, w := Join(left, al, child, x), Join(left, y, node, b);
    t := Join(left, v, gchild, w);
    DoubleRotationKeeps(left, al, child, x, gchild, y, node, b);
    DoubleRotationDistinct(left, al, child, x, gchild, y, node, b);
    SplitGrandchild(node, left, child, gchild, al, x, y, b);
    HangBoth(gchild, left, child, node, 0, v, w);
  }
}
