/** The tree itself: rotation with its link to the rest of the tree, insertion and removal. */
module Avl {
  import opened AvlShape
  import opened AvlHeap
  import opened AvlRotation
  import opened AvlSwap

  /** A place where a new node can go: below `node`, as child `child`; or the root of an empty tree. */
  datatype Cookie<T> = Cookie(node: Node?<T>, child: Side)

  class AvlTree<T> {
    const compar: (T, T) -> int
    var root: Node?<T>
    var numnodes: nat
    ghost var tree: Tree<T>

    /** The nodes reachable from `root` are linked as the AVL tree `tree`. */
    ghost predicate Sound()
      reads this`root, this`tree, Nodes(tree)
    {
      Focus(Top, tree, Height(tree)) && root == Root(tree)
    }

    ghost predicate Valid()
      reads this, Nodes(tree)
    {
      Sound() && numnodes == |InOrder(tree)|
    }

    /** Initialize an empty tree. */
    constructor (compar: (T, T) -> int)
      ensures Valid() && InOrder(tree) == [] && this.compar == compar
    {
      this.compar := compar;
      root := null;
      numnodes := 0;
      tree := Leaf;
    }

    /** `where` designates an empty place, and `k` nodes precede that place in order. */
    ghost predicate Gap(where: Cookie<T>, k: nat)
      reads this, Nodes(tree)
    {
      var s := InOrder(tree);
      if where.node == null then tree.Leaf? && k == 0
      else
        && where.node in Nodes(tree) && where.node.child.At(where.child) == null
        && where.child <= k <= |s| - 1 + where.child && s[k - where.child] == where.node
    }

    /** The path to the subtree rooted at member `n`. */
    lemma FocusOn(n: Node<T>) returns (q: Path<T>, u: Tree<T>)
      requires Sound() && n in Nodes(tree)
      ensures u.Fork? && u.node == n && Plug(q, u) == tree && Distinct(tree)
      ensures Focus(q, u, Height(u)) && root == PathRoot(q, n) && PathNodes(q) + Nodes(u) == Nodes(tree)
      ensures InOrder(tree) == Before(q) + InOrder(u) + After(q)
    {
      hide Height, Shape, PathLinked, Nodes, Distinct, PathNodes, PathDistinct, InOrder, Before, After, PathRoot;
      q, u := Locate(tree, n, Top);
      FocusPlug(q, u);
      PlugNodes(q, u);
      PlugInOrder(q, u);
    }

    /** The path whose hole `where` designates. */
    lemma GapPath(where: Cookie<T>, k: nat) returns (p: Path<T>)
      requires Valid() && Gap(where, k)
      ensures Focus(p, Leaf, 0) && root == PathRoot(p, null)
      ensures Owner(p) == where.node && (p.Step? ==> p.side == where.child)
      ensures Before(p) == InOrder(tree)[..k] && After(p) == InOrder(tree)[k..] && PathNodes(p) == Nodes(tree)
    {
      if where.node == null {
        p := Top;
      } else {
        var q, u := FocusOn(where.node);
        Position(q, u, k - where.child);
        p := GapBelow(q, u, where.child);
      }
    }

    lemma GapBelow(q: Path<T>, u: Tree<T>, i: Side) returns (p: Path<T>)
      requires u.Fork? && Focus(q, u, Height(u)) && u.node.child.At(i) == null
      ensures p == Step(u.node, i, Kid(u, 1 - i), q)
      ensures Focus(p, Leaf, 0) && PathRoot(p, null) == PathRoot(q, u.node)
      ensures PathNodes(p) == PathNodes(q) + Nodes(u)
      ensures |Before(p)| == |Before(q)| + |InOrder(u.left)| + i
      ensures Before(p) + After(p) == Before(q) + InOrder(u) + After(q)
    {
      hide PathNodes, PathDistinct, Distinct, Nodes, InOrder, After, PathLinked, Plug;
      p := Step(u.node, i, Kid(u, 1 - i), q);
      ShapeJoin(i, Kid(u, i), u.node, Kid(u, 1 - i));
      assert Kid(u, i) == Leaf;
      assert u == Join(i, Leaf, u.node, Kid(u, 1 - i));
      FocusUp(p, Leaf);
      MoveUp(p, Leaf);
      NothingInLeaf(p);
    }

    lemma NothingInLeaf(p: Path<T>)
      ensures Nodes<T>(Leaf) == {} && InOrder<T>(Leaf) == [] && Height<T>(Leaf) == 0 && Shape<T>(Leaf)
      ensures Before(p) + InOrder(Leaf) + After(p) == Before(p) + After(p)
    {
    }

    lemma NewLeaf(p: Path<T>, n: Node<T>)
      requires PathDistinct(p) && n !in PathNodes(p) && n.child == Links(null, null) && n.balance == 0
      ensures var t := Fork(Leaf, n, Leaf);
        && Apart(p, t) && Shape(t) && Height(t) == 1 && Nodes(t) == {n}
        && Before(p) + InOrder(t) + After(p) == Before(p) + [n] + After(p)
    {
    }

    /** Put `c`, the root of `t`, where the hole of `p` is. */
    method Graft(c: Node?<T>, parent: Node?<T>, whichChild: Side, ghost p: Path<T>, ghost t: Tree<T>,
                 ghost hole: Node?<T>, ghost h: nat)
      requires c == Root(t) && Shape(t) && Apart(p, t)
      requires PathLinked(p, hole, h) && root == PathRoot(p, hole)
      requires parent == Owner(p) && (p.Step? ==> whichChild == p.side)
      modifies this`root, Some(c)`parent, Some(c)`childIndex, Some(Owner(p))`child
      ensures Focus(p, t, h) && root == PathRoot(p, c)
    {
      hide Height, Distinct, PathDistinct, Nodes, PathNodes, Shape, PathLinked, PathRoot;
      if c != null { UnfoldTree(t); } else { NothingInLeaf(p); }
      if p.Step? { UnfoldPath(p); }
      UnfoldPathLinked(p, hole, h);
      if c != null {
        c.childIndex := whichChild;
        c.parent := parent;
      }
      if parent != null {
        parent.child := parent.child.With(whichChild, c);
      } else {
        root := c;
      }
      UnfoldPathLinked(p, c, h);
    }

    /** Restore balance at `node`, whose new balance is -2 or +2. */
    method Rotation(node: Node<T>, balance: int, ghost p: Path<T>, ghost a: Tree<T>, ghost b: Tree<T>, ghost h: nat)
      returns (shorter: bool, ghost t: Tree<T>)
      requires balance == -2 || balance == 2
      requires var left: Side := if balance < 0 then 0 else 1;
        Overweight(left, a, node, b) && Apart(p, Join(left, a, node, b))
      requires PathLinked(p, node, h) && root == PathRoot(p, node)
      requires node.parent == Owner(p) && (p.Step? ==> node.childIndex == p.side)
      requires a.Fork?
      modifies this`root, Some(Owner(p))`child
      modifies Nodes(Join(0, a, node, b))`child, Nodes(Join(0, a, node, b))`parent
      modifies Nodes(Join(0, a, node, b))`childIndex, Nodes(Join(0, a, node, b))`balance
      ensures Focus(p, t, h) && root == PathRoot(p, Root(t))
      ensures var left: Side := if balance < 0 then 0 else 1;
        InOrder(t) == InOrder(Join(left, a, node, b)) && Nodes(t) == Nodes(Join(left, a, node, b))
      ensures Height(t) == Height(a) + if shorter then 0 else 1
      ensures shorter <==> old(a.node.balance) != 0
    {
      hide InOrder, Distinct, PathDistinct, Nodes, PathNodes, Shape, Height, PathLinked, PathRoot, Tilt, Max;
      var left: Side := if balance < 0 then 0 else 1;
      var right: Side := 1 - left;
      var leftHeavy := balance / 2;
      var rightHeavy := -leftHeavy;
      var parent := node.parent;
      var child := node.child.At(left);
      var whichChild := node.childIndex;
      SingleRotationParts(left, a, node, b);
      PathNodesAllocated(p);
      NodesEither(a, node, b);
      if child.balance != rightHeavy {
        shorter, t := LiftChild(node, left, a, b);
        UnfoldTree(t);
        Graft(child, parent, whichChild, p, t, node, h);
      } else {
        var gchild := child.child.At(right);
        DoubleRotationParts(left, a, node, b);
        t := LiftGrandchild(node, left, a, b);
        UnfoldTree(t);
        Graft(gchild, parent, whichChild, p, t, node, h);
        shorter := true;
      }
    }

    /** Store the balance of `p.node`, below which `t` has replaced a subtree of height `h`, and move up. */
    method Settle(node: Node<T>, balance: Balance, ghost p: Path<T>, ghost t: Tree<T>, ghost h: nat)
      returns (ghost u: Tree<T>)
      requires p.Step? && node == p.node && Focus(p, t, h)
      requires balance == Tilt(p.side, Height(t), Height(p.sibling))
      modifies node`balance
      ensures u == Join(p.side, t, p.node, p.sibling) && node.balance == balance
      ensures Focus(p.up, u, 1 + Max(h, Height(p.sibling)))
    {
      hide Nodes, PathNodes, Distinct, PathDistinct, Shape, Height, PathLinked, Tilt, Max;
      UnfoldPathLinked(p, Root(t), h);
      UnfoldPath(p);
      u := Join(p.side, t, p.node, p.sibling);
      ApartUp(p, t);
      UnfoldTree(u);
      node.balance := balance;
      ShapeJoin(p.side, t, p.node, p.sibling);
    }

    /** Account, at `node`, for a subtree that grew by one level.  Returns whether that ended the growth. */
    method GrowStep(node: Node<T>, whichChild: Side, ghost p: Path<T>, ghost t: Tree<T>, ghost h: nat)
      returns (done: bool, ghost rotated: bool, ghost u: Tree<T>)
      requires p.Step? && node == p.node && whichChild == p.side
      requires Focus(p, t, h) && Height(t) == h + 1 && root == PathRoot(p, Root(t))
      requires t.Fork? && (t.node.balance == 0 ==> h == 0)
      modifies this`root
      modifies (PathNodes(p) + Nodes(t))`child, (PathNodes(p) + Nodes(t))`parent
      modifies (PathNodes(p) + Nodes(t))`childIndex, (PathNodes(p) + Nodes(t))`balance
      ensures var k := 1 + Max(h, Height(p.sibling));
        Focus(p.up, u, k) && Height(u) == k + if done then 0 else 1
      ensures root == PathRoot(p.up, Root(u))
      ensures Before(p.up) + InOrder(u) + After(p.up) == Before(p) + InOrder(t) + After(p)
      ensures PathNodes(p.up) + Nodes(u) == PathNodes(p) + Nodes(t)
      ensures !done ==> !rotated && u.Fork? && u.node.balance != 0
    {
      hide InOrder, Nodes, PathNodes, Distinct, PathDistinct, Shape, Height, PathLinked, PathRoot, Before, After;
      UnfoldFocus(p, t, h);
      var oldBalance: int := node.balance;
      var newBalance := oldBalance + if whichChild == 0 then -1 else 1;
      done, rotated := true, false;
      if newBalance == 0 {
        u := Settle(node, 0, p, t, h);
      } else if oldBalance != 0 {
        NodesEither(t, node, p.sibling);
        ghost var shorter;
        shorter, u := Rotation(node, newBalance, p.up, t, p.sibling, 1 + Max(h, Height(p.sibling)));
        rotated := true;
      } else {
        u := Settle(node, newBalance, p, t, h);
        done := false;
      }
    }

    /** Back up the tree from a subtree that grew by one level, until the growth is absorbed. */
    method Grow(firstParent: Node?<T>, firstChild: Side, ghost path: Path<T>, ghost leaf: Tree<T>)
      returns (ghost rotations: nat)
      requires Focus(path, leaf, 0) && Height(leaf) == 1 && root == PathRoot(path, Root(leaf))
      requires firstParent == Owner(path) && (path.Step? ==> firstChild == path.side)
      modifies this`root, this`tree
      modifies (PathNodes(path) + Nodes(leaf))`child, (PathNodes(path) + Nodes(leaf))`parent
      modifies (PathNodes(path) + Nodes(leaf))`childIndex, (PathNodes(path) + Nodes(leaf))`balance
      ensures Sound()
      ensures InOrder(tree) == Before(path) + InOrder(leaf) + After(path)
      ensures Nodes(tree) == PathNodes(path) + Nodes(leaf)
      ensures rotations <= 1
    {
      hide InOrder, Nodes, PathNodes, Distinct, PathDistinct, Shape, Height, PathLinked, PathRoot, Plug, Before, After;
      HeightLeaf(leaf);
      ghost var p, t, h: nat := path, leaf, 0;
      var parent, whichChild := firstParent, firstChild;
      rotations := 0;
      var done := false;
      while !done && parent != null
        invariant Focus(p, t, h) && Height(t) == h + if done then 0 else 1
        invariant !done ==> t.Fork? && (t.node.balance == 0 ==> h == 0) && rotations == 0
        invariant root == PathRoot(p, Root(t))
        invariant parent == Owner(p) && (p.Step? ==> whichChild == p.side)
        invariant Before(p) + InOrder(t) + After(p) == Before(path) + InOrder(leaf) + After(path)
        invariant PathNodes(p) + Nodes(t) == PathNodes(path) + Nodes(leaf)
        invariant rotations <= 1
        decreases p
      {
        var node, side := parent, whichChild;
        UnfoldFocus(p, t, h);
        parent := node.parent;
        whichChild := node.childIndex;
        ghost var r;
        ghost var k := 1 + Max(h, Height(p.sibling));
        done, r, t := GrowStep(node, side, p, t, h);
        p, h := p.up, k;
        rotations := rotations + if r then 1 else 0;
      }
      UnfoldPathLinked(p, Root(t), Height(t));
      CloseFocus(p, t);
      tree := Plug(p, t);
    }

    /** Insert `newNode` at the place `where` designates.  `k` is the position of that place in order. */
    method Insert(newNode: Node<T>, where: Cookie<T>, ghost k: nat) returns (ghost rotations: nat)
      requires Valid() && newNode !in Nodes(tree) && Gap(where, k)
      modifies this`root, this`numnodes, this`tree
      modifies (Nodes(tree) + {newNode})`child, (Nodes(tree) + {newNode})`parent
      modifies (Nodes(tree) + {newNode})`childIndex, (Nodes(tree) + {newNode})`balance
      ensures Valid()
      ensures InOrder(tree) == old(InOrder(tree)[..k] + [newNode] + InOrder(tree)[k..])
      ensures Nodes(tree) == old(Nodes(tree)) + {newNode}
      ensures rotations <= 1
    {
      hide InOrder, Nodes, PathNodes, Distinct, PathDistinct, Shape, Height, PathLinked, PathRoot, Plug, Before, After;
      ghost var p := GapPath(where, k);
      if p.Step? { UnfoldPath(p); }
      ghost var t := Fork(Leaf, newNode, Leaf);
      var parent := where.node;
      var whichChild := where.child;
      numnodes := numnodes + 1;
      newNode.child := Links(null, null);
      newNode.balance := 0;
      NewLeaf(p, newNode);
      Graft(newNode, parent, whichChild, p, t, null, 0);
      rotations := Grow(parent, whichChild, p, t);
    }

    /** Account, at `node`, for a subtree that lost one level.  Returns whether that ended the loss. */
    method ShrinkStep(node: Node<T>, whichChild: Side, ghost p: Path<T>, ghost t: Tree<T>, ghost h: nat)
      returns (done: bool, ghost u: Tree<T>)
      requires p.Step? && node == p.node && whichChild == p.side
      requires Focus(p, t, h) && h == Height(t) + 1 && root == PathRoot(p, Root(t))
      modifies this`root
      modifies (PathNodes(p) + Nodes(t))`child, (PathNodes(p) + Nodes(t))`parent
      modifies (PathNodes(p) + Nodes(t))`childIndex, (PathNodes(p) + Nodes(t))`balance
      ensures var k := 1 + Max(h, Height(p.sibling));
        Focus(p.up, u, k) && Height(u) == k - if done then 0 else 1
      ensures root == PathRoot(p.up, Root(u))
      ensures Before(p.up) + InOrder(u) + After(p.up) == Before(p) + InOrder(t) + After(p)
      ensures PathNodes(p.up) + Nodes(u) == PathNodes(p) + Nodes(t)
    {
      hide InOrder, Nodes, PathNodes, Distinct, PathDistinct, Shape, Height, PathLinked, PathRoot, Before, After;
      UnfoldFocus(p, t, h);
      var oldBalance: int := node.balance;
      var newBalance := oldBalance - if whichChild == 0 then -1 else 1;
      if oldBalance == 0 {
        u := Settle(node, newBalance, p, t, h);
        done := true;
      } else if newBalance == 0 {
        u := Settle(node, newBalance, p, t, h);
        done := false;
      } else {
        NodesEither(p.sibling, node, t);
        HeightLeaf(p.sibling);
        assert Join(p.side, t, node, p.sibling) == Join(1 - p.side, p.sibling, node, t);
        var shorter;
        shorter, u := Rotation(node, newBalance, p.up, p.sibling, t, 1 + Max(h, Height(p.sibling)));
        done := !shorter;
      }
    }

    /** Back up the tree from a subtree that lost one level, until the loss is absorbed. */
    method Shrink(firstParent: Node?<T>, firstChild: Side, ghost path: Path<T>, ghost sub: Tree<T>)
      requires Focus(path, sub, Height(sub) + 1) && root == PathRoot(path, Root(sub))
      requires firstParent == Owner(path) && (path.Step? ==> firstChild == path.side)
      modifies this`root, this`tree
      modifies (PathNodes(path) + Nodes(sub))`child, (PathNodes(path) + Nodes(sub))`parent
      modifies (PathNodes(path) + Nodes(sub))`childIndex, (PathNodes(path) + Nodes(sub))`balance
      ensures Sound()
      ensures InOrder(tree) == Before(path) + InOrder(sub) + After(path)
      ensures Nodes(tree) == PathNodes(path) + Nodes(sub)
    {
      hide InOrder, Nodes, PathNodes, Distinct, PathDistinct, Shape, Height, PathLinked, PathRoot, Plug, Before, After;
      ghost var p, t, h: nat := path, sub, Height(sub) + 1;
      var parent, whichChild := firstParent, firstChild;
      var done := false;
      while !done && parent != null
        invariant Focus(p, t, h) && Height(t) == h - if done then 0 else 1
        invariant root == PathRoot(p, Root(t))
        invariant parent == Owner(p) && (p.Step? ==> whichChild == p.side)
        invariant Before(p) + InOrder(t) + After(p) == Before(path) + InOrder(sub) + After(path)
        invariant PathNodes(p) + Nodes(t) == PathNodes(path) + Nodes(sub)
        decreases p
      {
        var node, side := parent, whichChild;
        UnfoldFocus(p, t, h);
        parent := node.parent;
        whichChild := node.childIndex;
        ghost var k := 1 + Max(h, Height(p.sibling));
        done, t := ShrinkStep(node, side, p, t, h);
        p, h := p.up, k;
      }
      UnfoldPathLinked(p, Root(t), Height(t));
      CloseFocus(p, t);
      tree := Plug(p, t);
    }

    /** What the swap relies on of the neighbour `node` of `del`. */
    ghost predicate Swappable(del: Node<T>, node: Node<T>, left: Side, k: nat, j: nat)
      reads this, Nodes(tree)
    {
      var s := InOrder(tree);
      && tree.Fork? && del in Nodes(tree) && node in Nodes(tree) && node != del
      && k < |s| && s[k] == del && j < |s| && s[j] == node
      && del.child.lo != null && del.child.hi != null
      && node.parent != null && node.child.At(1 - left) == null
      && node != del.parent && node.parent != del.parent && node != del.child.At(1 - left)
      && node.parent != node && del.parent != del
    }

    /** The neighbour of `del` on the taller side. */
    method FindNeighbour(del: Node<T>, ghost k: nat) returns (left: Side, node: Node<T>, ghost j: nat)
      requires Sound() && k < |InOrder(tree)| && InOrder(tree)[k] == del && del in Nodes(tree)
      requires del.child.lo != null && del.child.hi != null
      ensures left == (if del.balance == 1 then 1 else 0) && j == (if left == 0 then k - 1 else k + 1)
      ensures Sound() && Swappable(del, node, left, k, j)
    {
      hide InOrder, Nodes, PathNodes, Distinct, PathDistinct, Height, PathLinked, PathRoot, Plug, Before, After;
      left := if del.balance == 1 then 1 else 0;
      var right: Side := 1 - left;
      ghost var q, u := FocusOn(del);
      Position(q, u, k);
      node := del.child.At(left);
      ghost var t := Kid(u, left);
      while node.child.At(right) != null
        invariant Shape(t) && t.Fork? && node == Root(t) && End(t, right) == End(Kid(u, left), right)
        decreases t
      {
        node := node.child.At(right);
        t := Kid(t, right);
      }
      NeighbourBelow(q, u, left, node);
      HasRoot(tree, del);
      j := if left == 0 then k - 1 else k + 1;
      assert InOrder(tree)[j] == InOrder(u)[j - |Before(q)|];
    }

    /** Swap `del`, which has two children, with its neighbour on the taller side.  A placeholder with at most
        one child stands for `del` afterwards, right beside the place `del` had in order. */
    method Displace(del: Node<T>, ghost k: nat) returns (tmp: Node<T>, ghost j: nat)
      requires Sound() && k < |InOrder(tree)| && InOrder(tree)[k] == del && del in Nodes(tree)
      requires del.child.lo != null && del.child.hi != null
      modifies this`root, this`tree
      modifies Nodes(tree)`child, Nodes(tree)`parent, Nodes(tree)`childIndex, Nodes(tree)`balance
      ensures Sound()
      ensures fresh(tmp) && Nodes(tree) == old(Nodes(tree)) - {del} + {tmp}
      ensures tmp.child.lo == null || tmp.child.hi == null
      ensures (j == k + 1 || j == k - 1) && j < old(|InOrder(tree)|)
      ensures InOrder(tree) == old(InOrder(tree)[k := InOrder(tree)[j]])[j := tmp]
    {
      hide InOrder, Nodes, PathNodes, Distinct, PathDistinct, Height, PathLinked, PathRoot, Shape;
      hide Captured, AllRenamed, WasShape, RenTree;
      var left, node;
      left, node, j := FindNeighbour(del, k);
      ParentsAbove(tree, null, 0, del);
      ghost var s := Capture(tree);
      NodesAllocated(tree);
      tmp := SwapNodes(del, node, left, Nodes(tree), s);
      if node.parent == null {
        root := node;
      }
      Swapped(tree, s, k, j, del, node, tmp);
      tree := RenTree(tree, del, node, tmp);
    }

    /** Take out `del`, which has at most one child. */
    method Unlink(del: Node<T>, ghost i: nat)
      requires Sound() && i < |InOrder(tree)| && InOrder(tree)[i] == del && del in Nodes(tree)
      requires del.child.lo == null || del.child.hi == null
      modifies this`root, this`tree
      modifies Nodes(tree)`child, Nodes(tree)`parent, Nodes(tree)`childIndex, Nodes(tree)`balance
      ensures Sound()
      ensures InOrder(tree) == old(InOrder(tree)[..i] + InOrder(tree)[i + 1..])
      ensures Nodes(tree) == old(Nodes(tree)) - {del}
    {
      hide InOrder, Nodes, PathNodes, Distinct, PathDistinct, Height, PathLinked, PathRoot, Plug, Before, After;
      ghost var q, u := FocusOn(del);
      Position(q, u, i);
      var parent := del.parent;
      var whichChild := del.childIndex;
      var node := if del.child.lo != null then del.child.lo else del.child.hi;
      ghost var sub := if u.left.Fork? then u.left else u.right;
      UnlinkParts(q, u, i);
      Graft(node, parent, whichChild, q, sub, del, Height(u));
      Shrink(parent, whichChild, q, sub);
    }

    lemma UnlinkParts(q: Path<T>, u: Tree<T>, i: nat)
      requires u.Fork? && (u.left.Leaf? || u.right.Leaf?) && Apart(q, u) && Shape(u)
      requires i == |Before(q)| + |InOrder(u.left)|
      ensures var sub := if u.left.Fork? then u.left else u.right;
        && Apart(q, sub) && Shape(sub) && Height(u) == Height(sub) + 1
        && var s := Before(q) + InOrder(u) + After(q);
        && i < |s| && Before(q) + InOrder(sub) + After(q) == s[..i] + s[i + 1..]
        && PathNodes(q) + Nodes(sub) == (PathNodes(q) + Nodes(u)) - {u.node}
        && (sub.Fork? ==> sub.node in Nodes(u))
      ensures q.Step? ==> q.node in PathNodes(q)
    {
      hide PathDistinct, Before, After, InOrder, PathNodes, Nodes, Distinct;
      UnfoldTree(u);
      if q.Step? { UnfoldPath(q); }
      UnlinkInOrder(Before(q), u, After(q), i);
      NothingInLeaf(q);
    }

    lemma UnlinkInOrder(b: seq<Node<T>>, u: Tree<T>, a: seq<Node<T>>, i: nat)
      requires u.Fork? && (u.left.Leaf? || u.right.Leaf?) && i == |b| + |InOrder(u.left)|
      ensures var sub := if u.left.Fork? then u.left else u.right;
        var s := b + InOrder(u) + a;
        i < |s| && b + InOrder(sub) + a == s[..i] + s[i + 1..]
    {
      var x, y := InOrder(u.left), InOrder(u.right);
      CutOut(b, x, u.node, y, a);
      assert x + y == if u.left.Fork? then x else y;
    }

    lemma CutOut(b: seq<Node<T>>, x: seq<Node<T>>, n: Node<T>, y: seq<Node<T>>, a: seq<Node<T>>)
      ensures var s, i := b + (x + [n] + y) + a, |b| + |x|;
        b + (x + y) + a == s[..i] + s[i + 1..]
    {
      var s, i := b + (x + [n] + y) + a, |b| + |x|;
      assert s[..i] == b + x && s[i + 1..] == y + a;
    }

    /** Delete the member `data`, which stands at position `k`. */
    method Remove(data: Node<T>, ghost k: nat)
      requires Valid() && k < |InOrder(tree)| && InOrder(tree)[k] == data && data in Nodes(tree)
      modifies this`root, this`numnodes, this`tree
      modifies Nodes(tree)`child, Nodes(tree)`parent, Nodes(tree)`childIndex, Nodes(tree)`balance
      ensures Valid()
      ensures InOrder(tree) == old(InOrder(tree)[..k] + InOrder(tree)[k + 1..])
      ensures Nodes(tree) == old(Nodes(tree)) - {data}
    {
      hide InOrder, Nodes, Sound;
      NodesAllocated(tree);
      var del := data;
      ghost var i := k;
      if del.child.lo != null && del.child.hi != null {
        del, i := Displace(data, k);
        InOrderNodes(tree);
        assert del in InOrder(tree);
      }
      numnodes := numnodes - 1;
      Unlink(del, i);
    }
  }
}
