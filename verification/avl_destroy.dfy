/** Tearing a tree down in post order, without rebalancing it. */
module AvlDestroy {
  import opened AvlShape
  import opened AvlHeap
  import opened Avl
  import opened AvlSearch
  import opened AvlSwap

  ghost function PostOrder<T>(t: Tree<T>): seq<Node<T>> {
    if t.Leaf? then [] else PostOrder(t.left) + PostOrder(t.right) + [t.node]
  }

  /** Post order holds the same nodes as in-order, each as often. */
  lemma {:induction false} PostOrderPermutes<T>(t: Tree<T>)
    ensures multiset(PostOrder(t)) == multiset(InOrder(t))
  {
    if t.Fork? {
      PostOrderPermutes(t.left);
      PostOrderPermutes(t.right);
    }
  }

  lemma {:induction false} PostOrderNodes<T>(t: Tree<T>)
    ensures forall i :: 0 <= i < |PostOrder(t)| ==> PostOrder(t)[i] in Nodes(t)
  {
    if t.Fork? {
      PostOrderNodes(t.left);
      PostOrderNodes(t.right);
    }
  }

  /** Post order names no node before one of its children. */
  lemma {:induction false} ChildrenFirst<T>(t: Tree<T>, parent: Node?<T>, side: Side, i: nat, j: nat)
    requires Shape(t) && Distinct(t) && UpLink(t, parent, side) && (parent == null || parent !in Nodes(t))
    requires i <= j < |PostOrder(t)|
    ensures PostOrder(t)[j].parent != PostOrder(t)[i]
    decreases t
  {
    hide InOrder, Height, Nodes, Distinct, Shape;
    UnfoldTree(t);
    ShapeJoin(0, t.left, t.node, t.right);
    PostOrderNodes(t.left);
    PostOrderNodes(t.right);
    var s, l, r := PostOrder(t), PostOrder(t.left), PostOrder(t.right);
    assert s == l + r + [t.node];
    if j < |l| {
      ChildrenFirst(t.left, t.node, 0, i, j);
    } else if j < |l| + |r| {
      assert s[j] == r[j - |l|];
      if i < |l| {
        assert s[i] == l[i];
        ParentsAbove(t.right, t.node, 1, s[j]);
      } else {
        ChildrenFirst(t.right, t.node, 1, i - |l|, j - |l|);
      }
    } else {
      assert s[j] == t.node;
      assert i < |l| ==> s[i] == l[i];
      assert |l| <= i < |l| + |r| ==> s[i] == r[i - |l|];
      ParentsAbove(t, parent, side, t.node);
    }
  }

  /** The cookie: not started yet, or the parent of the node handed out last and which child that was. */
  datatype DestroyCookie<T> = Start | After(parent: Node?<T>, child: Side)

  /** What is still to be handed out once everything in the hole of `p`, and before it in post order, is gone. */
  ghost function Remaining<T>(p: Path<T>): seq<Node<T>> {
    if p.Top? then []
    else (if p.side == 0 then PostOrder(p.sibling) else []) + [p.node] + Remaining(p.up)
  }

  /** The ancestors of the node handed out last: left subtrees are gone, right ones not yet visited are intact. */
  ghost predicate Ruin<T>(p: Path<T>)
    reads PathNodes(p)
  {
    p.Step? ==>
      && (p.side == 0 ==> p.node.child.At(1) == Root(p.sibling) && Shape(p.sibling) && UpLink(p.sibling, p.node, 1))
      && (p.side == 1 ==> p.sibling.Leaf?)
      && p.node.parent == Owner(p.up) && (p.up.Step? ==> p.node.childIndex == p.up.side)
      && Ruin(p.up)
  }

  /** The intact subtree `t` hangs in the ruin `p`. */
  ghost predicate Standing<T>(p: Path<T>, t: Tree<T>)
    reads PathNodes(p), Nodes(t)
  {
    Apart(p, t) && Shape(t) && UpLink(t, Owner(p), SideOf(p)) && Ruin(p)
  }

  /** Going down to a left child. */
  lemma StandingLeft<T>(p: Path<T>, t: Tree<T>)
    requires Standing(p, t) && t.Fork?
    ensures var q := Step(t.node, 0, t.right, p);
      && Standing(q, t.left) && t.node.child.At(0) == Root(t.left)
      && (t.left.Fork? ==> PostOrder(t.left) + Remaining(q) == PostOrder(t) + Remaining(p))
      && PathNodes(q) + Nodes(t.left) == PathNodes(p) + Nodes(t)
  {
    hide InOrder, Height;
    ApartUp(Step(t.node, 0, t.right, p), t.left);
  }

  /** Handing out a leaf, or a node whose subtrees are gone. */
  lemma StandingLeaf<T>(p: Path<T>, t: Tree<T>)
    requires Standing(p, t) && t.Fork? && t.left.Leaf? && t.right.Leaf?
    ensures [t.node] + Remaining(p) == PostOrder(t) + Remaining(p) && t.node !in PathNodes(p)
    ensures PathNodes(p) + Nodes(t) == PathNodes(p) + {t.node}
  {
  }

  /** A node without a left child has at most a leaf on the right. */
  lemma StandingRight<T>(p: Path<T>, t: Tree<T>)
    requires Standing(p, t) && t.Fork? && t.left.Leaf? && t.right.Fork?
    ensures var q := Step(t.node, 1, Leaf, p);
      && Standing(q, t.right) && t.right.left.Leaf? && t.right.right.Leaf? && t.node.balance == 1
      && PostOrder(t.right) + Remaining(q) == PostOrder(t) + Remaining(p)
      && PathNodes(q) + Nodes(t.right) == PathNodes(p) + Nodes(t)
  {
    hide InOrder;
    HeightLeaf(t.right.left);
    HeightLeaf(t.right.right);
    ApartUp(Step(t.node, 1, Leaf, p), t.right);
  }

  /** From `node`, which has no left child, go on to its right child if there is one. */
  method CheckRightSide<T>(start: Node<T>, startParent: Node?<T>, ghost p: Path<T>, ghost t: Tree<T>)
    returns (node: Node<T>, parent: Node?<T>, ghost q: Path<T>)
    requires Standing(p, t) && start == Root(t) && t.left.Leaf? && startParent == Owner(p)
    ensures parent == Owner(q) && (q.Step? ==> node.childIndex == q.side)
    ensures PathDistinct(q) && Ruin(q) && node !in PathNodes(q) && [node] + Remaining(q) == PostOrder(t) + Remaining(p)
    ensures PathNodes(q) + {node} == PathNodes(p) + Nodes(t)
    ensures PathRoot(q, node) == PathRoot(p, start)
  {
    hide PostOrder, Remaining, Nodes, PathNodes, Distinct, PathDistinct, Height;
    node, parent, q := start, startParent, p;
    if node.child.At(1) != null {
      StandingRight(p, t);
      assert node.balance == 1;
      parent := node;
      node := node.child.At(1);
      q := Step(t.node, 1, Leaf, p);
      StandingLeaf(q, t.right);
      assert node.child.At(0) == null && node.child.At(1) == null;
    } else {
      assert node.balance <= 0;
      StandingLeaf(q, t);
    }
  }

  /** The leftmost node of a standing tree, and the ruin it hangs in. */
  lemma {:induction false} LeftPath<T>(p: Path<T>, t: Tree<T>) returns (q: Path<T>, u: Tree<T>)
    requires Standing(p, t) && t.Fork?
    ensures Standing(q, u) && u.Fork? && u.left.Leaf? && u.node == End(t, 0)
    ensures PostOrder(u) + Remaining(q) == PostOrder(t) + Remaining(p)
    ensures PathNodes(q) + Nodes(u) == PathNodes(p) + Nodes(t)
    ensures PathRoot(q, u.node) == PathRoot(p, t.node)
    decreases t
  {
    hide PostOrder, Remaining, Nodes, PathNodes, Distinct, PathDistinct, Height, Ruin, Shape, InOrder;
    if t.left.Leaf? {
      q, u := p, t;
    } else {
      StandingLeft(p, t);
      q, u := LeftPath(Step(t.node, 0, t.right, p), t.left);
    }
  }

  /** How far the teardown has come. */
  datatype Stage<T> = Intact | Ruined(path: Path<T>) | Gone

  ghost function Left<T>(tree: AvlTree<T>, stage: Stage<T>): set<Node<T>>
    reads tree`tree
  {
    match stage
    case Intact => Nodes(tree.tree)
    case Ruined(p) => PathNodes(p)
    case Gone => {}
  }

  /** The nodes still to be handed out, in order. */
  ghost function Pending<T>(tree: AvlTree<T>, stage: Stage<T>): seq<Node<T>>
    reads tree`tree
  {
    match stage
    case Intact => PostOrder(tree.tree)
    case Ruined(p) => Remaining(p)
    case Gone => []
  }

  /** The state between two calls.  It depends on no node that was handed out. */
  ghost predicate Teardown<T>(tree: AvlTree<T>, cookie: DestroyCookie<T>, stage: Stage<T>)
    reads tree, Left(tree, stage)
  {
    match stage
    case Intact => cookie.Start? && tree.Valid()
    case Ruined(p) =>
      && cookie == After(Owner(p), if p.Top? then 1 else p.side)
      && PathDistinct(p) && Ruin(p) && tree.numnodes == |Remaining(p)| + 1
      && tree.root != null && (p.Step? ==> tree.root == PathRoot(p, null))
    case Gone => cookie == After(null, 1) && tree.root == null && tree.numnodes == 0
  }

  lemma WholeTree<T>(tree: AvlTree<T>)
    requires tree.Valid()
    ensures Standing(Top, tree.tree) && PathNodes<T>(Top) == {} && PathRoot(Top, tree.root) == tree.root
    ensures PostOrder(tree.tree) + Remaining(Top) == PostOrder(tree.tree) && |PostOrder(tree.tree)| == tree.numnodes
    ensures tree.tree.Leaf? <==> InOrder(tree.tree) == []
    ensures tree.tree.Leaf? <==> PostOrder(tree.tree) == []
    ensures tree.tree.Leaf? ==> tree.root == null && tree.numnodes == 0
    ensures tree.tree.Fork? ==> tree.root == tree.tree.node && End(tree.tree, 0) == InOrder(tree.tree)[0]
  {
    PostOrderPermutes(tree.tree);
    assert |multiset(PostOrder(tree.tree))| == |PostOrder(tree.tree)|;
    assert |multiset(InOrder(tree.tree))| == |InOrder(tree.tree)|;
  }

  lemma UnfoldPathRoot<T>(p: Path<T>)
    requires p.Step?
    ensures PathRoot(p, null) == PathRoot(p.up, p.node)
  {
  }

  lemma NothingLeft<T>(tree: AvlTree<T>)
    ensures Remaining<T>(Top) == []
    ensures tree.tree.Leaf? && tree.root == null && tree.numnodes == 0 ==> tree.Valid()
  {
  }

  lemma HeadAndTail<A>(x: A, s: seq<A>)
    ensures |[x] + s| == |s| + 1 && ([x] + s)[0] == x && ([x] + s)[1..] == s
  {
  }

  lemma TopRoot<T>(n: Node<T>)
    ensures PathRoot(Top, n) == n
  {
  }

  lemma RootAbove<T>(p: Path<T>, m: Node?<T>, n: Node?<T>)
    requires p.Step?
    ensures PathRoot(p, m) == PathRoot(p, n) && PathRoot(p, n) != null
  {
    if p.up.Step? {
      RootAbove(p.up, p.node, p.node);
    }
  }

  /** The first call: start at the leftmost node. */
  method StartTeardown<T>(tree: AvlTree<T>) returns (r: Node?<T>, cookie: DestroyCookie<T>, ghost stage: Stage<T>)
    requires tree.Valid()
    ensures r == if tree.tree.Leaf? then null else PostOrder(tree.tree)[0]
    ensures Teardown(tree, cookie, stage)
    ensures Pending(tree, stage) == if tree.tree.Leaf? then [] else PostOrder(tree.tree)[1..]
    ensures r != null ==> r in Nodes(tree.tree) && Left(tree, stage) == Nodes(tree.tree) - {r}
    ensures r == null ==> tree.Valid() && tree.root == null && tree.numnodes == 0 && stage.Gone?
    ensures r != null ==> cookie.After? && (cookie.parent == null ==> r == tree.root)
  {
    hide PostOrder, Remaining, Nodes, PathNodes, Distinct, PathDistinct, Height, Ruin, Shape, InOrder, PathRoot;
    WholeTree(tree);
    NodesAllocated(tree.tree);
    var first := First(tree);
    if first == null {
      return null, After(null, 1), Gone;
    }
    ghost var p, t := LeftPath(Top, tree.tree);
    var node, parent;
    ghost var q;
    node, parent, q := CheckRightSide(first, first.parent, p, t);
    stage := Ruined(q);
    if parent == null {
      TopRoot(node);
      assert node == tree.root;
      cookie := After(null, 1);
    } else {
      RootAbove(q, node, null);
      cookie := After(parent, node.childIndex);
    }
    r := node;
    HeadAndTail(node, Remaining(q));
  }

  /** The right sibling of a left child that is gone still stands. */
  lemma TurnRight<T>(p: Path<T>)
    requires p.Step? && p.side == 0 && PathDistinct(p) && Ruin(p) && p.sibling.Fork?
    ensures var q := Step(p.node, 1, Leaf, p.up);
      && Standing(q, p.sibling) && PostOrder(p.sibling) + Remaining(q) == Remaining(p)
      && PathNodes(q) + Nodes(p.sibling) == PathNodes(p)
      && PathRoot(q, p.sibling.node) == PathRoot(p, null)
  {
    hide InOrder, Height;
  }

  lemma UnfoldRuin<T>(p: Path<T>)
    requires p.Step?
    ensures Ruin(p) <==>
      && (p.side == 0 ==> p.node.child.At(1) == Root(p.sibling) && Shape(p.sibling) && UpLink(p.sibling, p.node, 1))
      && (p.side == 1 ==> p.sibling.Leaf?)
      && p.node.parent == Owner(p.up) && (p.up.Step? ==> p.node.childIndex == p.up.side)
      && Ruin(p.up)
  {
  }

  /** Both subtrees of the owner of the hole are gone: it is next. */
  lemma NothingRight<T>(p: Path<T>)
    requires p.Step? && p.sibling.Leaf?
    ensures Remaining(p) == [p.node] + Remaining(p.up)
    ensures PathNodes(p) == {p.node} + PathNodes(p.up)
  {
  }

  /** Go down to the leftmost node of the standing tree `t`, then to its right child if it has one. */
  method DescendLeft<T>(start: Node<T>, startParent: Node<T>, ghost p: Path<T>, ghost t: Tree<T>)
    returns (node: Node<T>, parent: Node?<T>, ghost q: Path<T>)
    requires Standing(p, t) && start == Root(t) && startParent == Owner(p)
    ensures parent == Owner(q) && (q.Step? ==> node.childIndex == q.side)
    ensures PathDistinct(q) && Ruin(q) && node !in PathNodes(q) && [node] + Remaining(q) == PostOrder(t) + Remaining(p)
    ensures PathNodes(q) + {node} == PathNodes(p) + Nodes(t)
    ensures PathRoot(q, node) == PathRoot(p, start)
  {
    hide PostOrder, Remaining, Nodes, PathNodes, Distinct, PathDistinct, Height, Ruin, Shape, InOrder;
    node, parent := start, startParent;
    ghost var u := t;
    q := p;
    StandingLeft(q, u);
    while node.child.At(0) != null
      invariant Standing(q, u) && u.Fork? && node == u.node && parent == Owner(q) && node.child.At(0) == Root(u.left)
      invariant PostOrder(u) + Remaining(q) == PostOrder(t) + Remaining(p)
      invariant PathNodes(q) + Nodes(u) == PathNodes(p) + Nodes(t)
      invariant PathRoot(q, node) == PathRoot(p, start)
      decreases u
    {
      StandingLeft(q, u);
      parent := node;
      node := node.child.At(0);
      q, u := Step(u.node, 0, u.right, q), u.left;
      StandingLeft(q, u);
    }
    node, parent, q := CheckRightSide(node, parent, q, u);
  }

  /** A later call: the node handed out last is forgotten, and the next one in post order is handed out. */
  method ResumeTeardown<T>(tree: AvlTree<T>, cookie: DestroyCookie<T>, ghost p: Path<T>)
    returns (r: Node<T>, next: DestroyCookie<T>, ghost q: Path<T>)
    requires Teardown(tree, cookie, Ruined(p)) && p.Step?
    modifies tree`numnodes, PathNodes(p)`child
    ensures Teardown(tree, next, Ruined(q))
    ensures [r] + Remaining(q) == Remaining(p)
    ensures r in PathNodes(p) && PathNodes(q) == PathNodes(p) - {r}
    ensures next.After? && (next.parent == null ==> r == tree.root)
  {
    hide PostOrder, Remaining, Nodes, PathNodes, Distinct, PathDistinct, Height, Ruin, Shape, InOrder, PathRoot;
    UnfoldPath(p);
    UnfoldRuin(p);
    var parent := cookie.parent;
    var child := cookie.child;
    parent.child := parent.child.With(child, null);
    tree.numnodes := tree.numnodes - 1;
    if child == 1 || parent.child.At(1) == null {
      r := parent;
      parent := parent.parent;
      q := p.up;
      NothingRight(p);
    } else {
      r := parent.child.At(1);
      UnfoldRuin(p);
      TurnRight(p);
      r, parent, q := DescendLeft(r, parent, Step(p.node, 1, Leaf, p.up), p.sibling);
    }
    HeadAndTail(r, Remaining(q));
    UnfoldPathRoot(p);
    if parent == null {
      TopRoot(r);
      assert r == tree.root;
      next := After(null, 1);
    } else {
      RootAbove(q, r, null);
      next := After(parent, r.childIndex);
    }
  }

  /** Hand out the next node of a tree that is being torn down, or null when all are gone. */
  method DestroyNodes<T>(tree: AvlTree<T>, cookie: DestroyCookie<T>, ghost stage: Stage<T>)
    returns (r: Node?<T>, next: DestroyCookie<T>, ghost stage': Stage<T>)
    requires Teardown(tree, cookie, stage)
    modifies tree`root, tree`numnodes, tree`tree, Left(tree, stage)`child
    ensures Teardown(tree, next, stage')
    ensures var todo := old(Pending(tree, stage));
      && r == (if todo == [] then null else todo[0])
      && Pending(tree, stage') == (if todo == [] then [] else todo[1..])
    ensures r != null ==> r in old(Left(tree, stage)) && Left(tree, stage') == old(Left(tree, stage)) - {r}
    ensures r == null ==> tree.Valid() && tree.root == null && tree.numnodes == 0
    ensures r != null ==> next.After? && (next.parent == null ==> r == tree.root)
  {
    hide PostOrder, Remaining, Nodes, PathNodes, Distinct, PathDistinct, Height, Ruin, Shape, InOrder, PathRoot;
    NothingLeft(tree);
    if cookie.Start? {
      WholeTree(tree);
      r, next, stage' := StartTeardown(tree);
    } else if cookie.parent == null {
      if tree.root != null {
        assert tree.numnodes == 1;
        tree.root := null;
        tree.numnodes := 0;
      }
      tree.tree := Leaf;
      NothingLeft(tree);
      r, next, stage' := null, cookie, Gone;
    } else {
      ghost var q;
      r, next, q := ResumeTeardown(tree, cookie, stage.path);
      stage' := Ruined(q);
      HeadAndTail(r, Remaining(q));
    }
  }

  /** Calling until null hands out every node exactly once, children first, and empties the tree; that the nodes
      handed out are overwritten in between makes no difference. */
  method DestroyAll<T>(tree: AvlTree<T>) returns (freed: seq<Node<T>>)
    requires tree.Valid()
    modifies tree`root, tree`numnodes, tree`tree
    modifies Nodes(tree.tree)`child, Nodes(tree.tree)`parent, Nodes(tree.tree)`childIndex, Nodes(tree.tree)`balance
    ensures freed == old(PostOrder(tree.tree))
    ensures tree.Valid() && tree.root == null && tree.numnodes == 0
  {
    hide *;
    TeardownStarts(tree);
    NodesAllocated(tree.tree);
    ghost var all, post := Nodes(tree.tree), PostOrder(tree.tree);
    ghost var stage: Stage<T> := Intact;
    freed := [];
    var node, cookie;
    node, cookie, stage := DestroyNodes(tree, Start, stage);
    while node != null
      invariant Teardown(tree, cookie, stage)
      invariant node != null ==> Left(tree, stage) <= all && node in all && node !in Left(tree, stage)
      invariant node != null ==> post == freed + [node] + Pending(tree, stage)
      invariant node == null ==> post == freed && tree.Valid() && tree.root == null && tree.numnodes == 0
      decreases |post| - |freed|
    {
      node.child, node.parent, node.childIndex, node.balance := Links(node, node), node, 1, 1;
      freed := freed + [node];
      ghost var todo := Pending(tree, stage);
      node, cookie, stage := DestroyNodes(tree, cookie, stage);
      assert todo != [] ==> todo == [todo[0]] + todo[1..];
    }
  }

  lemma TeardownStarts<T>(tree: AvlTree<T>)
    requires tree.Valid()
    ensures Teardown(tree, Start, Intact) && Left(tree, Intact) == Nodes(tree.tree)
    ensures Pending(tree, Intact) == PostOrder(tree.tree)
    ensures PostOrder(tree.tree) != [] ==> PostOrder(tree.tree) == [PostOrder(tree.tree)[0]] + PostOrder(tree.tree)[1..]
  {
  }
}
