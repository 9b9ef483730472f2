/** The pointer-level red-black tree of rb.h: nodes relinked in place, no
    parent pointers, one sentinel, and an explicit path for the way back up. */
module RbTreeHeap {
  import opened PowersOfTwo
  import opened RbTreeShape
  import opened RbTreeSpec
  import opened RbTreeLinks

  class RbTree {
    var root: Node
    const nil: Node
    ghost var tree: Tree
    ghost var nodes: set<Node>

    ghost predicate Valid()
      reads this, nil, Nodes(tree)
    {
      && Linked(root, tree, nil) && Apart(tree) && nodes == Nodes(tree)
      && !nil.red && nil !in Nodes(tree)
      && RedBlack(tree) && Sorted(Inorder(tree))
      && |Inorder(tree)| + 1 < Pow2(64)
    }

    constructor ()
      ensures Valid() && tree == Nil && fresh(nil)
    {
      nil := new Node(0, false);
      root := nil;
      tree, nodes := Nil, {};
      Pow2Monotone(1, 64);
    }

    /** The path down to `p`, which heads the subtree `t`. */
    ghost predicate Winding(path: seq<Entry>, ctx: seq<Frame>, p: Node, t: Tree, h: int, mayRed: bool)
      reads PathNodes(ctx), Nodes(t), this
    {
      && Matches(path, ctx) && |path| + Height(t) <= Height(tree)
      && PathLinked(ctx, p, nil) && Linked(p, t, nil) && Top(ctx, p) == root
      && Focus(tree, ctx, t, h, mayRed)
      && Nodes(t) <= Nodes(tree)
    }

    lemma WindRoot()
      requires Valid()
      ensures Winding([], [], root, tree, BlackHeight(tree), false)
      ensures Height(tree) <= 126
    {
      FocusRoot(tree);
      HeightBound(tree);
    }

    lemma WindDown(path: seq<Entry>, ctx: seq<Frame>, p: Node, t: Tree, h: int, mayRed: bool, cmp: int)
      requires Winding(path, ctx, p, t, h, mayRed) && t.T?
      ensures Winding(path + [Entry(p, cmp)], ctx + [Step(t, cmp < 0)], if cmp < 0 then p.left else p.right,
                      Child(t, cmp < 0), if t.red then h else h - 1, cmp < 0 && !t.red)
    {
      FocusDown(tree, ctx, t, h, mayRed, cmp < 0);
      PathLinkedDown(ctx, p, t, cmp < 0, nil);
    }

    method InsertWind(node: Node) returns (path: seq<Entry>, ghost ctx: seq<Frame>)
      requires Valid()
      requires forall m :: m in Nodes(tree) ==> m.key != node.key
      ensures Matches(path, ctx) && |path| < PATH_MAX
      ensures PathLinked(ctx, nil, nil) && Top(ctx, nil) == root
      ensures Focus(tree, ctx, Nil, 0, false)
      ensures AllBelow(Before(ctx), node.key) && AllAbove(After(ctx), node.key)
    {
      path, ctx := [], [];
      var p: Node := root;
      ghost var t, h, mayRed := tree, BlackHeight(tree), false;
      WindRoot();
      while p != nil
        invariant Winding(path, ctx, p, t, h, mayRed)
        invariant AllBelow(Before(ctx), node.key) && AllAbove(After(ctx), node.key)
        decreases t
      {
        var cmp := Cmp(node, p);
        FocusDownKey(tree, ctx, t, cmp < 0, node.key);
        WindDown(path, ctx, p, t, h, mayRed, cmp);
        path := path + [Entry(p, cmp)];
        ctx := ctx + [Step(t, cmp < 0)];
        h, mayRed := if t.red then h else h - 1, cmp < 0 && !t.red;
        p := if cmp < 0 then p.left else p.right;
        t := Child(t, cmp < 0);
      }
      PathOkBlack(ctx, h, mayRed);
    }

    /** The way back up: `t` hangs at `child`, the frames `c` above it are
        still linked as before, and the last of them links to `stale`. */
    ghost predicate Unwinding(path: seq<Entry>, c: seq<Frame>, stale: Node, child: Node, t: Tree)
      reads PathNodes(c), Nodes(t), this, nil
    {
      && |c| <= |path| && Matches(path[..|c|], c)
      && PathLinked(c, stale, nil) && Top(c, stale) == root
      && PathApart(c, Nodes(t)) && Apart(t) && Linked(child, t, nil)
      && PathNodes(c) <= nodes && nil !in PathNodes(c) && nil !in Nodes(t) && !nil.red
    }

    /** One turn of the insert unwind loop. */
    method InsertUnwindOnce(ghost path: seq<Entry>, e: Entry, child: Node, ghost c: seq<Frame>, ghost stale: Node, ghost t: Tree)
      returns (up: Node, done: bool)
      requires c != [] && t.T? && Unwinding(path, c, stale, child, t) && e == path[|c| - 1]
      modifies PathNodes(c) + Nodes(t)
      ensures done <==> InsertStep(Lowest(c), t).Done?
      ensures var u := InsertStep(Lowest(c), t).t;
              && Nodes(u) == Nodes(t) + FrameNodes(Lowest(c))
              && Unwinding(path, Upper(c), Lowest(c).n, up, u)
              && (done ==> up == Lowest(c).n)
    {
      ghost var f := Lowest(c);
      InsertStepNodes(f, t);
      PathApartDisjoint(Upper(c), Nodes(t) + FrameNodes(f));
      up, done := InsertStepLinks(nil, e.node, e.cmp < 0, child, f, t);
    }

    method InsertUnwindLinks(path: seq<Entry>, node: Node, ghost ctx: seq<Frame>, ghost stale: Node, ghost done: Tree)
      requires Unwinding(path, ctx, stale, node, T(Nil, node, true, Nil)) && |path| == |ctx|
      requires done == InsertUnwind(ctx, T(Nil, node, true, Nil))
      modifies this, PathNodes(ctx), node
      ensures Linked(root, done, nil) && !nil.red
      ensures tree == old(tree) && nodes == old(nodes)
    {
      var child := node;
      var i := |path|;
      ghost var c, t, top := ctx, T(Nil, node, true, Nil), stale;
      while i > 0
        invariant i == |c| && t.T?
        invariant Unwinding(path, c, top, child, t)
        invariant PathNodes(c) <= PathNodes(ctx) && Nodes(t) <= PathNodes(ctx) + {node}
        invariant InsertUnwind(c, t) == done
        invariant tree == old(tree) && nodes == old(nodes)
      {
        i := i - 1;
        var up, done := InsertUnwindOnce(path, path[i], child, c, top, t);
        t, c, top := InsertStep(Lowest(c), t).t, Upper(c), Lowest(c).n;
        child := up;
        if done {
          PlugLinked(c, child, t, nil);
          return;
        }
      }
      root := child;
      root.red := false;
    }

    /** Node initializer: both children nil, red. */
    method NodeNew(node: Node)
      requires Valid() && node != nil && node !in nodes
      modifies node
      ensures Valid()
      ensures node.left == nil && node.right == nil && node.red
    {
      node.left, node.right, node.red := nil, nil, true;
    }

    /** Adds `node`, whose key is new. */
    method Insert(node: Node)
      requires Valid() && node != nil
      requires forall m :: m in nodes ==> m.key != node.key
      requires |Inorder(tree)| + 2 < Pow2(64)
      modifies this, nodes, node
      ensures Valid() && nodes == old(nodes) + {node}
      ensures Adds(old(Inorder(tree)), node, Inorder(tree))
    {
      NodeNew(node);
      var path, ctx := InsertWind(node);
      InsertFinish(path, node, ctx);
    }

    /** The second half of insert: back up the path. */
    method InsertFinish(path: seq<Entry>, node: Node, ghost ctx: seq<Frame>)
      requires Valid() && node != nil && node !in nodes
      requires node.left == nil && node.right == nil && node.red
      requires Matches(path, ctx)
      requires PathLinked(ctx, nil, nil) && Top(ctx, nil) == root
      requires Focus(tree, ctx, Nil, 0, false)
      requires AllBelow(Before(ctx), node.key) && AllAbove(After(ctx), node.key)
      requires |Inorder(tree)| + 2 < Pow2(64)
      modifies this, nodes, node
      ensures Valid() && nodes == old(nodes) + {node}
      ensures Adds(old(Inorder(tree)), node, Inorder(tree))
    {
      InsertReady(path, ctx, node);
      ghost var t := InsertUnwind(ctx, T(Nil, node, true, Nil));
      InsertResult(tree, ctx, node, t);
      InsertUnwindLinks(path, node, ctx, nil, t);
      tree, nodes := t, nodes + {node};
    }

    /** The links along the path are ready for the unwind. */
    lemma InsertReady(path: seq<Entry>, ctx: seq<Frame>, node: Node)
      requires Valid() && node != nil && node !in nodes
      requires node.left == nil && node.right == nil && node.red
      requires Matches(path, ctx)
      requires PathLinked(ctx, nil, nil) && Top(ctx, nil) == root && Plug(ctx, Nil) == tree
      ensures Unwinding(path, ctx, nil, node, T(Nil, node, true, Nil))
      ensures PathNodes(ctx) == nodes
    {
      var leaf := T(Nil, node, true, Nil);
      PlugApart(ctx, Nil);
      assert path[..|ctx|] == path;
      assert Nodes(leaf) == {} + {node};
      PathApartGrows(ctx, {}, {node});
    }

    // ----- remove -----

    /** Hangs `up` where the path ends: at its last node, or at the root. */
    method Relink(path: seq<Entry>, i: nat, up: Node, ghost c: seq<Frame>, ghost stale: Node, ghost below: set<Node>)
      requires i == |c| <= |path| && Matches(path[..i], c)
      requires PathLinked(c, stale, nil) && Top(c, stale) == root && PathApart(c, below)
      requires nil !in PathNodes(c)
      modifies this`root, PathNodes(c)
      ensures PathLinked(c, up, nil) && Top(c, up) == root && nil.red == old(nil.red)
    {
      if i == 0 {
        root := up;
      } else {
        PathApartDisjoint(Upper(c), below + FrameNodes(Lowest(c)));
        assert path[i - 1] == path[..i][i - 1];
        var e := path[i - 1];
        if e.cmp < 0 {
          e.node.left := up;
        } else {
          e.node.right := up;
        }
        assert PathLinked(Upper(c), Lowest(c).n, nil);
      }
    }

    method RelinkTree(path: seq<Entry>, i: nat, up: Node, ghost c: seq<Frame>, ghost stale: Node, ghost u: Tree)
      requires i == |c| && Unwinding(path, c, stale, up, u) && Nodes(u) <= nodes
      modifies this`root, PathNodes(c)
      ensures Linked(root, Plug(c, u), nil) && !nil.red
    {
      PathApartDisjoint(c, Nodes(u));
      Relink(path, i, up, c, stale, Nodes(u));
      PlugLinked(c, up, u, nil);
    }

    /** One turn of the remove unwind loop. */
    method RemoveUnwindOnce(ghost path: seq<Entry>, e: Entry, child: Node, ghost c: seq<Frame>, ghost stale: Node,
                            ghost t: Tree, ghost h: int)
      returns (up: Node, done: bool)
      requires c != [] && Unwinding(path, c, stale, child, t) && e == path[|c| - 1]
      requires PathOk(c, h, false) && h >= 1 && Balanced(t, h - 1) && !Red(t)
      modifies PathNodes(c) + Nodes(t)
      ensures Lowest(c).sib.T? && (!Lowest(c).left && Red(Lowest(c).sib) ==> Lowest(c).sib.r.T?)
      ensures done <==> RemoveStep(Lowest(c), t).Done?
      ensures var u := RemoveStep(Lowest(c), t).t;
              && Nodes(u) == Nodes(t) + FrameNodes(Lowest(c))
              && Unwinding(path, Upper(c), Lowest(c).n, up, u)
    {
      ghost var f := Lowest(c);
      RemoveStepBalances(f, t, h, false);
      RemoveStepNodes(f, t);
      PathApartDisjoint(Upper(c), Nodes(t) + FrameNodes(f));
      up, done := RemoveStepLinks(nil, e.node, e.cmp < 0, child, f, t);
    }

    method RemoveUnwindLinks(path: seq<Entry>, depth: nat, ghost ctx: seq<Frame>, ghost stale: Node)
      requires depth == |ctx| && Unwinding(path, ctx, stale, nil, Nil) && PathOk(ctx, 1, false)
      modifies this`root, PathNodes(ctx)
      ensures Linked(root, RemoveUnwind(ctx, Nil, 1), nil) && !nil.red
    {
      var child: Node := nil;
      var i := depth;
      ghost var c, t, top, h := ctx, Nil, stale, 1;
      while i > 0
        invariant i == |c| && Unwinding(path, c, top, child, t)
        invariant PathNodes(c) <= PathNodes(ctx) && Nodes(t) <= PathNodes(ctx)
        invariant PathOk(c, h, false) && h >= 1 && Balanced(t, h - 1) && !Red(t)
        invariant RemoveUnwind(c, t, h) == RemoveUnwind(ctx, Nil, 1)
      {
        i := i - 1;
        var up, done := RemoveUnwindOnce(path, path[i], child, c, top, t, h);
        RemoveStepBalances(Lowest(c), t, h, false);
        h := FrameHeight(Lowest(c), h);
        t, c, top := RemoveStep(Lowest(c), t).t, Upper(c), Lowest(c).n;
        child := up;
        if done {
          RelinkTree(path, i, child, c, top, t);
          return;
        }
      }
      root := child;
    }

    /** Takes the leaf at the end of the path away and restores balance. */
    method Prune(path: seq<Entry>, depth: nat, red: bool, ghost c: seq<Frame>, ghost stale: Node)
      requires depth == |c| && Unwinding(path, c, stale, nil, Nil)
      requires PathOk(c, if red then 0 else 1, red)
      modifies this`root, PathNodes(c)
      ensures Linked(root, Pruned(c, red), nil) && !nil.red
    {
      if red {
        // Prune red node, which requires no fixup.
        Relink(path, depth, nil, c, stale, {});
        PlugLinked(c, nil, Nil, nil);
      } else {
        RemoveUnwindLinks(path, depth, c, stale);
      }
    }

    /** Going down past `t` towards `node` stays above `node`. */
    lemma TowardsNode(ctx: seq<Frame>, t: Tree, node: Node)
      requires Sorted(Inorder(tree)) && Plug(ctx, t) == tree && node in Nodes(t)
      ensures Cmp(node, t.n) < 0 ==> node in Nodes(t.l)
      ensures Cmp(node, t.n) > 0 ==> node in Nodes(t.r)
      ensures Cmp(node, t.n) == 0 ==> node == t.n
    {
      SubtreeSorted(tree, ctx, t);
      InorderNode(t.l, node);
      InorderNode(t.r, node);
    }

    /** The path to `node` (first half of the wind of remove). */
    method FindWind(node: Node) returns (path: seq<Entry>, ghost ctx0: seq<Frame>, ghost sub: Tree, ghost h: int, ghost mayRed: bool)
      requires Valid() && node in nodes
      ensures Winding(path, ctx0, node, sub, h, mayRed) && sub.T? && sub.n == node
    {
      path, ctx0 := [], [];
      var p: Node := root;
      sub, h, mayRed := tree, BlackHeight(tree), false;
      WindRoot();
      var cmp := Cmp(node, p);
      while cmp != 0
        invariant Winding(path, ctx0, p, sub, h, mayRed) && node in Nodes(sub)
        invariant cmp == Cmp(node, p)
        decreases sub
      {
        TowardsNode(ctx0, sub, node);
        WindDown(path, ctx0, p, sub, h, mayRed, cmp);
        path := path + [Entry(p, cmp)];
        ctx0 := ctx0 + [Step(sub, cmp < 0)];
        h, mayRed := if sub.red then h else h - 1, cmp < 0 && !sub.red;
        p := if cmp < 0 then p.left else p.right;
        sub := Child(sub, cmp < 0);
        cmp := Cmp(node, p);
      }
      TowardsNode(ctx0, sub, node);
    }

    /** The path on to the successor of `node` (second half). */
    method SuccessorWind(node: Node, path0: seq<Entry>, ghost ctx0: seq<Frame>, ghost sub: Tree, ghost h0: int, ghost mayRed0: bool)
      returns (path: seq<Entry>, ghost spine: seq<Frame>)
      requires Valid() && Winding(path0, ctx0, node, sub, h0, mayRed0) && sub.T? && sub.n == node
      ensures |path| < PATH_MAX && Matches(path, ctx0 + [Step(sub, false)] + spine)
      ensures var c := ctx0 + [Step(sub, false)] + spine; PathLinked(c, nil, nil) && Top(c, nil) == root
      ensures Found(tree, ctx0, sub, spine)
      ensures Winding(path0, ctx0, node, sub, h0, mayRed0) && |path0| == |ctx0| < |path| && path[..|path0|] == path0
    {
      WindDown(path0, ctx0, node, sub, h0, mayRed0, 1);
      WindRoot();
      path, spine := path0 + [Entry(node, 1)], [];
      var p: Node := node.right;
      ghost var c0 := ctx0 + [Step(sub, false)];
      ghost var t, h, mayRed := sub.r, if sub.red then h0 else h0 - 1, false;
      assert c0 + spine == c0;
      while p != nil
        invariant Winding(path, c0 + spine, p, t, h, mayRed) && AllLeft(spine)
        invariant |path0| < |path| && path[..|path0|] == path0
        invariant Winding(path0, ctx0, node, sub, h0, mayRed0)
        decreases t
      {
        WindDown(path, c0 + spine, p, t, h, mayRed, -1);
        assert c0 + spine + [Step(t, true)] == c0 + (spine + [Step(t, true)]);
        path := path + [Entry(p, -1)];
        spine := spine + [Step(t, true)];
        h, mayRed := if t.red then h else h - 1, !t.red;
        p := p.left;
        t := t.l;
      }
      assert t == Nil;
    }

    /** The successor takes over the colour and the children of `node`. */
    method TakePlace(node: Node, succ: Node, ghost ctx0: seq<Frame>, ghost f: Frame, ghost rest: seq<Frame>)
      requires node == f.n && !f.left && FrameLinked(f, nil) && PathLinked(rest, succ, nil) && PathLinked(ctx0, node, nil)
      requires FrameApart(f, PathNodes(rest) + {succ}) && succ !in PathNodes(rest) && succ != nil
      requires PathNodes(ctx0) !! PathNodes(rest) + {succ} + FrameNodes(f)
      modifies node, succ
      ensures FrameLinked(f.(n := succ), nil) && succ.right == old(node.right)
      ensures PathLinked(rest, succ, nil) && PathLinked(ctx0, node, nil)
    {
      var tred := succ.red;
      succ.red, succ.left, succ.right := node.red, node.left, node.right;
      node.red := tred;
      assert Linked(succ.left, f.sib, nil);
    }

    /** What the path says about the two that swap places. */
    static lemma SwapEnds(path: seq<Entry>, nodep: nat, ctx0: seq<Frame>, f: Frame, spine: seq<Frame>)
      requires spine != [] && nodep == |ctx0| && Matches(path, ctx0 + [f] + spine)
      ensures nodep < |path| && path[nodep].node == f.n && path[|path| - 1].node == Lowest(spine).n && Matches(path[..nodep], ctx0)
    {
      var c := ctx0 + [f] + spine;
      assert c[|c| - 1] == Lowest(spine) && c[nodep] == f;
      assert forall k :: 0 <= k < nodep ==> c[k] == ctx0[k];
    }

    /** Links the successor into the place of `node` (`nodep` is the index of
        `node` on the path; its successor is the last entry). */
    method SwapLinks(path: seq<Entry>, nodep: nat, ghost ctx0: seq<Frame>, ghost sub: Tree, ghost spine: seq<Frame>)
      requires sub.T? && spine != [] && AllLeft(spine) && Lowest(spine).sib == Nil && nodep == |ctx0|
      requires var c := ctx0 + [Step(sub, false)] + spine;
               Matches(path, c) && PathLinked(c, nil, nil) && Top(c, nil) == root && Plug(c, Nil) == tree && Apart(tree)
      requires Nodes(tree) == nodes && nil !in nodes && !nil.red
      modifies this`root, nodes
      ensures PathLinked(Swapped(ctx0, sub, spine), Lowest(spine).n, nil)
      ensures Top(Swapped(ctx0, sub, spine), Lowest(spine).n) == root
      ensures !nil.red
    {
      SwapPiecesApart(ctx0, sub, spine, tree);
      SwapPiecesLinked(ctx0, sub, spine, nil);
      ghost var f := Step(sub, false);
      SwapEnds(path, nodep, ctx0, f, spine);
      var node, succ := path[nodep].node, path[|path| - 1].node;
      TakePlace(node, succ, ctx0, f, Upper(spine));
      Relink(path, nodep, succ, ctx0, node, PathNodes(Upper(spine)) + {succ} + FrameNodes(f));
      SwappedLinked(ctx0, sub, spine, nil);
    }

    /** Removes `node` when it has a successor below it: the two swap places,
        and `node` is pruned at the bottom. */
    method RemoveWithSuccessor(path: seq<Entry>, nodep: nat, ghost ctx0: seq<Frame>, ghost sub: Tree, ghost spine: seq<Frame>)
      requires Valid() && Found(tree, ctx0, sub, spine) && spine != [] && nodep == |ctx0|
      requires var c := ctx0 + [Step(sub, false)] + spine;
               Matches(path, c) && PathLinked(c, nil, nil) && Top(c, nil) == root
      modifies this`root, nodes
      ensures Linked(root, RemoveResult(tree, ctx0, sub, spine), nil) && !nil.red
    {
      ghost var c := ctx0 + [Step(sub, false)] + spine;
      var last := |path| - 1;
      assert c[last] == Lowest(spine) && c[nodep] == Step(sub, false);
      FoundSuccessor(tree, ctx0, sub, spine);
      SwapPiecesLinked(ctx0, sub, spine, nil);
      SwappedApart(ctx0, sub, spine, tree);
      var succ := path[last].node;
      var tred := succ.red;
      SwapLinks(path, nodep, ctx0, sub, spine);
      var path' := path[nodep := Entry(succ, path[nodep].cmp)];
      SwappedMatches(path, nodep, ctx0, sub, spine);
      Prune(path', last, tred, Swapped(ctx0, sub, spine), succ);
    }

    /** Removes `node` when nothing hangs to its right. */
    method RemoveWithoutSuccessor(path: seq<Entry>, node: Node, nodep: nat, ghost ctx0: seq<Frame>, ghost sub: Tree)
      requires Valid() && Found(tree, ctx0, sub, []) && nodep == |ctx0| && sub.n == node && Plug(ctx0, sub) == tree
      requires nodep <= |path| && Matches(path[..nodep], ctx0)
      requires PathLinked(ctx0, node, nil) && Top(ctx0, node) == root && Linked(node, sub, nil)
      modifies this`root, nodes
      ensures Linked(root, RemoveResult(tree, ctx0, sub, []), nil) && !nil.red
    {
      FoundNoSuccessor(tree, ctx0, sub, []);
      PlugApart(ctx0, sub);
      PathApartDisjoint(ctx0, Nodes(sub));
      PathApartShrinks(ctx0, Nodes(sub), {});
      Unfold(node, sub, nil);
      var left := node.left;
      if left != nil {
        // Splice node out, without losing the left child.
        left.red := false;
        PathApartShrinks(ctx0, Nodes(sub), Nodes(Paint(sub.l, false)));
        RelinkTree(path, nodep, left, ctx0, node, Paint(sub.l, false));
      } else if nodep == 0 {
        root := nil;
      } else {
        Prune(path, nodep, node.red, ctx0, node);
      }
    }

    /** Removes `node` from the tree. */
    method Remove(node: Node)
      requires Valid() && node in nodes
      modifies this, nodes
      ensures Valid() && nodes == old(nodes) - {node}
      ensures Adds(Inorder(tree), node, old(Inorder(tree)))
    {
      var path0, ctx0, sub, h, mayRed := FindWind(node);
      var path, spine := SuccessorWind(node, path0, ctx0, sub, h, mayRed);
      RemoveFinish(path, |path0|, node, ctx0, sub, spine);
    }

    method RemoveFinish(path: seq<Entry>, nodep: nat, node: Node, ghost ctx0: seq<Frame>, ghost sub: Tree, ghost spine: seq<Frame>)
      requires Valid() && Found(tree, ctx0, sub, spine) && nodep == |ctx0| && sub.n == node && Plug(ctx0, sub) == tree
      requires var c := ctx0 + [Step(sub, false)] + spine;
               Matches(path, c) && PathLinked(c, nil, nil) && Top(c, nil) == root
      requires nodep <= |path| && Matches(path[..nodep], ctx0)
      requires PathLinked(ctx0, node, nil) && Top(ctx0, node) == root && Linked(node, sub, nil)
      modifies this, nodes
      ensures Valid() && nodes == old(nodes) - {node}
      ensures Adds(Inorder(tree), node, old(Inorder(tree)))
    {
      RemoveCorrect(tree, ctx0, sub, spine);
      RemoveNodes(tree, ctx0, sub, spine);
      RemoveLinks(path, nodep, node, ctx0, sub, spine);
      tree, nodes := RemoveResult(tree, ctx0, sub, spine), nodes - {node};
    }

    method RemoveLinks(path: seq<Entry>, nodep: nat, node: Node, ghost ctx0: seq<Frame>, ghost sub: Tree, ghost spine: seq<Frame>)
      requires Valid() && Found(tree, ctx0, sub, spine) && nodep == |ctx0| && sub.n == node && Plug(ctx0, sub) == tree
      requires var c := ctx0 + [Step(sub, false)] + spine;
               Matches(path, c) && PathLinked(c, nil, nil) && Top(c, nil) == root
      requires nodep <= |path| && Matches(path[..nodep], ctx0)
      requires PathLinked(ctx0, node, nil) && Top(ctx0, node) == root && Linked(node, sub, nil)
      modifies this`root, nodes
      ensures Linked(root, RemoveResult(tree, ctx0, sub, spine), nil) && !nil.red
    {
      if |path| - 1 != nodep {
        RemoveWithSuccessor(path, nodep, ctx0, sub, spine);
      } else {
        assert spine == [];
        RemoveWithoutSuccessor(path, node, nodep, ctx0, sub);
      }
    }

    // ----- queries -----

    /** `p` heads a sorted subtree of the tree. */
    ghost predicate Heads(p: Node, t: Tree)
      reads Nodes(t), this
    {
      Linked(p, t, nil) && Sorted(Inorder(t)) && Nodes(t) <= nodes
    }

    lemma HeadsRoot()
      requires Valid()
      ensures Heads(root, tree)
    {
    }

    lemma HeadsSides(p: Node, t: Tree)
      requires Heads(p, t) && t.T?
      ensures p == t.n && p != nil && p in nodes && Nodes(t) == Nodes(t.l) + {p} + Nodes(t.r)
      ensures Heads(p.left, t.l) && Heads(p.right, t.r)
      ensures forall m :: m in Nodes(t.l) ==> m.key < p.key
      ensures forall m :: m in Nodes(t.r) ==> m.key > p.key
    {
      SortedParts(Inorder(t.l), t.n, Inorder(t.r));
      forall m | m in Nodes(t.l) ensures m.key < p.key { InorderNode(t.l, m); }
      forall m | m in Nodes(t.r) ensures m.key > p.key { InorderNode(t.r, m); }
    }

    /** The leftmost node below `p`. */
    method FirstFrom(p: Node, ghost t: Tree) returns (r: Node)
      requires Heads(p, t) && t.T?
      ensures r in Nodes(t) && forall m :: m in Nodes(t) ==> r.key <= m.key
    {
      r := p;
      ghost var u := t;
      HeadsSides(r, u);
      while r.left != nil
        invariant Heads(r, u) && u.T? && r == u.n && Heads(r.left, u.l)
        invariant Nodes(u) <= Nodes(t) && Nodes(u) == Nodes(u.l) + {r} + Nodes(u.r)
        invariant forall m :: m in Nodes(u.r) ==> m.key > r.key
        invariant forall m :: m in Nodes(t) && m !in Nodes(u) ==> m.key > r.key
        decreases u
      {
        HeadsSides(r, u);
        r := r.left;
        u := u.l;
        HeadsSides(r, u);
      }
    }

    /** The rightmost node below `p`. */
    method LastFrom(p: Node, ghost t: Tree) returns (r: Node)
      requires Heads(p, t) && t.T?
      ensures r in Nodes(t) && forall m :: m in Nodes(t) ==> m.key <= r.key
    {
      r := p;
      ghost var u := t;
      HeadsSides(r, u);
      while r.right != nil
        invariant Heads(r, u) && u.T? && r == u.n && Heads(r.right, u.r)
        invariant Nodes(u) <= Nodes(t) && Nodes(u) == Nodes(u.l) + {r} + Nodes(u.r)
        invariant forall m :: m in Nodes(u.l) ==> m.key < r.key
        invariant forall m :: m in Nodes(t) && m !in Nodes(u) ==> m.key < r.key
        decreases u
      {
        HeadsSides(r, u);
        r := r.right;
        u := u.r;
        HeadsSides(r, u);
      }
    }

    /** The least node, if any. */
    method First() returns (r: Node?)
      requires Valid()
      ensures r == null <==> nodes == {}
      ensures r != null ==> r in nodes && forall m :: m in nodes ==> r.key <= m.key
    {
      HeadsRoot();
      if root == nil {
        return null;
      }
      r := FirstFrom(root, tree);
    }

    /** The greatest node, if any. */
    method Last() returns (r: Node?)
      requires Valid()
      ensures r == null <==> nodes == {}
      ensures r != null ==> r in nodes && forall m :: m in nodes ==> m.key <= r.key
    {
      HeadsRoot();
      if root == nil {
        return null;
      }
      r := LastFrom(root, tree);
    }

    /** The node with this key, if any. */
    method Search(key: int) returns (r: Node?)
      requires Valid()
      ensures r == null ==> forall m :: m in nodes ==> m.key != key
      ensures r != null ==> r in nodes && r.key == key
    {
      HeadsRoot();
      var p: Node := root;
      ghost var t := tree;
      while p != nil && p.key != key
        invariant Heads(p, t)
        invariant forall m :: m in nodes && m !in Nodes(t) ==> m.key != key
        decreases t
      {
        HeadsSides(p, t);
        if key < p.key {
          p, t := p.left, t.l;
        } else {
          p, t := p.right, t.r;
        }
      }
      if p == nil {
        return null;
      }
      HeadsSides(p, t);
      return p;
    }

    /** The least node whose key is not below `key`, if any. */
    method NSearch(key: int) returns (r: Node?)
      requires Valid()
      ensures r == null ==> forall m :: m in nodes ==> m.key < key
      ensures r != null ==> r in nodes && r.key >= key && forall m :: m in nodes && m.key >= key ==> r.key <= m.key
    {
      HeadsRoot();
      r := null;
      var p: Node := root;
      ghost var t := tree;
      while p != nil
        invariant Heads(p, t)
        invariant r != null ==> r in nodes && r.key > key && forall m :: m in Nodes(t) ==> m.key < r.key
        invariant forall m :: m in nodes && m !in Nodes(t) ==> m.key < key || (r != null && r.key <= m.key)
        decreases t
      {
        HeadsSides(p, t);
        if key < p.key {
          r := p;
          p, t := p.left, t.l;
        } else if key > p.key {
          p, t := p.right, t.r;
        } else {
          return p;
        }
      }
    }

    /** The greatest node whose key is not above `key`, if any. */
    method PSearch(key: int) returns (r: Node?)
      requires Valid()
      ensures r == null ==> forall m :: m in nodes ==> m.key > key
      ensures r != null ==> r in nodes && r.key <= key && forall m :: m in nodes && m.key <= key ==> m.key <= r.key
    {
      HeadsRoot();
      r := null;
      var p: Node := root;
      ghost var t := tree;
      while p != nil
        invariant Heads(p, t)
        invariant r != null ==> r in nodes && r.key < key && forall m :: m in Nodes(t) ==> r.key < m.key
        invariant forall m :: m in nodes && m !in Nodes(t) ==> m.key > key || (r != null && m.key <= r.key)
        decreases t
      {
        HeadsSides(p, t);
        if key < p.key {
          p, t := p.left, t.l;
        } else if key > p.key {
          r := p;
          p, t := p.right, t.r;
        } else {
          return p;
        }
      }
    }

    /** Every node of the tree heads a subtree, and whatever lies outside it
        lies on one side of all of it. */
    lemma SubtreeOf(node: Node) returns (t: Tree)
      requires Valid() && node in nodes
      ensures Heads(node, t) && t.T?
      ensures forall m, x :: m in nodes && m !in Nodes(t) && x in Nodes(t) ==> (m.key < node.key <==> m.key < x.key) && m.key != x.key
    {
      HeadsRoot();
      var p: Node := root;
      t := tree;
      HeadsSides(p, t);
      while p.key != node.key
        invariant Heads(p, t) && t.T? && p == t.n && node in Nodes(t)
        invariant forall m, x :: m in nodes && m !in Nodes(t) && x in Nodes(t) ==> (m.key < node.key <==> m.key < x.key) && m.key != x.key
        decreases t
      {
        HeadsSides(p, t);
        if node.key < p.key {
          p, t := p.left, t.l;
        } else {
          p, t := p.right, t.r;
        }
      }
      HeadsSides(p, t);
    }

    /** The successor of `node`, if any: down from its right child, or else
        the last node at which the search for `node` turns left. */
    method Next(node: Node) returns (r: Node?)
      requires Valid() && node in nodes
      ensures r == null ==> forall m :: m in nodes ==> m.key <= node.key
      ensures r != null ==> r in nodes && r.key > node.key && forall m :: m in nodes && m.key > node.key ==> r.key <= m.key
    {
      ghost var u := SubtreeOf(node);
      HeadsSides(node, u);
      if node.right != nil {
        r := FirstFrom(node.right, u.r);
        return;
      }
      HeadsRoot();
      var p: Node := root;
      ghost var t := tree;
      r := null;
      HeadsSides(p, t);
      while p.key != node.key
        invariant Heads(p, t) && t.T? && node in Nodes(t)
        invariant r != null ==> r in nodes && r.key > node.key && forall m :: m in Nodes(t) ==> m.key < r.key
        invariant forall m :: m in nodes && m !in Nodes(t) && m.key > node.key ==> r != null && r.key <= m.key
        decreases t
      {
        HeadsSides(p, t);
        if node.key < p.key {
          r := p;
          p, t := p.left, t.l;
        } else {
          p, t := p.right, t.r;
        }
      }
      HeadsSides(p, t);
    }

    /** The predecessor of `node`, if any. */
    method Prev(node: Node) returns (r: Node?)
      requires Valid() && node in nodes
      ensures r == null ==> forall m :: m in nodes ==> node.key <= m.key
      ensures r != null ==> r in nodes && r.key < node.key && forall m :: m in nodes && m.key < node.key ==> m.key <= r.key
    {
      ghost var u := SubtreeOf(node);
      HeadsSides(node, u);
      if node.left != nil {
        r := LastFrom(node.left, u.l);
        return;
      }
      HeadsRoot();
      var p: Node := root;
      ghost var t := tree;
      r := null;
      HeadsSides(p, t);
      while p.key != node.key
        invariant Heads(p, t) && t.T? && node in Nodes(t)
        invariant r != null ==> r in nodes && r.key < node.key && forall m :: m in Nodes(t) ==> r.key < m.key
        invariant forall m :: m in nodes && m !in Nodes(t) && m.key < node.key ==> r != null && m.key <= r.key
        decreases t
      {
        HeadsSides(p, t);
        if node.key < p.key {
          p, t := p.left, t.l;
        } else {
          r := p;
          p, t := p.right, t.r;
        }
      }
      HeadsSides(p, t);
    }
  }
}
