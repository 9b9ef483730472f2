/** Red-black trees as linked nodes: what it means that the links spell out a
    tree value, and one unwind iteration of insert and of remove on the links
    (rb.h). */
module RbTreeLinks {
  import opened RbTreeShape
  import opened RbTreeSpec

  // ----- which nodes, and how they are linked -----

  ghost function Nodes(t: Tree): set<Node> {
    match t
    case Nil => {}
    case T(l, n, _, r) => Nodes(l) + {n} + Nodes(r)
  }

  ghost function FrameNodes(f: Frame): set<Node> {
    {f.n} + Nodes(f.sib)
  }

  ghost function PathNodes(ctx: seq<Frame>): set<Node> {
    if ctx == [] then {} else PathNodes(Upper(ctx)) + FrameNodes(Lowest(ctx))
  }

  /** No node occurs twice. */
  ghost predicate Apart(t: Tree) {
    match t
    case Nil => true
    case T(l, n, _, r) => n !in Nodes(l) && n !in Nodes(r) && Nodes(l) !! Nodes(r) && Apart(l) && Apart(r)
  }

  ghost predicate FrameApart(f: Frame, below: set<Node>) {
    f.n !in below && f.n !in Nodes(f.sib) && Nodes(f.sib) !! below && Apart(f.sib)
  }

  ghost predicate PathApart(ctx: seq<Frame>, below: set<Node>) {
    ctx != [] ==>
      && FrameApart(Lowest(ctx), below)
      && PathApart(Upper(ctx), below + FrameNodes(Lowest(ctx)))
  }

  /** Following the links from `p` yields exactly the tree `t`. */
  ghost predicate Linked(p: Node, t: Tree, nil: Node)
    reads Nodes(t)
  {
    match t
    case Nil => p == nil
    case T(l, n, red, r) => p == n && n != nil && n.red == red && Linked(n.left, l, nil) && Linked(n.right, r, nil)
  }

  /** Frame `f` is linked, except for its child on the path. */
  ghost predicate FrameLinked(f: Frame, nil: Node)
    reads FrameNodes(f)
  {
    f.n != nil && f.n.red == f.red && Linked(if f.left then f.n.right else f.n.left, f.sib, nil)
  }

  /** The path is linked from its top down to the child `p`. */
  ghost predicate PathLinked(ctx: seq<Frame>, p: Node, nil: Node)
    reads PathNodes(ctx)
  {
    ctx != [] ==>
      && FrameLinked(Lowest(ctx), nil)
      && (if Lowest(ctx).left then Lowest(ctx).n.left else Lowest(ctx).n.right) == p
      && PathLinked(Upper(ctx), Lowest(ctx).n, nil)
  }

  ghost function Top(ctx: seq<Frame>, p: Node): Node {
    if ctx == [] then p else ctx[0].n
  }

  lemma {:induction false} PlugLinked(ctx: seq<Frame>, p: Node, t: Tree, nil: Node)
    requires PathLinked(ctx, p, nil) && Linked(p, t, nil)
    ensures Linked(Top(ctx, p), Plug(ctx, t), nil)
  {
    if ctx != [] {
      PlugLinked(Upper(ctx), Lowest(ctx).n, Join(Lowest(ctx), t), nil);
    }
  }

  /** Going down one link extends the linked path by one frame. */
  lemma PathLinkedDown(ctx: seq<Frame>, p: Node, t: Tree, left: bool, nil: Node)
    requires PathLinked(ctx, p, nil) && Linked(p, t, nil) && t.T?
    ensures var q := if left then p.left else p.right; var c := ctx + [Step(t, left)];
            PathLinked(c, q, nil) && Linked(q, Child(t, left), nil) && Top(c, q) == Top(ctx, p)
  {
    var c := ctx + [Step(t, left)];
    assert Upper(c) == ctx && Lowest(c) == Step(t, left);
  }

  lemma {:induction false} PlugApart(ctx: seq<Frame>, t: Tree)
    ensures Nodes(Plug(ctx, t)) == PathNodes(ctx) + Nodes(t)
    ensures Apart(t) && PathApart(ctx, Nodes(t)) <==> Apart(Plug(ctx, t))
  {
    if ctx != [] {
      assert Nodes(Join(Lowest(ctx), t)) == Nodes(t) + FrameNodes(Lowest(ctx));
      PlugApart(Upper(ctx), Join(Lowest(ctx), t));
    }
  }

  lemma {:induction false} PathApartDisjoint(ctx: seq<Frame>, below: set<Node>)
    requires PathApart(ctx, below)
    ensures PathNodes(ctx) !! below
  {
    if ctx != [] {
      PathApartDisjoint(Upper(ctx), below + FrameNodes(Lowest(ctx)));
    }
  }

  /** The node at the root of `t`, unfolded once. */
  lemma Unfold(p: Node, t: Tree, nil: Node)
    requires t.T? && Linked(p, t, nil) && Apart(t)
    ensures Nodes(t) == Nodes(t.l) + {p} + Nodes(t.r)
    ensures p !in Nodes(t.l) && p !in Nodes(t.r) && Nodes(t.l) !! Nodes(t.r)
    ensures p == t.n && p.red == t.red
    ensures Apart(t.l) && Apart(t.r) && Linked(p.left, t.l, nil) && Linked(p.right, t.r, nil)
  {
  }

  lemma UnfoldApart(t: Tree)
    requires Apart(t)
    ensures t.T? ==> Nodes(t) == Nodes(t.l) + {t.n} + Nodes(t.r) && Apart(t.l) && Apart(t.r)
    ensures t.T? ==> t.n !in Nodes(t.l) && t.n !in Nodes(t.r) && Nodes(t.l) !! Nodes(t.r)
  {
  }

  lemma PaintNodes(t: Tree, red: bool)
    requires t.T?
    ensures Nodes(Paint(t, red)) == Nodes(t) && (Apart(t) ==> Apart(Paint(t, red)))
  {
  }

  lemma InsertStepNodes(f: Frame, t: Tree)
    requires FrameApart(f, Nodes(t)) && Apart(t)
    ensures var u := InsertStep(f, t).t; Nodes(u) == Nodes(t) + FrameNodes(f) && Apart(u)
  {
  }

  lemma SortedParts(l: seq<Node>, n: Node, r: seq<Node>)
    requires Sorted(l + [n] + r)
    ensures Sorted(l) && Sorted(r) && AllBelow(l, n.key) && AllAbove(r, n.key)
  {
    var s := l + [n] + r;
    assert forall i :: 0 <= i < |l| ==> l[i] == s[i];
    assert forall i :: 0 <= i < |r| ==> r[i] == s[|l| + 1 + i];
    assert s[|l|] == n;
  }

  /** Sorted keys keep all nodes apart. */
  lemma {:induction false} SortedApart(t: Tree)
    requires Sorted(Inorder(t))
    ensures Apart(t)
  {
    if t.T? {
      SortedParts(Inorder(t.l), t.n, Inorder(t.r));
      SortedApart(t.l);
      SortedApart(t.r);
      InorderNode(t.l, t.n);
      InorderNode(t.r, t.n);
      forall n | n in Nodes(t.l) ensures n !in Nodes(t.r) {
        InorderNode(t.l, n);
        InorderNode(t.r, n);
      }
    }
  }

  lemma InorderNode(t: Tree, n: Node)
    ensures n in Nodes(t) <==> n in Inorder(t)
  {
  }

  lemma AddsElements(s: seq<Node>, n: Node, s': seq<Node>)
    requires Adds(s, n, s') && Sorted(s')
    ensures n !in s && |s'| == |s| + 1
    ensures forall m :: m in s' <==> m in s || m == n
  {
    var i :| 0 <= i <= |s| && s' == s[..i] + [n] + s[i..];
    assert s'[i] == n;
    forall j | 0 <= j < |s| ensures s[j] in s' && s[j] != n {
      assert s[j] == s'[if j < i then j else j + 1];
    }
    forall j | 0 <= j < |s'| && j != i ensures s'[j] in s {
      assert s'[j] == s[if j < i then j else j - 1];
    }
  }

  /** `u` is `t` with `n` added, and sorted. */
  lemma AddsNodes(t: Tree, n: Node, u: Tree)
    requires Adds(Inorder(t), n, Inorder(u)) && Sorted(Inorder(u))
    ensures Nodes(u) == Nodes(t) + {n} && n !in Nodes(t)
    ensures |Inorder(u)| == |Inorder(t)| + 1
  {
    AddsElements(Inorder(t), n, Inorder(u));
    InorderNode(t, n);
    forall m | m in Nodes(u) ensures m in Nodes(t) + {n} {
      InorderNode(t, m);
      InorderNode(u, m);
    }
    forall m | m in Nodes(t) + {n} ensures m in Nodes(u) {
      InorderNode(t, m);
      InorderNode(u, m);
    }
  }

  lemma {:induction false} PathApartGrows(ctx: seq<Frame>, below: set<Node>, more: set<Node>)
    requires PathApart(ctx, below) && PathNodes(ctx) !! more
    ensures PathApart(ctx, below + more)
  {
    if ctx != [] {
      PathApartGrows(Upper(ctx), below + FrameNodes(Lowest(ctx)), more);
      assert below + FrameNodes(Lowest(ctx)) + more == below + more + FrameNodes(Lowest(ctx));
    }
  }

  lemma RemoveStepNodes(f: Frame, t: Tree)
    requires FrameApart(f, Nodes(t)) && Apart(t)
    requires f.sib.T? && (!f.left && Red(f.sib) ==> f.sib.r.T?)
    ensures var u := RemoveStep(f, t).t; Nodes(u) == Nodes(t) + FrameNodes(f) && Apart(u)
  {
    if f.left { RemoveStepLeftNodes(f, t); } else { RemoveStepRightNodes(f, t); }
  }

  lemma RemoveStepLeftNodes(f: Frame, t: Tree)
    requires FrameApart(f, Nodes(t)) && Apart(t) && f.left && f.sib.T?
    ensures var u := RemoveStepLeft(f, t).t; Nodes(u) == Nodes(t) + FrameNodes(f) && Apart(u)
  {
    UnfoldApart(f.sib);
    UnfoldApart(f.sib.l);
  }

  lemma RemoveStepRightNodes(f: Frame, t: Tree)
    requires FrameApart(f, Nodes(t)) && Apart(t) && !f.left
    requires f.sib.T? && (Red(f.sib) ==> f.sib.r.T?)
    ensures var u := RemoveStepRight(f, t).t; Nodes(u) == Nodes(t) + FrameNodes(f) && Apart(u)
  {
    var s := f.sib;
    UnfoldApart(s);
    if s.red {
      UnfoldApart(s.r);
      PaintNodes(s.r, true);
      if Red(s.r.l) { PaintNodes(s.r.l, false); }
    } else {
      PaintNodes(s, true);
      if Red(s.l) { PaintNodes(s.l, false); }
    }
  }

  // ----- joining and splitting paths -----

  lemma {:induction false} PathNodesAppend(a: seq<Frame>, b: seq<Frame>)
    ensures PathNodes(a + b) == PathNodes(a) + PathNodes(b)
  {
    if b == [] {
      assert a + b == a;
    } else {
      assert Upper(a + b) == a + Upper(b) && Lowest(a + b) == Lowest(b);
      PathNodesAppend(a, Upper(b));
    }
  }

  lemma {:induction false} PathApartAppend(a: seq<Frame>, b: seq<Frame>, below: set<Node>)
    ensures PathApart(a + b, below) <==> PathApart(b, below) && PathApart(a, below + PathNodes(b))
    decreases |b|
  {
    if b == [] {
      assert a + b == a && below + {} == below;
    } else {
      assert Upper(a + b) == a + Upper(b) && Lowest(a + b) == Lowest(b);
      PathApartAppend(a, Upper(b), below + FrameNodes(Lowest(b)));
      assert below + FrameNodes(Lowest(b)) + PathNodes(Upper(b)) == below + PathNodes(b);
    }
  }

  /** A path cut at one of its frames. */
  lemma PathApartAround(a: seq<Frame>, f: Frame, b: seq<Frame>, below: set<Node>)
    ensures PathNodes(a + [f] + b) == PathNodes(a) + FrameNodes(f) + PathNodes(b)
    ensures PathApart(a + [f] + b, below) <==>
            && PathApart(b, below) && FrameApart(f, below + PathNodes(b))
            && PathApart(a, below + PathNodes(b) + FrameNodes(f))
  {
    PathNodesAppend(a + [f], b);
    PathApartAppend(a + [f], b, below);
    assert Upper(a + [f]) == a && Lowest(a + [f]) == f;
  }

  lemma {:induction false} PathApartShrinks(ctx: seq<Frame>, below: set<Node>, less: set<Node>)
    requires PathApart(ctx, below) && less <= below
    ensures PathApart(ctx, less)
    decreases |ctx|
  {
    if ctx != [] {
      PathApartShrinks(Upper(ctx), below + FrameNodes(Lowest(ctx)), less + FrameNodes(Lowest(ctx)));
    }
  }

  lemma {:induction false} PathLinkedAppend(a: seq<Frame>, b: seq<Frame>, p: Node, nil: Node)
    ensures PathLinked(a + b, p, nil) <==> PathLinked(b, p, nil) && PathLinked(a, Top(b, p), nil)
    decreases |b|
  {
    if b == [] {
      assert a + b == a;
    } else {
      assert Upper(a + b) == a + Upper(b) && Lowest(a + b) == Lowest(b);
      PathLinkedAppend(a, Upper(b), Lowest(b).n, nil);
    }
  }

  // ----- one unwind iteration on the links -----

  /** One iteration of the insert unwind. */
  method InsertStepLinks(nil: Node, cnode: Node, left: bool, child: Node, ghost f: Frame, ghost t: Tree)
    returns (up: Node, done: bool)
    requires cnode == f.n && left == f.left
    requires FrameLinked(f, nil) && FrameApart(f, Nodes(t))
    requires Linked(child, t, nil) && Apart(t) && t.T? && !nil.red
    modifies FrameNodes(f) + Nodes(t)
    ensures done <==> InsertStep(f, t).Done?
    ensures done ==> up == f.n
    ensures Linked(up, InsertStep(f, t).t, nil)
  {
    if left {
      up, done := InsertStepLeft(nil, cnode, child, f, t);
    } else {
      up, done := InsertStepRight(nil, cnode, child, f, t);
    }
  }

  method InsertStepLeft(nil: Node, cnode: Node, left: Node, ghost f: Frame, ghost t: Tree)
    returns (up: Node, done: bool)
    requires cnode == f.n && f.left
    requires FrameLinked(f, nil) && FrameApart(f, Nodes(t))
    requires Linked(left, t, nil) && Apart(t) && t.T? && !nil.red
    modifies FrameNodes(f) + Nodes(t)
    ensures done <==> InsertStep(f, t).Done?
    ensures done ==> up == f.n
    ensures Linked(up, InsertStep(f, t).t, nil)
  {
    up := cnode;
    cnode.left := left;
    if !left.red {
      return up, true;
    }
    var leftleft := left.left;
    if leftleft.red {
      // Fix up 4-node.
      leftleft.red := false;
      up := cnode.left;
      cnode.left := up.right;
      up.right := cnode;
    }
    done := false;
  }

  method InsertStepRight(nil: Node, cnode: Node, right: Node, ghost f: Frame, ghost t: Tree)
    returns (up: Node, done: bool)
    requires cnode == f.n && !f.left
    requires FrameLinked(f, nil) && FrameApart(f, Nodes(t))
    requires Linked(right, t, nil) && Apart(t) && t.T? && !nil.red
    modifies FrameNodes(f) + Nodes(t)
    ensures done <==> InsertStep(f, t).Done?
    ensures done ==> up == f.n
    ensures Linked(up, InsertStep(f, t).t, nil)
  {
    up := cnode;
    cnode.right := right;
    if !right.red {
      return up, true;
    }
    var left := cnode.left;
    if left.red {
      // Split 4-node.
      left.red, right.red, cnode.red := false, false, true;
    } else {
      // Lean left.
      var tred := cnode.red;
      up := cnode.right;
      cnode.right := up.left;
      up.left := cnode;
      up.red := tred;
      cnode.red := true;
    }
    done := false;
  }

  ghost function RotatedRight(t: Tree): Tree
    requires t.T? && t.l.T?
  {
    T(t.l.l, t.l.n, t.l.red, T(t.l.r, t.n, t.red, t.r))
  }

  ghost function RotatedLeft(t: Tree): Tree
    requires t.T? && t.r.T?
  {
    T(T(t.l, t.n, t.red, t.r.l), t.r.n, t.r.red, t.r.r)
  }

  lemma RotatedApart(t: Tree)
    requires t.T? && Apart(t)
    ensures t.l.T? ==> Apart(RotatedRight(t)) && Nodes(RotatedRight(t)) == Nodes(t)
    ensures t.r.T? ==> Apart(RotatedLeft(t)) && Nodes(RotatedLeft(t)) == Nodes(t)
  {
  }

  /** `t` with the colour of node `x` changed. */
  ghost function Repaint(t: Tree, x: Node, red: bool): Tree {
    match t
    case Nil => Nil
    case T(l, n, c, r) => T(Repaint(l, x, red), n, if n == x then red else c, Repaint(r, x, red))
  }

  lemma RepaintSkips(t: Tree, x: Node, red: bool)
    requires x !in Nodes(t)
    ensures Repaint(t, x, red) == t
  {
  }

  lemma RepaintNodes(t: Tree, x: Node, red: bool)
    ensures Nodes(Repaint(t, x, red)) == Nodes(t)
    ensures Apart(t) ==> Apart(Repaint(t, x, red))
  {
  }

  /** Where the repainted node is: at the root, or on one side. */
  lemma RepaintAt(t: Tree, x: Node, red: bool)
    requires t.T? && Apart(t)
    ensures x == t.n ==> Repaint(t, x, red) == Paint(t, red)
    ensures x in Nodes(t.l) ==> Repaint(t, x, red) == t.(l := Repaint(t.l, x, red))
    ensures x in Nodes(t.r) ==> Repaint(t, x, red) == t.(r := Repaint(t.r, x, red))
  {
    if x !in Nodes(t.l) { RepaintSkips(t.l, x, red); }
    if x !in Nodes(t.r) { RepaintSkips(t.r, x, red); }
  }

  /** `Linked` without a look at the colour of `x`. */
  ghost predicate LinkedExcept(p: Node, t: Tree, x: Node, nil: Node)
    reads Nodes(t)`left, Nodes(t)`right, (Nodes(t) - {x})`red
  {
    match t
    case Nil => p == nil
    case T(l, n, red, r) =>
      && p == n && n != nil && (n != x ==> n.red == red)
      && LinkedExcept(n.left, l, x, nil) && LinkedExcept(n.right, r, x, nil)
  }

  lemma LinkedForget(p: Node, t: Tree, x: Node, nil: Node)
    requires Linked(p, t, nil)
    ensures LinkedExcept(p, t, x, nil)
  {
  }

  lemma LinkedRepaint(p: Node, t: Tree, x: Node, nil: Node)
    requires LinkedExcept(p, t, x, nil)
    ensures Linked(p, Repaint(t, x, x.red), nil)
  {
    if t.T? {
      RepaintNodes(t.l, x, x.red);
      RepaintNodes(t.r, x, x.red);
    }
  }

  method Recolor(nil: Node, x: Node, red: bool, ghost a: Node, ghost t: Tree) returns (ghost t': Tree)
    requires Linked(a, t, nil) && Apart(t) && x in Nodes(t)
    modifies x
    ensures t' == Repaint(t, x, red)
    ensures Linked(a, t', nil) && Apart(t') && Nodes(t') == Nodes(t)
  {
    LinkedForget(a, t, x, nil);
    x.red := red;
    LinkedRepaint(a, t, x, nil);
    RepaintNodes(t, x, red);
    t' := Repaint(t, x, red);
  }

  method RotateRight(nil: Node, a: Node, ghost t: Tree) returns (r: Node)
    requires Linked(a, t, nil) && Apart(t) && t.T? && t.l.T?
    modifies a, a.left
    ensures r == old(a.left)
    ensures Linked(r, RotatedRight(t), nil) && Apart(RotatedRight(t)) && Nodes(RotatedRight(t)) == Nodes(t)
  {
    Unfold(a, t, nil);
    Unfold(a.left, t.l, nil);
    RotatedApart(t);
    r := a.left;
    a.left := r.right;
    r.right := a;
    assert Linked(a, T(t.l.r, t.n, t.red, t.r), nil);
  }

  method RotateLeft(nil: Node, a: Node, ghost t: Tree) returns (r: Node)
    requires Linked(a, t, nil) && Apart(t) && t.T? && t.r.T?
    modifies a, a.right
    ensures Linked(r, RotatedLeft(t), nil) && Apart(RotatedLeft(t)) && Nodes(RotatedLeft(t)) == Nodes(t)
  {
    Unfold(a, t, nil);
    Unfold(a.right, t.r, nil);
    RotatedApart(t);
    r := a.right;
    a.right := r.left;
    r.left := a;
    assert Linked(a, T(t.l, t.n, t.red, t.r.l), nil);
  }

  /** Rotates the right child of `a` right and hangs the result back. */
  method RotateRightBelow(nil: Node, a: Node, ghost t: Tree)
    requires Linked(a, t, nil) && Apart(t) && t.T? && t.r.T? && t.r.l.T?
    modifies a, a.right, a.right.left
    ensures var u := t.(r := RotatedRight(t.r)); Linked(a, u, nil) && Apart(u) && Nodes(u) == Nodes(t)
  {
    Unfold(a, t, nil);
    Unfold(a.right, t.r, nil);
    Unfold(a.right.left, t.r.l, nil);
    RotatedApart(t.r);
    var b := a.right;
    var tnode := b.left;
    b.left := tnode.right;
    tnode.right := b;
    a.right := tnode;
    assert Linked(b, T(t.r.l.r, t.r.n, t.r.red, t.r.r), nil);
  }

  /** One iteration of the remove unwind: `child` lost one black node. */
  method RemoveStepLinks(nil: Node, pnode: Node, left: bool, child: Node, ghost f: Frame, ghost t: Tree)
    returns (up: Node, done: bool)
    requires pnode == f.n && left == f.left
    requires f.sib.T? && (!f.left && Red(f.sib) ==> f.sib.r.T?)
    requires FrameLinked(f, nil) && FrameApart(f, Nodes(t))
    requires Linked(child, t, nil) && Apart(t) && !nil.red
    modifies FrameNodes(f) + Nodes(t)
    ensures done <==> RemoveStep(f, t).Done?
    ensures Linked(up, RemoveStep(f, t).t, nil)
  {
    if left {
      pnode.left := child;
      up, done := RemoveStepLeftLinks(nil, pnode, f, t);
    } else {
      pnode.right := child;
      if pnode.left.red {
        up := RemoveStepRightRed(nil, pnode, f, t);
        done := true;
      } else {
        up, done := RemoveStepRightBlack(nil, pnode, f, t);
      }
    }
  }

  method RemoveStepLeftLinks(nil: Node, pnode: Node, ghost f: Frame, ghost t: Tree)
    returns (up: Node, done: bool)
    requires f.left && f.sib.T?
    requires Linked(pnode, Join(f, t), nil) && Apart(Join(f, t)) && !nil.red
    modifies Nodes(Join(f, t))
    ensures done <==> RemoveStep(f, t).Done?
    ensures Linked(up, RemoveStep(f, t).t, nil)
  {
    ghost var s, j := f.sib, Join(f, t);
    Unfold(pnode, j, nil);
    Unfold(pnode.right, s, nil);
    var right := pnode.right;
    var rightleft := right.left;
    if rightleft.red {
      if pnode.red {
        j := Recolor(nil, pnode, false, pnode, j);
      } else {
        j := Recolor(nil, rightleft, false, pnode, j);
      }
      PaintedLeft(f, t);
      RotateRightBelow(nil, pnode, j);
      up := RotateLeft(nil, pnode, j.(r := RotatedRight(j.r)));
      done := true;
    } else if pnode.red {
      up := RotateLeft(nil, pnode, j);
      done := true;
    } else {
      j := Recolor(nil, pnode, true, pnode, j);
      RepaintAt(Join(f, t), f.n, true);
      up := RotateLeft(nil, pnode, j);
      done := false;
    }
  }

  lemma PaintedLeft(f: Frame, t: Tree)
    requires f.left && f.sib.T? && f.sib.l.T? && Apart(Join(f, t)) && f.sib.l.red
    ensures f.red ==> Repaint(Join(f, t), f.n, false) == T(t, f.n, false, f.sib)
    ensures Repaint(Join(f, t), f.sib.l.n, false) == T(t, f.n, f.red, f.sib.(l := Paint(f.sib.l, false)))
  {
    var s := f.sib;
    RepaintAt(Join(f, t), f.n, false);
    RepaintAt(Join(f, t), s.l.n, false);
    RepaintAt(s, s.l.n, false);
    RepaintAt(s.l, s.l.n, false);
  }

  method RemoveStepRightRed(nil: Node, pnode: Node, ghost f: Frame, ghost t: Tree) returns (tnode: Node)
    requires !f.left && Red(f.sib) && f.sib.r.T?
    requires Linked(pnode, Join(f, t), nil) && Apart(Join(f, t)) && !nil.red
    modifies Nodes(Join(f, t))
    ensures Linked(tnode, RemoveStep(f, t).t, nil)
  {
    ghost var s, j := f.sib, Join(f, t);
    Unfold(pnode, j, nil);
    Unfold(pnode.left, s, nil);
    Unfold(s.n.right, s.r, nil);
    var left := pnode.left;
    var leftright := left.right;
    var leftrightleft := leftright.left;
    PaintedRightRed(f, t);
    if leftrightleft.red {
      j := Recolor(nil, leftrightleft, false, pnode, j);
      var unode := RotateRight(nil, pnode, j);
      tnode := RotateBelowThenLeft(nil, unode, RotatedRight(j));
    } else {
      j := Recolor(nil, leftright, true, pnode, j);
      tnode := RotateRight(nil, pnode, j);
      j := Recolor(nil, tnode, false, tnode, RotatedRight(j));
      RepaintAt(RotatedRight(T(s.(r := Paint(s.r, true)), f.n, f.red, t)), s.n, false);
    }
  }

  /** The last two of the three rotations around a red-red sibling. */
  method RotateBelowThenLeft(nil: Node, unode: Node, ghost j: Tree) returns (tnode: Node)
    requires Linked(unode, j, nil) && Apart(j) && j.T? && j.r.T? && j.r.l.T?
    modifies Nodes(j)
    ensures Linked(tnode, RotatedLeft(j.(r := RotatedRight(j.r))), nil)
  {
    Unfold(unode, j, nil);
    Unfold(unode.right, j.r, nil);
    Unfold(unode.right.left, j.r.l, nil);
    RotateRightBelow(nil, unode, j);
    ghost var k := j.(r := RotatedRight(j.r));
    Unfold(unode, k, nil);
    tnode := RotateLeft(nil, unode, k);
  }

  lemma PaintedRightRed(f: Frame, t: Tree)
    requires !f.left && Red(f.sib) && f.sib.r.T? && Apart(Join(f, t))
    ensures Repaint(Join(f, t), f.sib.r.n, true) == T(f.sib.(r := Paint(f.sib.r, true)), f.n, f.red, t)
    ensures f.sib.r.l.T? ==>
      Repaint(Join(f, t), f.sib.r.l.n, false) == T(f.sib.(r := f.sib.r.(l := Paint(f.sib.r.l, false))), f.n, f.red, t)
  {
    var s := f.sib;
    RepaintAt(Join(f, t), s.r.n, true);
    RepaintAt(s, s.r.n, true);
    RepaintAt(s.r, s.r.n, true);
    if s.r.l.T? {
      RepaintAt(Join(f, t), s.r.l.n, false);
      RepaintAt(s, s.r.l.n, false);
      RepaintAt(s.r, s.r.l.n, false);
      RepaintAt(s.r.l, s.r.l.n, false);
    }
  }

  method RemoveStepRightBlack(nil: Node, pnode: Node, ghost f: Frame, ghost t: Tree) returns (up: Node, done: bool)
    requires !f.left && f.sib.T? && !Red(f.sib)
    requires Linked(pnode, Join(f, t), nil) && Apart(Join(f, t)) && !nil.red
    modifies Nodes(Join(f, t))
    ensures done <==> RemoveStep(f, t).Done?
    ensures Linked(up, RemoveStep(f, t).t, nil)
  {
    ghost var s, j := f.sib, Join(f, t);
    Unfold(pnode, j, nil);
    Unfold(pnode.left, s, nil);
    var left := pnode.left;
    var leftleft := left.left;
    if leftleft.red {
      if pnode.red {
        j := Recolor(nil, pnode, false, pnode, j);
        j := Recolor(nil, left, true, pnode, j);
      }
      PaintedRightBlack(f, t, j);
      j := Recolor(nil, leftleft, false, pnode, j);
      up := RotateRight(nil, pnode, j);
      done := true;
    } else if pnode.red {
      j := Recolor(nil, left, true, pnode, j);
      j := Recolor(nil, pnode, false, pnode, j);
      PaintedSibling(f, t);
      up, done := pnode, true;
    } else {
      j := Recolor(nil, left, true, pnode, j);
      PaintedSibling(f, t);
      up, done := pnode, false;
    }
  }

  lemma PaintedSibling(f: Frame, t: Tree)
    requires !f.left && f.sib.T? && Apart(Join(f, t))
    ensures var j := Repaint(Join(f, t), f.sib.n, true);
            && j == T(Paint(f.sib, true), f.n, f.red, t)
            && Repaint(j, f.n, false) == T(Paint(f.sib, true), f.n, false, t)
  {
    RepaintAt(Join(f, t), f.sib.n, true);
    RepaintAt(f.sib, f.sib.n, true);
    PaintNodes(f.sib, true);
    RepaintAt(T(Paint(f.sib, true), f.n, f.red, t), f.n, false);
  }

  lemma PaintedRightBlack(f: Frame, t: Tree, j: Tree)
    requires !f.left && f.sib.T? && !f.sib.red && Red(f.sib.l) && Apart(Join(f, t))
    requires j == if f.red then Repaint(Repaint(Join(f, t), f.n, false), f.sib.n, true) else Join(f, t)
    ensures Repaint(j, f.sib.l.n, false) == T(T(Paint(f.sib.l, false), f.sib.n, f.red, f.sib.r), f.n, false, t)
  {
    var s, j0 := f.sib, Join(f, t);
    RepaintAt(j0, f.n, false);
    RepaintAt(s, s.n, true);
    PaintNodes(s, true);
    RepaintAt(T(s, f.n, false, t), s.n, true);
    assert j == T(Paint(s, f.red), f.n, false, t);
    PaintNodes(s, f.red);
    RepaintAt(j, s.l.n, false);
    RepaintAt(Paint(s, f.red), s.l.n, false);
    RepaintAt(s.l, s.l.n, false);
  }

  // ----- the path array -----

  /** One element of the path array. */
  datatype Entry = Entry(node: Node, cmp: int)

  /** Length of the path array: 16 entries per byte of a pointer. */
  const PATH_MAX := 128

  function Cmp(a: Node, b: Node): int {
    if a.key < b.key then -1 else if a.key > b.key then 1 else 0
  }

  ghost predicate Matches(path: seq<Entry>, ctx: seq<Frame>) {
    |path| == |ctx| && forall j :: 0 <= j < |path| ==> path[j].node == ctx[j].n && (path[j].cmp < 0 <==> ctx[j].left)
  }

  // ----- the swap of a node with its successor -----

  lemma RemoveNodes(whole: Tree, ctx0: seq<Frame>, sub: Tree, spine: seq<Frame>)
    requires RedBlack(whole) && Sorted(Inorder(whole)) && Found(whole, ctx0, sub, spine)
    ensures var t := RemoveResult(whole, ctx0, sub, spine);
            Nodes(t) == Nodes(whole) - {sub.n} && Apart(t) && |Inorder(t)| + 1 == |Inorder(whole)|
  {
    RemoveCorrect(whole, ctx0, sub, spine);
    var t := RemoveResult(whole, ctx0, sub, spine);
    SortedApart(t);
    AddsNodes(t, sub.n, whole);
  }

  lemma SwappedMatches(path: seq<Entry>, nodep: nat, ctx0: seq<Frame>, sub: Tree, spine: seq<Frame>)
    requires sub.T? && spine != [] && nodep == |ctx0|
    requires Matches(path, ctx0 + [Step(sub, false)] + spine)
    ensures nodep < |path| - 1 == |Swapped(ctx0, sub, spine)|
    ensures Matches(path[nodep := Entry(Lowest(spine).n, path[nodep].cmp)][..|path| - 1], Swapped(ctx0, sub, spine))
  {
    var c := ctx0 + [Step(sub, false)] + spine;
    var c' := Swapped(ctx0, sub, spine);
    assert c[nodep] == Step(sub, false);
    assert forall j :: 0 <= j < |c'| && j != nodep ==> c'[j] == c[j];
  }

  /** The nodes around `sub.n` and its successor, part by part. */
  lemma SwapPiecesApart(ctx0: seq<Frame>, sub: Tree, spine: seq<Frame>, whole: Tree)
    requires sub.T? && spine != [] && Lowest(spine).sib == Nil
    requires Plug(ctx0 + [Step(sub, false)] + spine, Nil) == whole && Apart(whole)
    ensures var succ := Lowest(spine).n; var rest := PathNodes(Upper(spine)); var f := Step(sub, false);
            && PathApart(Upper(spine), {}) && FrameApart(f, rest + {succ})
            && PathApart(ctx0, rest + {succ} + FrameNodes(f))
            && PathNodes(ctx0) + FrameNodes(f) + rest + {succ} == Nodes(whole)
            && succ !in rest && PathNodes(ctx0) !! rest + {succ} + FrameNodes(f)
  {
    var f, last := Step(sub, false), Lowest(spine);
    var c := ctx0 + [f] + spine;
    PlugApart(c, Nil);
    assert Upper(c) == ctx0 + [f] + Upper(spine) && Lowest(c) == last;
    assert {} + FrameNodes(last) == {last.n};
    PathApartAround(ctx0, f, Upper(spine), {last.n});
    PathApartDisjoint(Upper(spine), {last.n});
    PathApartShrinks(Upper(spine), {last.n}, {});
    PathApartDisjoint(ctx0, {last.n} + PathNodes(Upper(spine)) + FrameNodes(f));
    assert {last.n} + PathNodes(Upper(spine)) == PathNodes(Upper(spine)) + {last.n};
  }

  /** The links around `sub.n` and its successor, part by part. */
  lemma SwapPiecesLinked(ctx0: seq<Frame>, sub: Tree, spine: seq<Frame>, nil: Node)
    requires sub.T? && spine != [] && AllLeft(spine)
    requires PathLinked(ctx0 + [Step(sub, false)] + spine, nil, nil)
    ensures var succ := Lowest(spine).n;
            && FrameLinked(Step(sub, false), nil) && FrameLinked(Lowest(spine), nil)
            && sub.n.right == Top(Upper(spine), succ)
            && PathLinked(Upper(spine), succ, nil) && PathLinked(ctx0, sub.n, nil)
  {
    var f := Step(sub, false);
    PathLinkedAppend(ctx0 + [f], spine, nil, nil);
    PathLinkedAppend(ctx0, [f], Top(spine, nil), nil);
    assert Upper([f]) == [] && Lowest([f]) == f;
  }

  /** The reverse of `SwapPiecesLinked`, for the swapped path. */
  lemma SwappedLinked(ctx0: seq<Frame>, sub: Tree, spine: seq<Frame>, nil: Node)
    requires sub.T? && spine != []
    requires var succ := Lowest(spine).n; var g := Step(sub, false).(n := succ);
             && FrameLinked(g, nil) && succ.right == Top(Upper(spine), succ)
             && PathLinked(Upper(spine), succ, nil) && PathLinked(ctx0, succ, nil)
    ensures PathLinked(Swapped(ctx0, sub, spine), Lowest(spine).n, nil)
  {
    var succ := Lowest(spine).n;
    var g := Step(sub, false).(n := succ);
    assert Upper([g]) == [] && Lowest([g]) == g;
    PathLinkedAppend(ctx0 + [g], Upper(spine), succ, nil);
    PathLinkedAppend(ctx0, [g], Top(Upper(spine), succ), nil);
  }

  /** The swapped path is apart and holds every node but `sub.n`. */
  lemma SwappedApart(ctx0: seq<Frame>, sub: Tree, spine: seq<Frame>, whole: Tree)
    requires sub.T? && spine != [] && Lowest(spine).sib == Nil
    requires Plug(ctx0 + [Step(sub, false)] + spine, Nil) == whole && Apart(whole)
    ensures PathApart(Swapped(ctx0, sub, spine), {})
    ensures PathNodes(Swapped(ctx0, sub, spine)) == Nodes(whole) - {sub.n}
  {
    var f, succ := Step(sub, false), Lowest(spine).n;
    var g := f.(n := succ);
    var rest := PathNodes(Upper(spine));
    SwapPiecesApart(ctx0, sub, spine, whole);
    PathApartShrinks(ctx0, rest + {succ} + FrameNodes(f), {} + rest + FrameNodes(g));
    assert {} + rest == rest;
    PathApartAround(ctx0, g, Upper(spine), {});
  }

  /** What insert turns the tree value into. */
  lemma InsertResult(tree: Tree, ctx: seq<Frame>, node: Node, t: Tree)
    requires RedBlack(tree) && Sorted(Inorder(tree)) && Apart(tree)
    requires Focus(tree, ctx, Nil, 0, false) && node !in Nodes(tree)
    requires AllBelow(Before(ctx), node.key) && AllAbove(After(ctx), node.key)
    requires t == InsertUnwind(ctx, T(Nil, node, true, Nil))
    ensures Nodes(t) == Nodes(tree) + {node} && Apart(t)
    ensures RedBlack(t) && Sorted(Inorder(t)) && Adds(Inorder(tree), node, Inorder(t))
    ensures |Inorder(t)| == |Inorder(tree)| + 1
  {
    InsertCorrect(tree, ctx, node);
    SortedApart(t);
    AddsNodes(tree, node, t);
  }
}
