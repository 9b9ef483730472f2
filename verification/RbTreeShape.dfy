/** Left-leaning 2-3 red-black trees as values: the shape invariants and one
    unwind iteration of insert and of remove (rb.h).

    A tree value mirrors the nodes linked in memory, so that it also says
    which node sits where.  A path from the root is a sequence of frames, one
    for each entry of the path array that rb.h keeps. */
module RbTreeShape {

  /** A tree node.  The ordering key never changes; links and colour do. */
  class Node {
    var left: Node
    var right: Node
    var red: bool
    const key: int

    /** A node linked to itself; `red` is its colour. */
    constructor (key: int, red: bool)
      ensures this.key == key && this.red == red && left == this && right == this
    {
      this.key, this.red := key, red;
      left, right := this, this;
    }
  }

  datatype Tree = Nil | T(l: Tree, n: Node, red: bool, r: Tree)

  /** One step from a node towards a child: the node, its colour, the side
      taken, and the subtree on the other side. */
  datatype Frame = Frame(n: Node, red: bool, left: bool, sib: Tree)

  /** One unwind iteration either stops (`Done`, balance restored) or carries
      on to the next path entry (`Cont`). */
  datatype Up = Done(t: Tree) | Cont(t: Tree)

  ghost predicate Red(t: Tree) { t.T? && t.red }

  ghost function Paint(t: Tree, red: bool): Tree
    requires t.T?
  {
    t.(red := red)
  }

  ghost function Join(f: Frame, t: Tree): Tree {
    if f.left then T(t, f.n, f.red, f.sib) else T(f.sib, f.n, f.red, t)
  }

  /** The nodes of a tree from left to right. */
  ghost function Inorder(t: Tree): seq<Node> {
    match t
    case Nil => []
    case T(l, n, _, r) => Inorder(l) + [n] + Inorder(r)
  }

  /** Red links lean left, no two red links follow each other, and every path
      to a leaf crosses `h` black nodes. */
  ghost predicate Balanced(t: Tree, h: int) {
    match t
    case Nil => h == 0
    case T(l, _, red, r) =>
      && !Red(r)
      && (red ==> !Red(l))
      && (var k := if red then h else h - 1; k >= 0 && Balanced(l, k) && Balanced(r, k))
  }

  /** What insert carries upwards: a balanced tree, or a red root whose left
      child is red too and which is balanced otherwise. */
  ghost predicate InsertPending(t: Tree, h: int) {
    Balanced(t, h) || (t.T? && t.red && Red(t.l) && !Red(t.r) && Balanced(t.l, h) && Balanced(t.r, h))
  }

  /** A frame fits above a hole of black height `h`; `mayRed` says whether the
      hole may hold a red root. */
  ghost predicate FrameOk(f: Frame, h: int, mayRed: bool) {
    && h >= 0
    && Balanced(f.sib, h)
    && (f.left ==> !Red(f.sib))
    && (f.red ==> !Red(f.sib))
    && (mayRed ==> f.left && !f.red)
  }

  ghost function FrameHeight(f: Frame, h: int): int {
    if f.red then h else h + 1
  }

  ghost function FrameOrder(f: Frame, mid: seq<Node>): seq<Node> {
    if f.left then mid + ([f.n] + Inorder(f.sib)) else Inorder(f.sib) + [f.n] + mid
  }

  /** One unwind iteration of insert (rb.h, "Unwind"): `t` is the subtree just
      changed, `f` the path entry above it. */
  ghost function InsertStep(f: Frame, t: Tree): Up {
    if !Red(t) then Done(Join(f, t))
    else if f.left then
      if Red(t.l) then
        // Fix up 4-node: rotate right and blacken the left child.
        Cont(T(Paint(t.l, false), t.n, t.red, T(t.r, f.n, f.red, f.sib)))
      else Cont(Join(f, t))
    else if Red(f.sib) then
      // Split 4-node.
      Cont(T(Paint(f.sib, false), f.n, true, Paint(t, false)))
    else
      // Lean left.
      Cont(T(T(f.sib, f.n, true, t.l), t.n, f.red, t.r))
  }

  /** One unwind iteration of remove: the subtree `t` lost one black node. */
  ghost function RemoveStep(f: Frame, t: Tree): Up
    requires f.left ==> f.sib.T?
    requires !f.left ==> f.sib.T? && (Red(f.sib) ==> f.sib.r.T?)
  {
    if f.left then RemoveStepLeft(f, t) else RemoveStepRight(f, t)
  }

  ghost function RemoveStepLeft(f: Frame, t: Tree): Up
    requires f.sib.T?
  {
    var s := f.sib;
    if Red(s.l) then
      // Rotate the sibling right, then the parent left.
      Done(T(T(t, f.n, false, s.l.l), s.l.n, f.red, T(s.l.r, s.n, s.red, s.r)))
    else if f.red then
      Done(T(T(t, f.n, true, s.l), s.n, s.red, s.r))
    else
      Cont(T(T(t, f.n, true, s.l), s.n, s.red, s.r))
  }

  ghost function RemoveStepRight(f: Frame, t: Tree): Up
    requires f.sib.T? && (Red(f.sib) ==> f.sib.r.T?)
  {
    var s := f.sib;
    if s.red then
      if Red(s.r.l) then
        Done(T(T(s.l, s.n, true, Paint(s.r.l, false)), s.r.n, s.r.red, T(s.r.r, f.n, f.red, t)))
      else
        Done(T(s.l, s.n, false, T(Paint(s.r, true), f.n, f.red, t)))
    else if f.red then
      if Red(s.l) then
        Done(T(Paint(s.l, false), s.n, true, T(s.r, f.n, false, t)))
      else
        Done(T(Paint(s, true), f.n, false, t))
    else if Red(s.l) then
      Done(T(Paint(s.l, false), s.n, s.red, T(s.r, f.n, f.red, t)))
    else
      Cont(T(Paint(s, true), f.n, f.red, t))
  }

  // ----- what one iteration keeps -----

  lemma InorderPaint(t: Tree, red: bool)
    requires t.T?
    ensures Inorder(Paint(t, red)) == Inorder(t)
  {
  }

  lemma InsertStepKeepsOrder(f: Frame, t: Tree)
    ensures Inorder(InsertStep(f, t).t) == FrameOrder(f, Inorder(t))
  {
    assert Inorder(Join(f, t)) == FrameOrder(f, Inorder(t));
    if Red(t) && f.left && Red(t.l) {
      RotateOrder(Paint(t.l, false), t.n, t.red, t.r, f.n, f.red, f.sib, t.red, f.red);
    } else if Red(t) && !f.left && !Red(f.sib) {
      RotateOrder(f.sib, f.n, f.red, t.l, t.n, t.red, t.r, true, f.red);
    }
  }

  /** Rotations only regroup an inorder sequence. */
  lemma RotateOrder(a: Tree, x: Node, xr: bool, b: Tree, y: Node, yr: bool, c: Tree, xr': bool, yr': bool)
    ensures Inorder(T(a, x, xr, T(b, y, yr, c))) == Inorder(T(T(a, x, xr', b), y, yr', c))
  {
  }

  lemma RemoveStepKeepsOrder(f: Frame, t: Tree)
    requires f.sib.T? && (!f.left && Red(f.sib) ==> f.sib.r.T?)
    ensures Inorder(RemoveStep(f, t).t) == FrameOrder(f, Inorder(t))
  {
    assert Inorder(Join(f, t)) == FrameOrder(f, Inorder(t));
    if f.left { RemoveStepLeftKeepsOrder(f, t); } else { RemoveStepRightKeepsOrder(f, t); }
  }

  lemma RemoveStepLeftKeepsOrder(f: Frame, t: Tree)
    requires f.left && f.sib.T?
    ensures Inorder(RemoveStepLeft(f, t).t) == Inorder(Join(f, t))
  {
    var s := f.sib;
    if Red(s.l) {
      RotateOrder(s.l.l, s.l.n, f.red, s.l.r, s.n, s.red, s.r, s.l.red, s.red);
      RotateOrder(t, f.n, f.red, s.l.l, s.l.n, f.red, T(s.l.r, s.n, s.red, s.r), false, f.red);
    } else {
      RotateOrder(t, f.n, f.red, s.l, s.n, s.red, s.r, true, s.red);
    }
  }

  lemma RemoveStepRightKeepsOrder(f: Frame, t: Tree)
    requires !f.left && f.sib.T? && (Red(f.sib) ==> f.sib.r.T?)
    ensures Inorder(RemoveStepRight(f, t).t) == Inorder(Join(f, t))
  {
    var s := f.sib;
    if s.red && Red(s.r.l) {
      var ll := s.r.l;
      InorderPaint(ll, false);
      var right := T(s.r.r, f.n, f.red, t);
      RotateOrder(s.l, s.n, s.red, s.r, f.n, f.red, t, s.red, f.red);
      RotateOrder(ll, s.r.n, s.r.red, s.r.r, f.n, f.red, t, s.r.red, f.red);
      RotateOrder(s.l, s.n, s.red, ll, s.r.n, s.r.red, right, true, s.r.red);
    } else if s.red {
      InorderPaint(s.r, true);
      RotateOrder(s.l, s.n, false, Paint(s.r, true), f.n, f.red, t, s.red, f.red);
    } else if Red(s.l) {
      RotateOrder(s.l, s.n, f.red, s.r, f.n, false, t, s.red, f.red);
    }
  }

  lemma InsertStepBalances(f: Frame, t: Tree, h: int, mayRed: bool)
    requires FrameOk(f, h, mayRed)
    requires InsertPending(t, h)
    requires !Balanced(t, h) ==> mayRed
    ensures var u := InsertStep(f, t);
            && InsertPending(u.t, FrameHeight(f, h))
            && (!Balanced(u.t, FrameHeight(f, h)) ==> f.red)
            && (u.Done? ==> Balanced(u.t, FrameHeight(f, h)) && Red(u.t) == f.red)
  {
  }

  lemma RemoveStepBalances(f: Frame, t: Tree, h: int, mayRed: bool)
    requires FrameOk(f, h, mayRed) && h >= 1
    requires Balanced(t, h - 1) && !Red(t)
    ensures f.sib.T? && (!f.left && Red(f.sib) ==> f.sib.r.T?)
    ensures var u := RemoveStep(f, t); var hh := FrameHeight(f, h);
            if u.Done? then Balanced(u.t, hh) && (Red(u.t) ==> f.red) else Balanced(u.t, hh - 1) && !Red(u.t) && !f.red
  {
    var s := f.sib;
    assert s.T?;
    var k := if s.red then h else h - 1;
    assert Balanced(s.l, k) && Balanced(s.r, k);
    if !f.left && s.red {
      assert s.r.T?;
      assert Balanced(s.r.l, h - 1) && Balanced(s.r.r, h - 1);
    }
  }
}
