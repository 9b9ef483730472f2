/** What insert and remove do to a whole tree (rb.h): the path down, the
    unwind along it, and the proof that the result is again a left-leaning
    red-black tree that holds exactly the nodes it should, in key order. */
module RbTreeSpec {
  import opened PowersOfTwo
  import opened RbTreeShape

  // ----- paths -----

  ghost function Upper(ctx: seq<Frame>): seq<Frame>
    requires ctx != []
  {
    ctx[..|ctx| - 1]
  }

  ghost function Lowest(ctx: seq<Frame>): Frame
    requires ctx != []
  {
    ctx[|ctx| - 1]
  }

  /** The tree with `t` at the end of the path `ctx`. */
  ghost function Plug(ctx: seq<Frame>, t: Tree): Tree {
    if ctx == [] then t else Plug(Upper(ctx), Join(Lowest(ctx), t))
  }

  /** The nodes before and after the end of the path. */
  ghost function Before(ctx: seq<Frame>): seq<Node> {
    if ctx == [] then []
    else Before(Upper(ctx)) + if Lowest(ctx).left then [] else Inorder(Lowest(ctx).sib) + [Lowest(ctx).n]
  }

  ghost function After(ctx: seq<Frame>): seq<Node> {
    if ctx == [] then []
    else (if Lowest(ctx).left then [Lowest(ctx).n] + Inorder(Lowest(ctx).sib) else []) + After(Upper(ctx))
  }

  /** The path surrounds a hole of black height `h`; `mayRed` says whether the
      hole may hold a red root.  The root of the whole tree must be black. */
  ghost predicate PathOk(ctx: seq<Frame>, h: int, mayRed: bool) {
    if ctx == [] then !mayRed
    else FrameOk(Lowest(ctx), h, mayRed) && PathOk(Upper(ctx), FrameHeight(Lowest(ctx), h), Lowest(ctx).red)
  }

  lemma RegroupLeft(b: seq<Node>, mid: seq<Node>, tail: seq<Node>, a: seq<Node>)
    ensures (b + []) + mid + (tail + a) == b + (mid + tail) + a
  {
  }

  lemma RegroupRight(b: seq<Node>, head: seq<Node>, mid: seq<Node>, a: seq<Node>)
    ensures (b + head) + mid + ([] + a) == b + (head + mid) + a
  {
  }

  lemma Assoc(a: seq<Node>, b: seq<Node>, c: seq<Node>)
    ensures (a + b) + c == a + (b + c)
  {
  }

  lemma EmptyMiddle(a: seq<Node>, b: seq<Node>)
    ensures a + [] + b == a + b && a + [] == a && [] + b == b
  {
  }

  /** Moving one frame from the path into the middle changes nothing. */
  lemma FrameMoves(ctx: seq<Frame>, mid: seq<Node>)
    requires ctx != []
    ensures Before(ctx) + mid + After(ctx) == Before(Upper(ctx)) + FrameOrder(Lowest(ctx), mid) + After(Upper(ctx))
  {
    var f, b, a := Lowest(ctx), Before(Upper(ctx)), After(Upper(ctx));
    if f.left {
      var tail := [f.n] + Inorder(f.sib);
      assert Before(ctx) == b + [];
      assert After(ctx) == tail + a;
      RegroupLeft(b, mid, tail, a);
    } else {
      var head := Inorder(f.sib) + [f.n];
      assert Before(ctx) == b + head;
      assert After(ctx) == [] + a;
      RegroupRight(b, head, mid, a);
    }
  }

  lemma {:induction false} PlugOrder(ctx: seq<Frame>, t: Tree)
    ensures Inorder(Plug(ctx, t)) == Before(ctx) + Inorder(t) + After(ctx)
  {
    if ctx != [] {
      PlugOrder(Upper(ctx), Join(Lowest(ctx), t));
      FrameMoves(ctx, Inorder(t));
    }
  }

  // ----- balance of a whole tree -----

  ghost function BlackHeight(t: Tree): nat {
    match t
    case Nil => 0
    case T(l, _, red, _) => BlackHeight(l) + if red then 0 else 1
  }

  /** All shape invariants at once: black root, left-leaning, no consecutive
      red links, equal black height on every path. */
  ghost predicate RedBlack(t: Tree) {
    !Red(t) && Balanced(t, BlackHeight(t))
  }

  lemma BalancedHeight(t: Tree, h: int)
    requires Balanced(t, h)
    ensures h == BlackHeight(t)
  {
  }

  lemma {:induction false} PlugBalances(ctx: seq<Frame>, t: Tree, h: int, mayRed: bool)
    requires PathOk(ctx, h, mayRed) && Balanced(t, h) && (Red(t) ==> mayRed)
    ensures RedBlack(Plug(ctx, t))
  {
    if ctx == [] {
      BalancedHeight(t, h);
    } else {
      var f := Lowest(ctx);
      PlugBalances(Upper(ctx), Join(f, t), FrameHeight(f, h), f.red);
    }
  }

  /** A hole that may hold a red root may as well hold a black one. */
  lemma PathOkBlack(ctx: seq<Frame>, h: int, mayRed: bool)
    requires PathOk(ctx, h, mayRed)
    ensures PathOk(ctx, h, false)
  {
  }

  // ----- unwinding -----

  ghost function InsertUnwind(ctx: seq<Frame>, t: Tree): Tree
    requires t.T?
  {
    if ctx == [] then Paint(t, false)
    else match InsertStep(Lowest(ctx), t)
         case Done(u) => Plug(Upper(ctx), u)
         case Cont(u) => InsertUnwind(Upper(ctx), u)
  }

  lemma {:induction false} InsertUnwindOrder(ctx: seq<Frame>, t: Tree)
    requires t.T?
    ensures Inorder(InsertUnwind(ctx, t)) == Before(ctx) + Inorder(t) + After(ctx)
  {
    if ctx != [] {
      var u := InsertStep(Lowest(ctx), t);
      InsertStepKeepsOrder(Lowest(ctx), t);
      FrameMoves(ctx, Inorder(t));
      if u.Done? { PlugOrder(Upper(ctx), u.t); } else { InsertUnwindOrder(Upper(ctx), u.t); }
    }
  }

  lemma {:induction false} InsertUnwindBalances(ctx: seq<Frame>, t: Tree, h: int, mayRed: bool)
    requires PathOk(ctx, h, mayRed) && t.T?
    requires InsertPending(t, h) && (!Balanced(t, h) ==> mayRed)
    ensures RedBlack(InsertUnwind(ctx, t))
  {
    if ctx == [] {
      BalancedHeight(Paint(t, false), if t.red then h + 1 else h);
    } else {
      var f := Lowest(ctx);
      InsertStepBalances(f, t, h, mayRed);
      var u := InsertStep(f, t);
      if u.Done? {
        PlugBalances(Upper(ctx), u.t, FrameHeight(f, h), f.red);
      } else {
        InsertUnwindBalances(Upper(ctx), u.t, FrameHeight(f, h), f.red);
      }
    }
  }

  ghost function RemoveUnwind(ctx: seq<Frame>, t: Tree, h: int): Tree
    requires PathOk(ctx, h, false) && h >= 1 && Balanced(t, h - 1) && !Red(t)
    decreases |ctx|
  {
    if ctx == [] then t
    else
      RemoveStepBalances(Lowest(ctx), t, h, false);
      match RemoveStep(Lowest(ctx), t)
      case Done(u) => Plug(Upper(ctx), u)
      case Cont(u) => RemoveUnwind(Upper(ctx), u, FrameHeight(Lowest(ctx), h))
  }

  lemma {:induction false} RemoveUnwindOrder(ctx: seq<Frame>, t: Tree, h: int)
    requires PathOk(ctx, h, false) && h >= 1 && Balanced(t, h - 1) && !Red(t)
    ensures Inorder(RemoveUnwind(ctx, t, h)) == Before(ctx) + Inorder(t) + After(ctx)
    decreases |ctx|
  {
    if ctx != [] {
      RemoveStepBalances(Lowest(ctx), t, h, false);
      RemoveStepKeepsOrder(Lowest(ctx), t);
      FrameMoves(ctx, Inorder(t));
      var u := RemoveStep(Lowest(ctx), t);
      if u.Done? { PlugOrder(Upper(ctx), u.t); } else { RemoveUnwindOrder(Upper(ctx), u.t, FrameHeight(Lowest(ctx), h)); }
    }
  }

  lemma {:induction false} RemoveUnwindBalances(ctx: seq<Frame>, t: Tree, h: int)
    requires PathOk(ctx, h, false) && h >= 1 && Balanced(t, h - 1) && !Red(t)
    ensures RedBlack(RemoveUnwind(ctx, t, h))
    decreases |ctx|
  {
    if ctx == [] {
      BalancedHeight(t, h - 1);
    } else {
      var f := Lowest(ctx);
      RemoveStepBalances(f, t, h, false);
      var u := RemoveStep(f, t);
      if u.Done? {
        PlugBalances(Upper(ctx), u.t, FrameHeight(f, h), f.red);
      } else {
        RemoveUnwindBalances(Upper(ctx), u.t, FrameHeight(f, h));
      }
    }
  }

  // ----- key order -----

  ghost predicate Sorted(s: seq<Node>) {
    forall i, j :: 0 <= i < j < |s| ==> s[i].key < s[j].key
  }

  ghost predicate AllBelow(s: seq<Node>, key: int) {
    forall n :: n in s ==> n.key < key
  }

  ghost predicate AllAbove(s: seq<Node>, key: int) {
    forall n :: n in s ==> n.key > key
  }

  /** `after` is `before` with `n` added at its place. */
  ghost predicate Adds(before: seq<Node>, n: Node, after: seq<Node>) {
    exists i :: 0 <= i <= |before| && after == before[..i] + [n] + before[i..]
  }

  // ----- going down -----

  ghost function Step(t: Tree, left: bool): Frame
    requires t.T?
  {
    Frame(t.n, t.red, left, if left then t.r else t.l)
  }

  ghost function Child(t: Tree, left: bool): Tree
    requires t.T?
  {
    if left then t.l else t.r
  }

  /** `t` is the subtree of `whole` at the end of the path, and the path
      surrounds it as the shape invariants demand. */
  ghost predicate Focus(whole: Tree, ctx: seq<Frame>, t: Tree, h: int, mayRed: bool) {
    && Plug(ctx, t) == whole
    && PathOk(ctx, h, mayRed)
    && Balanced(t, h)
    && (Red(t) ==> mayRed)
  }

  lemma FocusRoot(whole: Tree)
    requires RedBlack(whole)
    ensures Focus(whole, [], whole, BlackHeight(whole), false)
  {
  }

  lemma FocusDown(whole: Tree, ctx: seq<Frame>, t: Tree, h: int, mayRed: bool, left: bool)
    requires Focus(whole, ctx, t, h, mayRed) && t.T?
    ensures var f := Step(t, left);
            && Upper(ctx + [f]) == ctx && Lowest(ctx + [f]) == f
            && Focus(whole, ctx + [f], Child(t, left), if t.red then h else h - 1, left && !t.red)
            && Before(ctx + [f]) == Before(ctx) + (if left then [] else Inorder(t.l) + [t.n])
            && After(ctx + [f]) == (if left then [t.n] + Inorder(t.r) else []) + After(ctx)
  {
    var f := Step(t, left);
    assert Upper(ctx + [f]) == ctx && Lowest(ctx + [f]) == f;
    assert Join(f, Child(t, left)) == t;
    assert PathOk(ctx + [f], if t.red then h else h - 1, left && !t.red);
  }

  lemma SortedMiddle(b: seq<Node>, l: seq<Node>, n: Node, r: seq<Node>, a: seq<Node>)
    requires Sorted(b + (l + [n] + r) + a)
    ensures AllBelow(l, n.key) && AllAbove(r, n.key)
  {
    var s := b + (l + [n] + r) + a;
    var k := |b| + |l|;
    assert s[k] == n;
    forall i | 0 <= i < |l| ensures l[i].key < n.key {
      assert s[|b| + i] == l[i];
    }
    forall i | 0 <= i < |r| ensures r[i].key > n.key {
      assert s[k + 1 + i] == r[i];
    }
  }

  /** In a sorted tree a subtree is sorted around its root. */
  lemma SubtreeSorted(whole: Tree, ctx: seq<Frame>, t: Tree)
    requires Sorted(Inorder(whole)) && Plug(ctx, t) == whole && t.T?
    ensures AllBelow(Inorder(t.l), t.n.key) && AllAbove(Inorder(t.r), t.n.key)
  {
    PlugOrder(ctx, t);
    SortedMiddle(Before(ctx), Inorder(t.l), t.n, Inorder(t.r), After(ctx));
  }

  /** Going down past `t` towards `key` keeps `key` between the two sides. */
  lemma FocusDownKey(whole: Tree, ctx: seq<Frame>, t: Tree, left: bool, key: int)
    requires Sorted(Inorder(whole)) && Plug(ctx, t) == whole && t.T?
    requires AllBelow(Before(ctx), key) && AllAbove(After(ctx), key)
    requires if left then key < t.n.key else key > t.n.key
    ensures var c := ctx + [Step(t, left)]; AllBelow(Before(c), key) && AllAbove(After(c), key)
  {
    var c := ctx + [Step(t, left)];
    assert Upper(c) == ctx && Lowest(c) == Step(t, left);
    SubtreeSorted(whole, ctx, t);
  }

  // ----- height -----

  ghost function Height(t: Tree): nat {
    match t
    case Nil => 0
    case T(l, _, _, r) => 1 + if Height(l) > Height(r) then Height(l) else Height(r)
  }

  lemma Pow2Monotone(m: nat, n: nat)
    requires m <= n
    ensures Pow2(m) <= Pow2(n)
  {
  }

  /** A balanced tree is at most twice as high as its black height, and holds
      at least 2^h - 1 nodes. */
  lemma {:induction false} BalancedSize(t: Tree, h: nat)
    requires Balanced(t, h)
    ensures Height(t) <= 2 * h + (if Red(t) then 1 else 0)
    ensures |Inorder(t)| + 1 >= Pow2(h)
  {
    if t.T? {
      var k := if t.red then h else h - 1;
      BalancedSize(t.l, k);
      BalancedSize(t.r, k);
    }
  }

  /** Any tree that fits into a 64-bit address space is low enough for the
      128-entry path array: its height is at most 2 * log2(n + 1) < 127. */
  lemma HeightBound(t: Tree)
    requires RedBlack(t)
    requires |Inorder(t)| + 1 < Pow2(64)
    ensures Pow2(BlackHeight(t)) <= |Inorder(t)| + 1
    ensures Height(t) <= 2 * BlackHeight(t) <= 126
  {
    var h := BlackHeight(t);
    BalancedSize(t, h);
    if h >= 64 {
      Pow2Monotone(64, h);
    }
  }

  /** Insert as a whole: unwinding a fresh red leaf from the place where the
      key belongs gives a red-black tree with exactly that node added. */
  lemma InsertCorrect(whole: Tree, ctx: seq<Frame>, n: Node)
    requires RedBlack(whole) && Sorted(Inorder(whole))
    requires Focus(whole, ctx, Nil, 0, false)
    requires AllBelow(Before(ctx), n.key) && AllAbove(After(ctx), n.key)
    ensures var t := InsertUnwind(ctx, T(Nil, n, true, Nil));
            RedBlack(t) && Sorted(Inorder(t)) && Adds(Inorder(whole), n, Inorder(t))
  {
    var leaf := T(Nil, n, true, Nil);
    InsertUnwindBalances(ctx, leaf, 0, false);
    InsertUnwindOrder(ctx, leaf);
    PlugOrder(ctx, Nil);
    LeafOrder(n);
    SortedJoin(Before(ctx), n, After(ctx));
  }

  lemma LeafOrder(n: Node)
    ensures Inorder(T(Nil, n, true, Nil)) == [n]
  {
  }

  lemma SortedJoin(b: seq<Node>, n: Node, a: seq<Node>)
    requires Sorted(b + [] + a) && AllBelow(b, n.key) && AllAbove(a, n.key)
    ensures Sorted(b + [n] + a) && Adds(b + [] + a, n, b + [n] + a)
  {
    var s := b + [] + a;
    assert s[..|b|] == b && s[|b|..] == a;
    forall i, j | 0 <= i < j < |b + [n] + a|
      ensures (b + [n] + a)[i].key < (b + [n] + a)[j].key
    {
      var i', j' := if i < |b| then i else i - 1, if j < |b| then j else j - 1;
      assert i != |b| && j != |b| ==> s[i'].key < s[j'].key;
    }
  }

  // ----- remove -----

  ghost predicate AllLeft(ctx: seq<Frame>) {
    forall i :: 0 <= i < |ctx| ==> ctx[i].left
  }

  lemma {:induction false} BeforeAppend(c: seq<Frame>, b: seq<Frame>)
    ensures Before(c + b) == Before(c) + Before(b)
  {
    if b == [] {
      assert c + b == c;
    } else {
      assert Upper(c + b) == c + Upper(b) && Lowest(c + b) == Lowest(b);
      BeforeAppend(c, Upper(b));
      Assoc(Before(c), Before(Upper(b)), if Lowest(b).left then [] else Inorder(Lowest(b).sib) + [Lowest(b).n]);
    }
  }

  lemma {:induction false} AfterAppend(c: seq<Frame>, b: seq<Frame>)
    ensures After(c + b) == After(b) + After(c)
  {
    if b == [] {
      assert c + b == c;
    } else {
      assert Upper(c + b) == c + Upper(b) && Lowest(c + b) == Lowest(b);
      AfterAppend(c, Upper(b));
      Assoc(if Lowest(b).left then [Lowest(b).n] + Inorder(Lowest(b).sib) else [], After(Upper(b)), After(c));
    }
  }

  lemma {:induction false} BeforeSpine(b: seq<Frame>)
    requires AllLeft(b)
    ensures Before(b) == []
  {
    if b != [] { BeforeSpine(Upper(b)); }
  }

  /** Replacing the node of one frame keeps the path's shape. */
  lemma {:induction false} RenameOk(a: seq<Frame>, f: Frame, b: seq<Frame>, x: Node, h: int, mayRed: bool)
    requires PathOk(a + [f] + b, h, mayRed)
    ensures PathOk(a + [f.(n := x)] + b, h, mayRed)
    decreases |b|
  {
    var c, c' := a + [f] + b, a + [f.(n := x)] + b;
    if b == [] {
      assert Upper(c) == a && Upper(c') == a && Lowest(c) == f && Lowest(c') == f.(n := x);
    } else {
      assert Upper(c) == a + [f] + Upper(b) && Upper(c') == a + [f.(n := x)] + Upper(b) && Lowest(c) == Lowest(b) == Lowest(c');
      RenameOk(a, f, Upper(b), x, FrameHeight(Lowest(b), h), Lowest(b).red);
    }
  }

  /** The path on which the removed node's place is pruned when the node has a
      successor below it: the successor takes over the node's frame. */
  ghost function Swapped(ctx0: seq<Frame>, sub: Tree, spine: seq<Frame>): seq<Frame>
    requires sub.T? && spine != []
  {
    ctx0 + [Step(sub, false).(n := Lowest(spine).n)] + Upper(spine)
  }

  ghost function Pruned(c: seq<Frame>, red: bool): Tree
    requires PathOk(c, if red then 0 else 1, red)
  {
    if red then Plug(c, Nil) else RemoveUnwind(c, Nil, 1)
  }

  /** Where remove ends up going down: `sub` is headed by the node, and
      `spine` leads from its right child to its successor. */
  ghost predicate Found(whole: Tree, ctx0: seq<Frame>, sub: Tree, spine: seq<Frame>) {
    && sub.T? && AllLeft(spine)
    && (exists h, mayRed :: Focus(whole, ctx0, sub, h, mayRed))
    && (exists mayRed :: Focus(whole, ctx0 + [Step(sub, false)] + spine, Nil, 0, mayRed))
  }

  lemma FoundSuccessor(whole: Tree, ctx0: seq<Frame>, sub: Tree, spine: seq<Frame>)
    requires Found(whole, ctx0, sub, spine) && spine != []
    ensures Lowest(spine).sib == Nil
    ensures PathOk(Swapped(ctx0, sub, spine), if Lowest(spine).red then 0 else 1, Lowest(spine).red)
  {
    var c := ctx0 + [Step(sub, false)] + spine;
    assert Lowest(c) == Lowest(spine) && Upper(c) == ctx0 + [Step(sub, false)] + Upper(spine);
    RenameOk(ctx0, Step(sub, false), Upper(spine), Lowest(spine).n, if Lowest(spine).red then 0 else 1, Lowest(spine).red);
  }

  lemma FoundNoSuccessor(whole: Tree, ctx0: seq<Frame>, sub: Tree, spine: seq<Frame>)
    requires Found(whole, ctx0, sub, spine) && spine == []
    ensures sub.r == Nil
    ensures sub.l.T? ==> !sub.red && sub.l.red && sub.l.l == Nil == sub.l.r && PathOk(ctx0, 1, false)
    ensures sub.l == Nil ==> PathOk(ctx0, if sub.red then 0 else 1, sub.red)
  {
    var c := ctx0 + [Step(sub, false)];
    assert c + spine == c && Lowest(c) == Step(sub, false) && Upper(c) == ctx0;
    var h, mayRed :| Focus(whole, ctx0, sub, h, mayRed);
    FocusDown(whole, ctx0, sub, h, mayRed, false);
    PlugInjective(c, sub.r, Nil);
    assert Balanced(sub.l, 0);
    if sub.l.T? {
      assert Balanced(sub.l.l, 0) && Balanced(sub.l.r, 0);
    }
  }

  lemma {:induction false} PlugInjective(ctx: seq<Frame>, t: Tree, u: Tree)
    requires Plug(ctx, t) == Plug(ctx, u)
    ensures t == u
  {
    if ctx != [] { PlugInjective(Upper(ctx), Join(Lowest(ctx), t), Join(Lowest(ctx), u)); }
  }

  /** What remove makes of the tree. */
  ghost function RemoveResult(whole: Tree, ctx0: seq<Frame>, sub: Tree, spine: seq<Frame>): Tree
    requires Found(whole, ctx0, sub, spine)
  {
    if spine != [] then
      FoundSuccessor(whole, ctx0, sub, spine);
      Pruned(Swapped(ctx0, sub, spine), Lowest(spine).red)
    else
      FoundNoSuccessor(whole, ctx0, sub, spine);
      if sub.l.T? then Plug(ctx0, Paint(sub.l, false)) else Pruned(ctx0, sub.red)
  }

  lemma PrunedOk(c: seq<Frame>, red: bool)
    requires PathOk(c, if red then 0 else 1, red)
    ensures RedBlack(Pruned(c, red))
    ensures Inorder(Pruned(c, red)) == Before(c) + After(c)
  {
    if red {
      PlugBalances(c, Nil, 0, red);
      PlugOrder(c, Nil);
    } else {
      RemoveUnwindBalances(c, Nil, 1);
      RemoveUnwindOrder(c, Nil, 1);
    }
    EmptyMiddle(Before(c), After(c));
  }

  lemma RemoveShape(whole: Tree, ctx0: seq<Frame>, sub: Tree, spine: seq<Frame>)
    requires Found(whole, ctx0, sub, spine)
    ensures RedBlack(RemoveResult(whole, ctx0, sub, spine))
  {
    if spine != [] {
      FoundSuccessor(whole, ctx0, sub, spine);
      PrunedOk(Swapped(ctx0, sub, spine), Lowest(spine).red);
    } else {
      FoundNoSuccessor(whole, ctx0, sub, spine);
      if sub.l.T? {
        PlugBalances(ctx0, Paint(sub.l, false), 1, false);
      } else {
        PrunedOk(ctx0, sub.red);
      }
    }
  }

  lemma AddsMiddle(b: seq<Node>, n: Node, a: seq<Node>)
    ensures Adds(b + a, n, b + [n] + a)
  {
    var s := b + a;
    assert s[..|b|] == b && s[|b|..] == a;
  }

  /** The order around the successor, before and after the swap. */
  lemma SwappedOrder(ctx0: seq<Frame>, sub: Tree, spine: seq<Frame>)
    requires sub.T? && AllLeft(spine) && spine != [] && Lowest(spine).sib == Nil
    ensures var b := Before(ctx0) + Inorder(sub.l); var succ := Lowest(spine).n;
            var a := After(Upper(spine)) + After(ctx0); var c := Swapped(ctx0, sub, spine);
            var full := ctx0 + [Step(sub, false)] + spine;
            && Before(c) + After(c) == b + ([succ] + a)
            && Before(full) + After(full) == b + [sub.n] + ([succ] + a)
  {
    var f := Step(sub, false);
    var succ := Lowest(spine).n;
    var g := f.(n := succ);
    var a := After(Upper(spine)) + After(ctx0);
    RightFrameThenSpine(ctx0, f, spine);
    RightFrameThenSpine(ctx0, g, Upper(spine));
    Assoc(Before(ctx0) + Inorder(sub.l), [succ], a);
    Assoc([succ], After(Upper(spine)), After(ctx0));
    assert After(spine) == [succ] + [] + After(Upper(spine));
    EmptyMiddle([succ], After(Upper(spine)));
  }

  lemma RightFrameThenSpine(c: seq<Frame>, f: Frame, b: seq<Frame>)
    requires !f.left && AllLeft(b)
    ensures Before(c + [f] + b) == Before(c) + Inorder(f.sib) + [f.n]
    ensures After(c + [f] + b) == After(b) + After(c)
  {
    BeforeAppend(c + [f], b);
    AfterAppend(c + [f], b);
    BeforeAppend(c, [f]);
    AfterAppend(c, [f]);
    OneFrame(f);
    BeforeSpine(b);
    Assoc(Before(c), Inorder(f.sib), [f.n]);
    EmptyMiddle(Before(c + [f]), After(c));
  }

  lemma OneFrame(f: Frame)
    requires !f.left
    ensures Before([f]) == Inorder(f.sib) + [f.n] && After([f]) == []
  {
    assert Upper([f]) == [];
  }

  /** Remove as a whole: exactly the node goes, and the tree stays a sorted
      left-leaning red-black tree. */
  lemma RemoveCorrect(whole: Tree, ctx0: seq<Frame>, sub: Tree, spine: seq<Frame>)
    requires RedBlack(whole) && Sorted(Inorder(whole)) && Found(whole, ctx0, sub, spine)
    ensures var t := RemoveResult(whole, ctx0, sub, spine);
            RedBlack(t) && Sorted(Inorder(t)) && Adds(Inorder(t), sub.n, Inorder(whole))
  {
    RemoveShape(whole, ctx0, sub, spine);
    RemoveOrder(whole, ctx0, sub, spine);
    SortedWithout(Inorder(RemoveResult(whole, ctx0, sub, spine)), sub.n, Inorder(whole));
  }

  lemma RemoveOrder(whole: Tree, ctx0: seq<Frame>, sub: Tree, spine: seq<Frame>)
    requires Found(whole, ctx0, sub, spine)
    ensures Adds(Inorder(RemoveResult(whole, ctx0, sub, spine)), sub.n, Inorder(whole))
  {
    if spine != [] {
      RemoveOrderSuccessor(whole, ctx0, sub, spine);
    } else {
      RemoveOrderNoSuccessor(whole, ctx0, sub, spine);
    }
  }

  lemma RemoveOrderSuccessor(whole: Tree, ctx0: seq<Frame>, sub: Tree, spine: seq<Frame>)
    requires Found(whole, ctx0, sub, spine) && spine != []
    ensures Adds(Inorder(RemoveResult(whole, ctx0, sub, spine)), sub.n, Inorder(whole))
  {
    var full := ctx0 + [Step(sub, false)] + spine;
    FoundSuccessor(whole, ctx0, sub, spine);
    PrunedOk(Swapped(ctx0, sub, spine), Lowest(spine).red);
    SwappedOrder(ctx0, sub, spine);
    PlugOrder(full, Nil);
    EmptyMiddle(Before(full), After(full));
    AddsMiddle(Before(ctx0) + Inorder(sub.l), sub.n, [Lowest(spine).n] + (After(Upper(spine)) + After(ctx0)));
  }

  lemma RemoveOrderNoSuccessor(whole: Tree, ctx0: seq<Frame>, sub: Tree, spine: seq<Frame>)
    requires Found(whole, ctx0, sub, spine) && spine == []
    ensures Adds(Inorder(RemoveResult(whole, ctx0, sub, spine)), sub.n, Inorder(whole))
  {
    FoundNoSuccessor(whole, ctx0, sub, spine);
    var l := Inorder(sub.l);
    var b, a := Before(ctx0) + l, After(ctx0);
    PlugOrder(ctx0, sub);
    EmptyMiddle(l + [sub.n], a);
    Assoc(Before(ctx0), l, [sub.n]);
    assert Inorder(whole) == b + [sub.n] + a;
    AddsMiddle(b, sub.n, a);
    if sub.l.T? {
      InorderPaint(sub.l, false);
      PlugOrder(ctx0, Paint(sub.l, false));
    } else {
      PrunedOk(ctx0, sub.red);
      EmptyMiddle(Before(ctx0), a);
    }
  }

  lemma SortedWithout(s: seq<Node>, n: Node, whole: seq<Node>)
    requires Adds(s, n, whole) && Sorted(whole)
    ensures Sorted(s)
  {
    var i :| 0 <= i <= |s| && whole == s[..i] + [n] + s[i..];
    forall j, k | 0 <= j < k < |s| ensures s[j].key < s[k].key {
      assert whole[if j < i then j else j + 1] == s[j];
      assert whole[if k < i then k else k + 1] == s[k];
    }
  }
}
