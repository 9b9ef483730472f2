/** Which free pages are dirty (arena.h, CHUNK_MAP_DIRTY), page by page. */
module ArenaDirty {
  import opened PageTiles
  import opened ArenaState

  /** The page belongs to a dirty free run. */
  ghost predicate DirtyPage(ts: seq<Tile>, p: int) {
    if ts == [] || p < 0 then false
    else if p < ts[0].n then ts[0].kind == Free && ts[0].dirty
    else DirtyPage(ts[1..], p - ts[0].n)
  }

  ghost predicate DirtyAt(s: State, c: int, p: int) {
    c in s.tiles && DirtyPage(s.tiles[c], p)
  }

  /** No page has become dirty. */
  ghost predicate NotDirtier(s: State, s': State) {
    forall c, p :: DirtyAt(s', c, p) ==> DirtyAt(s, c, p)
  }

  ghost predicate SameDirty(s: State, s': State) {
    forall c, p :: DirtyAt(s', c, p) == DirtyAt(s, c, p)
  }

  /** Of the pages of chunk `c` those from `i` to `j` are dirty free pages now, or
      are not, and the others are as before; no page of another chunk has become
      dirty. */
  ghost predicate DirtyBut(s: State, s': State, c: int, i: int, j: int, dirty: bool) {
    && (forall p :: DirtyAt(s', c, p) == if i <= p < j then dirty else DirtyAt(s, c, p))
    && (forall d, p :: d != c && DirtyAt(s', d, p) ==> DirtyAt(s, d, p))
  }

  lemma {:induction false} DirtyAppend(a: seq<Tile>, b: seq<Tile>, p: int)
    ensures DirtyPage(a + b, p) == if p < Pages(a) then DirtyPage(a, p) else DirtyPage(b, p - Pages(a))
  {
    if a == [] {
      assert a + b == b;
    } else if p >= 0 {
      assert (a + b)[1..] == a[1..] + b;
      DirtyAppend(a[1..], b, p - a[0].n);
    }
  }

  /** One run replaced by others of the same length together. */
  lemma {:induction false} DirtySubst(ts: seq<Tile>, i: int, y: seq<Tile>, p: int)
    requires At(ts, i).Some? && Pages(y) == At(ts, i).value.n
    ensures DirtyPage(Subst(ts, i, y), p) == if i <= p < i + Pages(y) then DirtyPage(y, p - i) else DirtyPage(ts, p)
  {
    if i == 0 {
      DirtyAppend(y, ts[1..], p);
      if p < 0 { DirtyAppend(y, [], p); assert y + [] == y; }
    } else {
      AtPositive(ts, i);
      AtPositive(ts[1..], i - ts[0].n);
      if p >= ts[0].n {
        DirtySubst(ts[1..], i - ts[0].n, y, p - ts[0].n);
      }
    }
  }

  ghost predicate NoDirty(ts: seq<Tile>) {
    forall k :: 0 <= k < |ts| ==> !(ts[k].kind == Free && ts[k].dirty)
  }

  lemma {:induction false} NoneDirty(ts: seq<Tile>, p: int)
    requires NoDirty(ts)
    ensures !DirtyPage(ts, p)
  {
    if ts != [] && p >= ts[0].n {
      assert forall k :: 0 <= k < |ts[1..]| ==> ts[1..][k] == ts[k + 1];
      NoneDirty(ts[1..], p - ts[0].n);
    }
  }

  /** All pages of a run are as the run is. */
  lemma {:induction false} RunPage(ts: seq<Tile>, i: int, p: int)
    requires At(ts, i).Some? && i <= p < i + At(ts, i).value.n
    ensures DirtyPage(ts, p) == (At(ts, i).value.kind == Free && At(ts, i).value.dirty)
  {
    if i > 0 {
      AtPositive(ts[1..], i - ts[0].n);
      RunPage(ts[1..], i - ts[0].n, p - ts[0].n);
    }
  }

  /** Of a free run, dirty or not, the pages from `i` on were allocated; the others
      are as before. */
  ghost predicate DirtyTaken(s: State, s': State, c: int, i: int, n: nat, dirty: bool) {
    && (forall p :: i <= p < i + n ==> DirtyAt(s, c, p) == dirty)
    && (forall d, p :: DirtyAt(s', d, p) == (DirtyAt(s, d, p) && !(d == c && i <= p < i + n)))
  }

  lemma SplitDirty(s: State, s': State, c: int, i: int, need: nat, kind: Kind)
    requires FreeRun(s, c, i) && c in s.chunks && kind != Free
    requires 1 <= need <= At(s.tiles[c], i).value.n && SplitStep(s, s', c, i, need, kind)
    ensures DirtyTaken(s, s', c, i, need, At(s.tiles[c], i).value.dirty)
  {
    var t := At(s.tiles[c], i).value;
    var y := SplitTiles(kind, t.dirty, need, t.n);
    forall p | i <= p < i + t.n ensures DirtyAt(s, c, p) == t.dirty {
      RunPage(s.tiles[c], i, p);
    }
    forall p ensures DirtyAt(s', c, p) == (DirtyAt(s, c, p) && !(i <= p < i + need)) {
      SplitPages(kind, t.dirty, need, t.n, p - i);
      DirtySubst(s.tiles[c], i, y, p);
    }
  }

  lemma SplitPages(kind: Kind, dirty: bool, need: nat, total: nat, q: int)
    requires kind != Free && 1 <= need <= total
    ensures Pages(SplitTiles(kind, dirty, need, total)) == total
    ensures DirtyPage(SplitTiles(kind, dirty, need, total), q) == (dirty && need <= q < total)
  {
    var t, u := Tile(kind, dirty, need), Tile(Free, dirty, total - need);
    assert [t][1..] == [] && [u][1..] == [];
    OneDirty(t, q);
    if need < total {
      assert [t, u] == [t] + [u];
      PagesAppend([t], [u]);
      DirtyAppend([t], [u], q);
      OneDirty(u, q - need);
    }
  }

  lemma FreshDirty(s: State, s': State, c: int, n: nat)
    requires c !in s.tiles && s'.tiles == s.tiles[c := [Tile(Free, false, n)]]
    ensures SameDirty(s, s')
  {
    forall p ensures !DirtyAt(s', c, p) {
      OneDirty(Tile(Free, false, n), p);
    }
  }

  lemma OneDirty(f: Tile, p: int)
    ensures DirtyPage([f], p) == (0 <= p < f.n && f.kind == Free && f.dirty)
  {
    assert [f][1..] == [];
  }

  /** Joining two free runs with the same flag changes nothing. */
  lemma MergedDirty(a: seq<Tile>, t: Tile, u: Tile, b: seq<Tile>, f: Tile, p: int)
    requires Mergeable(t, u) && f == Tile(Free, t.dirty, t.n + u.n)
    ensures DirtyPage(a + [f] + b, p) == DirtyPage(a + [t, u] + b, p)
  {
    var q := p - Pages(a);
    DirtyAppend(a + [f], b, p);
    DirtyAppend(a, [f], p);
    DirtyAppend(a + [t, u], b, p);
    DirtyAppend(a, [t, u], p);
    PagesAppend(a, [f]);
    PagesAppend(a, [t, u]);
    assert [t, u] == [t] + [u] && [t][1..] == [] && [u][1..] == [] && [f][1..] == [];
    PagesAppend([t], [u]);
    DirtyAppend([t], [u], q);
    OneDirty(f, q);
    OneDirty(t, q);
    OneDirty(u, q - t.n);
  }

  /** An allocated run becomes free. */
  lemma FreedDirty(s: State, s': State, c: int, i: int, f: Tile)
    requires c in s.tiles && At(s.tiles[c], i).Some? && f.kind == Free && f.n == At(s.tiles[c], i).value.n
    requires s'.tiles == s.tiles[c := Subst(s.tiles[c], i, [f])]
    ensures DirtyBut(s, s', c, i, i + f.n, f.dirty)
  {
    assert [f][1..] == [];
    forall p ensures DirtyAt(s', c, p) == if i <= p < i + f.n then f.dirty else DirtyAt(s, c, p) {
      DirtySubst(s.tiles[c], i, [f], p);
      OneDirty(f, p - i);
    }
  }

  /** An allocated run is replaced by allocated ones. */
  lemma RetiledDirty(s: State, s': State, c: int, i: int, y: seq<Tile>)
    requires c in s.tiles && At(s.tiles[c], i).Some? && At(s.tiles[c], i).value.kind != Free && Pages(y) == At(s.tiles[c], i).value.n
    requires (forall k :: 0 <= k < |y| ==> y[k].kind != Free) && s'.tiles == s.tiles[c := Subst(s.tiles[c], i, y)]
    ensures SameDirty(s, s')
  {
    forall p ensures DirtyPage(Subst(s.tiles[c], i, y), p) == DirtyPage(s.tiles[c], p) {
      DirtySubst(s.tiles[c], i, y, p);
      NoneDirty(y, p - i);
      if i <= p < i + Pages(y) { RunPage(s.tiles[c], i, p); }
    }
  }

  /** Allocated runs in place of others. */
  lemma JoinedDirty(s: State, s': State, c: int, a: seq<Tile>, x: seq<Tile>, y: seq<Tile>, b: seq<Tile>)
    requires c in s.tiles && s.tiles[c] == a + x + b && s'.tiles == s.tiles[c := a + y + b] && Pages(x) == Pages(y)
    requires NoDirty(x) && NoDirty(y)
    ensures SameDirty(s, s')
  {
    forall p ensures DirtyPage(a + y + b, p) == DirtyPage(a + x + b, p) {
      PagesAppend(a, x);
      PagesAppend(a, y);
      DirtyAppend(a + x, b, p);
      DirtyAppend(a + y, b, p);
      DirtyAppend(a, x, p);
      DirtyAppend(a, y, p);
      NoneDirty(x, p - Pages(a));
      NoneDirty(y, p - Pages(a));
    }
  }

  lemma RegroupedDirty(s: State, s': State, c: int, a: seq<Tile>, t: Tile, u: Tile, b: seq<Tile>)
    requires c in s.tiles && s.tiles[c] == a + [t, u] + b && Mergeable(t, u)
    requires s'.tiles == s.tiles[c := a + [Tile(Free, t.dirty, t.n + u.n)] + b]
    ensures SameDirty(s, s')
  {
    var f := Tile(Free, t.dirty, t.n + u.n);
    forall p ensures DirtyPage(a + [f] + b, p) == DirtyPage(a + [t, u] + b, p) {
      MergedDirty(a, t, u, b, f, p);
    }
  }

  lemma TakenThenSame(s: State, s1: State, s2: State, c: int, j: int, n: nat, dirty: bool)
    requires DirtyTaken(s, s1, c, j, n, dirty) && SameDirty(s1, s2) && n >= 1
    ensures dirty == DirtyAt(s, c, j) && DirtyTaken(s, s2, c, j, n, DirtyAt(s, c, j))
  {
  }

  /** No page has become dirty, but for some of those of a dirty run. */
  ghost predicate DirtyWithin(s: State, s': State, c: int, i: int, j: int, dirty: bool) {
    forall d, p :: DirtyAt(s', d, p) ==> DirtyAt(s, d, p) || (dirty && d == c && i <= p < j)
  }

  lemma BackWithin(s: State, mid: State, s': State, c: int, i: int, j: int, from: int, to: int, dirty: bool)
    requires DirtyBut(s, mid, c, from, to, dirty) && NotDirtier(mid, s') && i <= from && to <= j
    ensures DirtyWithin(s, s', c, i, j, dirty)
  {
    forall d, p | DirtyAt(s', d, p) ensures DirtyAt(s, d, p) || (dirty && d == c && i <= p < j) {
      assert DirtyAt(mid, d, p);
    }
  }

  lemma WithinTwice(s: State, s1: State, s2: State, c: int, i: int, j: int, from: int, to: int, dirty: bool)
    requires DirtyWithin(s, s1, c, i, j, dirty) && DirtyWithin(s1, s2, c, from, to, dirty) && i <= from && to <= j
    ensures DirtyWithin(s, s2, c, i, j, dirty)
  {
  }

  /** Taking a run and giving parts of it back makes no page dirty. */
  lemma TakenAndBack(s: State, s1: State, s2: State, c: int, i: int, n: nat, dirty: bool)
    requires DirtyTaken(s, s1, c, i, n, dirty) && DirtyWithin(s1, s2, c, i, i + n, dirty)
    ensures NotDirtier(s, s2)
  {
    forall d, p | DirtyAt(s2, d, p) ensures DirtyAt(s, d, p) {
      assert DirtyAt(s1, d, p) == (DirtyAt(s, d, p) && !(d == c && i <= p < i + n));
    }
  }

  /** What is behind the dirty part of a run that is gone is clean. */
  ghost predicate CleanFrom(s: State, c: int, i: int, j: int) {
    forall p :: i <= p < j ==> !DirtyAt(s, c, p)
  }

  lemma BehindClean(s: State, s1: State, s2: State, c: int, i: int, j: int)
    requires AllocRun(s, c, i) && i <= j && DirtyBut(s, s1, c, i, j, true) && NotDirtier(s1, s2)
    ensures CleanFrom(s2, c, j, i + At(s.tiles[c], i).value.n)
  {
    forall p | j <= p < i + At(s.tiles[c], i).value.n ensures !DirtyAt(s2, c, p) {
      RunPage(s.tiles[c], i, p);
      assert DirtyAt(s1, c, p) == DirtyAt(s, c, p);
    }
  }

  lemma DirtyAfterSame(s: State, s1: State, s2: State, c: int, i: int, j: int, dirty: bool)
    requires SameDirty(s, s1) && DirtyBut(s1, s2, c, i, j, dirty)
    ensures DirtyBut(s, s2, c, i, j, dirty)
  {
  }

  lemma NotDirtierTwice(s: State, s1: State, s2: State)
    requires NotDirtier(s, s1) && NotDirtier(s1, s2)
    ensures NotDirtier(s, s2)
  {
  }

  /** An allocated run is given back in two parts, the one behind as it was. */
  lemma DirtyFront(s: State, s1: State, s2: State, s3: State, c: int, i: int, j: int)
    requires AllocRun(s, c, i) && i <= j <= i + At(s.tiles[c], i).value.n && SameDirty(s, s1)
    requires DirtyBut(s1, s2, c, j, i + At(s.tiles[c], i).value.n, false) && DirtyBut(s2, s3, c, i, j, true)
    ensures DirtyBut(s, s3, c, i, j, true)
  {
    forall p ensures DirtyAt(s3, c, p) == if i <= p < j then true else DirtyAt(s, c, p) {
      assert DirtyAt(s1, c, p) == DirtyAt(s, c, p);
      if j <= p < i + At(s.tiles[c], i).value.n { RunPage(s.tiles[c], i, p); }
    }
    forall d, p | d != c && DirtyAt(s3, d, p) ensures DirtyAt(s, d, p) {
      assert DirtyAt(s2, d, p);
      assert DirtyAt(s1, d, p);
    }
  }

  lemma SameAfterDirty(s: State, s1: State, s2: State, c: int, i: int, j: int, dirty: bool)
    requires DirtyBut(s, s1, c, i, j, dirty) && SameDirty(s1, s2)
    ensures DirtyBut(s, s2, c, i, j, dirty)
  {
  }

  /** A chunk other than `c` may be gone. */
  lemma DirtyFewer(s: State, s1: State, s2: State, c: int, i: int, j: int, dirty: bool)
    requires DirtyBut(s, s1, c, i, j, dirty) && c in s1.tiles && c in s2.tiles
    requires forall d :: d in s2.tiles ==> d in s1.tiles && s2.tiles[d] == s1.tiles[d]
    ensures DirtyBut(s, s2, c, i, j, dirty)
  {
    assert s2.tiles[c] == s1.tiles[c];
    assert forall p :: DirtyAt(s2, c, p) == DirtyAt(s1, c, p);
  }
}
