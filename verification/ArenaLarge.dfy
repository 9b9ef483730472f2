/** Large runs are cut in two before a part is given back, and grown over a
    free neighbour (arena.c, arena_run_trim_*, arena_ralloc_large_grow). */
module ArenaLarge {
  import opened Wrappers
  import opened PageTiles
  import opened ArenaTotals
  import opened ArenaState
  import opened ArenaDirty
  import opened ArenaCoalesce
  import opened ArenaAlloc

  ghost predicate LargeRun(s: State, c: int, i: int, n: nat) {
    AllocAt(s, c, i).Some? && AllocAt(s, c, i).value.kind == Large && AllocAt(s, c, i).value.n == n
  }

  /** Only the allocated runs of chunk `c` have changed. */
  ghost predicate Resized(s: State, s': State, c: int) {
    && s'.npages == s.npages && s'.spare == s.spare && s'.chunksDirty == s.chunksDirty
    && s'.nactive == s.nactive && s'.ndirty == s.ndirty && s'.smallPages == s.smallPages
    && s'.clean == s.clean && s'.dirty == s.dirty
    && c in s.chunks && c in s'.chunks && s'.chunks == s.chunks[c := s'.chunks[c]]
    && s'.chunks[c].ndirty == s.chunks[c].ndirty && s'.chunks[c].dirtied == s.chunks[c].dirtied
    && c in s.tiles && c in s'.tiles && s'.tiles == s.tiles[c := s'.tiles[c]]
  }

  /** A large run has become two. */
  ghost predicate Cut(s: State, s': State, c: int, i: int, head: nat) {
    && AllocAt(s, c, i).Some? && AllocAt(s, c, i + head) == None && SameDirty(s, s')
    && var t := AllocAt(s, c, i).value;
       && head < t.n
       && forall d, j :: AllocAt(s', d, j) ==
                         if d == c && j == i then Some(Tile(Large, t.dirty, head))
                         else if d == c && j == i + head then Some(Tile(Large, t.dirty, t.n - head))
                         else AllocAt(s, d, j)
  }

  /** A run of a chunk is replaced by allocated ones. */
  lemma CutKeeps(s: State, s': State, c: int, i: int, head: nat)
    requires Sound(s) && AllocAt(s, c, i).Some? && AllocAt(s, c, i).value.kind == Large
    requires var t := AllocAt(s, c, i).value;
             && 1 <= head < t.n && Resized(s, s', c)
             && s'.tiles[c] == Subst(s.tiles[c], i, TrimTiles(t.dirty, head, t.n)) && ChunkOk(s'.chunks[c], s'.tiles[c], s.npages)
    ensures Sound(s') && Cut(s, s', c, i, head)
  {
    var t := AllocAt(s, c, i).value;
    var u, v := Tile(Large, t.dirty, head), Tile(Large, t.dirty, t.n - head);
    StartEntry(s.tiles[c], s.chunks[c].pages, i);
    JoinNotSpare(s, c, i);
    CutDirty(s, s', c, i, u, v);
    CutAgrees(s, s', c, i, t, u, v);
    CutCounts(s, s', c, i, u, v);
    CutSettles(s, s', c, i, u, v);
  }

  lemma CutAgrees(s: State, s': State, c: int, i: int, t: Tile, u: Tile, v: Tile)
    requires Agree(s, None) && Resized(s, s', c) && s.spare != Some(c) && At(s.tiles[c], i) == Some(t) && Positive(s.tiles[c])
    requires t.kind == u.kind == v.kind == Large && t.n == u.n + v.n && u.n >= 1 && v.n >= 1 && t.dirty == u.dirty == v.dirty
    requires s'.tiles[c] == Subst(s.tiles[c], i, [u, v]) && ChunkOk(s'.chunks[c], s'.tiles[c], s.npages)
    requires SameDirty(s, s')
    ensures Agree(s', None) && Cut(s, s', c, i, u.n)
  {
    SubstTwo(s.tiles[c], i, u, v);
    assert Differs(s.tiles[c], s'.tiles[c], i, Some(u), i + u.n, Some(v));
    NotInTrees(s, c, i);
    NotInTrees(s, c, i + u.n);
    Retiled(s, s', None, None, c, i, Some(u), i + u.n, Some(v));
  }

  lemma NotInTrees(s: State, c: int, i: int)
    requires Agree(s, None) && !FreeRun(s, c, i)
    ensures forall r: Run :: r in s.clean + s.dirty ==> !(r.c == c && r.i == i)
  {
    forall r: Run | r in s.clean + s.dirty ensures !(r.c == c && r.i == i) {
      assert ShouldHold(r, s, false, None) || ShouldHold(r, s, true, None);
    }
  }

  lemma CutDirty(s: State, s': State, c: int, i: int, u: Tile, v: Tile)
    requires Resized(s, s', c) && AllocAt(s, c, i).Some? && u.kind == v.kind == Large && AllocAt(s, c, i).value.n == u.n + v.n
    requires s'.tiles[c] == Subst(s.tiles[c], i, [u, v])
    ensures SameDirty(s, s')
  {
    assert [u, v] == [u] + [v] && [u][1..] == [] && [v][1..] == [];
    PagesAppend([u], [v]);
    RetiledDirty(s, s', c, i, [u, v]);
  }

  lemma CutCounts(s: State, s': State, c: int, i: int, u: Tile, v: Tile)
    requires Counted(s) && Listed(s, None) && Resized(s, s', c) && AllocAt(s, c, i).Some?
    requires u.kind == v.kind == Large && AllocAt(s, c, i).value.n == u.n + v.n && s'.tiles[c] == Subst(s.tiles[c], i, [u, v])
    ensures Counted(s') && Listed(s', None)
  {
    CountSubst(s.tiles[c], i, [u, v], false);
    CountSubst(s.tiles[c], i, [u, v], true);
    CountOne(At(s.tiles[c], i).value);
    CountOne(u);
    CountOne(v);
    CountTwo(u, v);
    Recounted(s, s', c);
  }

  lemma CutSettles(s: State, s': State, c: int, i: int, u: Tile, v: Tile)
    requires MapsOk(s) && Settled(s) && Resized(s, s', c) && AllocAt(s, c, i).Some?
    requires u.kind == v.kind == Large && s'.tiles[c] == Subst(s.tiles[c], i, [u, v])
    ensures Settled(s')
  {
    var t := At(s.tiles[c], i).value;
    var a, b := Locate(s.tiles[c], i);
    EncodesLengths(s.tiles[c], s.chunks[c].pages, 0);
    PositiveParts(a, t, b);
    CoalescedParts(a, t, b);
    SubstAround(a, t, b, [u, v]);
    CoalescedAround(a, u, []);
    assert a + [u] == a + [u] + [];
    CoalescedAround(a + [u], v, b);
    assert a + [u, v] + b == a + [u] + [v] + b;
  }

  /** A large run has grown over the allocated run behind it. */
  ghost predicate Joined(s: State, s': State, c: int, i: int, t: Tile, u: Tile) {
    && AllocAt(s, c, i) == Some(t) && AllocAt(s, c, i + t.n) == Some(u) && SameDirty(s, s')
    && forall d, j :: AllocAt(s', d, j) ==
                      if d == c && j == i then Some(Tile(Large, t.dirty || u.dirty, t.n + u.n))
                      else if d == c && j == i + t.n then None
                      else AllocAt(s, d, j)
  }

  lemma JoinAgrees(s: State, s': State, c: int, v: Tile, t: Tile, u: Tile, i: int)
    requires Agree(s, None) && Resized(s, s', c) && At(s.tiles[c], i) == Some(t) && At(s.tiles[c], i + t.n) == Some(u)
    requires t.kind == u.kind == v.kind == Large && s.spare != Some(c) && ChunkOk(s'.chunks[c], s'.tiles[c], s.npages)
    requires Differs(s.tiles[c], s'.tiles[c], i, Some(v), i + t.n, None)
    ensures Agree(s', None)
  {
    NotInTrees(s, c, i);
    NotInTrees(s, c, i + t.n);
    Retiled(s, s', None, None, c, i, Some(v), i + t.n, None);
  }

  lemma JoinNotSpare(s: State, c: int, i: int)
    requires Agree(s, None) && c in s.tiles && c in s.chunks && At(s.tiles[c], i).Some? && At(s.tiles[c], i).value.kind == Large
    ensures s.spare != Some(c)
  {
    if s.spare == Some(c) { SingleRun(s.tiles[c]); }
  }

  lemma JoinKeeps(s: State, s': State, c: int, a: seq<Tile>, t: Tile, u: Tile, b: seq<Tile>)
    requires Sound(s) && Resized(s, s', c) && s.tiles[c] == a + [t, u] + b && t.kind == u.kind == Large
    requires s'.tiles[c] == a + [Tile(Large, t.dirty || u.dirty, t.n + u.n)] + b && ChunkOk(s'.chunks[c], s'.tiles[c], s.npages)
    ensures Sound(s') && Joined(s, s', c, Pages(a), t, u)
  {
    var v := Tile(Large, t.dirty || u.dirty, t.n + u.n);
    var i := Pages(a);
    MergedDiffers(s, s', c, a, t, u, b, v, i);
    JoinNotSpare(s, c, i);
    JoinAgrees(s, s', c, v, t, u, i);
    assert [t, u][1..] == [u] && [u][1..] == [] && [v][1..] == [];
    JoinedDirty(s, s', c, a, [t, u], [v], b);
    JoinedNow(s, s', c, v, t, u, i);
    JoinCounts(s, s', c, a, t, u, b, v);
    JoinSettles(s, s', c, a, t, u, b, v);
  }

  lemma JoinedNow(s: State, s': State, c: int, v: Tile, t: Tile, u: Tile, i: int)
    requires Resized(s, s', c) && At(s.tiles[c], i) == Some(t) && At(s.tiles[c], i + t.n) == Some(u) && t.n >= 1
    requires t.kind == u.kind == Large && v == Tile(Large, t.dirty || u.dirty, t.n + u.n)
    requires Differs(s.tiles[c], s'.tiles[c], i, Some(v), i + t.n, None) && SameDirty(s, s')
    ensures Joined(s, s', c, i, t, u)
  {
  }

  lemma JoinCounts(s: State, s': State, c: int, a: seq<Tile>, t: Tile, u: Tile, b: seq<Tile>, v: Tile)
    requires Counted(s) && Listed(s, None) && Resized(s, s', c) && s.tiles[c] == a + [t, u] + b
    requires t.kind == u.kind == v.kind == Large && v.n == t.n + u.n && s'.tiles[c] == a + [v] + b
    ensures Counted(s') && Listed(s', None)
  {
    forall w ensures Count(a + [v] + b, w) == Count(a + [t, u] + b, w) {
      CountAppend(a + [v], b, w);
      CountAppend(a, [v], w);
      CountAppend(a + [t, u], b, w);
      CountAppend(a, [t, u], w);
      CountOne(v);
      CountOne(t);
      CountOne(u);
      CountTwo(t, u);
    }
    Recounted(s, s', c);
  }

  lemma JoinSettles(s: State, s': State, c: int, a: seq<Tile>, t: Tile, u: Tile, b: seq<Tile>, v: Tile)
    requires Settled(s) && Resized(s, s', c) && s.tiles[c] == a + [t, u] + b && v.kind == Large && s'.tiles[c] == a + [v] + b
    ensures Settled(s')
  {
    assert a + [t, u] + b == a + [t] + ([u] + b);
    CoalescedParts(a, t, [u] + b);
    assert [u] + b == [] + [u] + b;
    CoalescedParts([], u, b);
    CoalescedAround(a, v, b);
    assert (a + [v] + b)[|a|] == v;
  }

  /** The free run that starts at page `j`, in pages. */
  ghost function FreeAt(s: State, c: int, j: int): nat {
    if FreeRun(s, c, j) then At(s.tiles[c], j).value.n else 0
  }

  /** Behind the only allocated run of a chunk, the first one, pages are free. */
  lemma RestFree(s: State, c: int, n: nat)
    requires Sound(s) && LargeRun(s, c, 0, n) && n < s.npages && forall j :: j != 0 ==> AllocAt(s, c, j) == None
    ensures FreeAt(s, c, n) >= 1
  {
    var ts, m := s.tiles[c], s.chunks[c].pages;
    EncodesLengths(ts, m, 0);
    var rest := ts[1..];
    assert Pages(ts) == ts[0].n + Pages(rest);
    assert rest != [];
    assert At(ts, n) == At(rest, 0) == Some(rest[0]);
    assert rest[0] == ts[1];
    assert AllocAt(s, c, n) == None;
  }

  /** Two runs next to each other. */
  lemma {:induction false} Neighbours(ts: seq<Tile>, i: int) returns (a: seq<Tile>, b: seq<Tile>)
    requires Positive(ts) && At(ts, i).Some? && At(ts, i + At(ts, i).value.n).Some?
    ensures var t := At(ts, i).value; ts == a + [t, At(ts, i + t.n).value] + b && Pages(a) == i
  {
    AtPositive(ts, i);
    if i == 0 {
      a, b := [], ts[2..];
      assert ts == [ts[0], ts[1]] + ts[2..];
    } else {
      assert forall k :: 0 <= k < |ts[1..]| ==> ts[1..][k] == ts[k + 1];
      a, b := Neighbours(ts[1..], i - ts[0].n);
      a := [ts[0]] + a;
    }
  }

  /** The large run at page `i0` is now the run at page `i` of `n` pages. */
  ghost predicate Trimmed(s: State, s': State, c: int, i0: int, i: int, n: nat) {
    && AllocAt(s, c, i0).Some?
    && forall d, j :: AllocAt(s', d, j) ==
                      if d == c && j == i then Some(Tile(Large, AllocAt(s, c, i0).value.dirty, n))
                      else if d == c && j == i0 then None
                      else AllocAt(s, d, j)
  }

  lemma CutParts(s: State, s1: State, c: int, i: int, head: nat)
    requires head >= 1 && Cut(s, s1, c, i, head)
    ensures var t := AllocAt(s, c, i).value;
            && AllocAt(s1, c, i) == Some(Tile(Large, t.dirty, head)) && AllocAt(s1, c, i + head) == Some(Tile(Large, t.dirty, t.n - head))
            && AllocRun(s1, c, i) && AllocRun(s1, c, i + head)
  {
  }

  lemma CutFreed(s: State, s1: State, s2: State, s3: State, c: int, i: int, head: nat, atHead: bool, dirty: bool, at: int, keep: nat)
    requires head >= 1 && Cut(s, s1, c, i, head) && AllocRun(s1, c, if atHead then i else i + head)
    requires at == (if atHead then i + head else i) && keep == (if atHead then AllocAt(s, c, i).value.n - head else head)
    requires Freed(s1, s2, c, if atHead then i else i + head, dirty) && SameAllocs(s2, s3)
    ensures Trimmed(s, s3, c, i, at, keep) && s2.nactive == s1.nactive - (AllocAt(s, c, i).value.n - keep)
    ensures !dirty ==> s2.ndirty <= s1.ndirty
    ensures var from := if atHead then i else i + head;
            DirtyBut(s, s2, c, from, from + At(s1.tiles[c], from).value.n, dirty)
  {
    CutParts(s, s1, c, i, head);
    var from := if atHead then i else i + head;
    DirtyAfterSame(s, s1, s2, c, from, from + At(s1.tiles[c], from).value.n, dirty);
  }

  lemma TrimmedTwice(s: State, s1: State, s2: State, c: int, i0: int, i: int, n1: nat, n: nat)
    requires Trimmed(s, s1, c, i0, i, n1) && Trimmed(s1, s2, c, i, i, n)
    ensures Trimmed(s, s2, c, i0, i, n)
  {
  }

  lemma TakenTrimmed(s: State, s1: State, s2: State, c: int, i0: int, i: int, n0: nat, n: nat)
    requires Sound(s1) && LargeRun(s1, c, i0, n0) && OneMore(s, s1, c, i0, AllocAt(s1, c, i0).value)
    requires Trimmed(s1, s2, c, i0, i, n) && i0 <= i < i0 + n0
    ensures OneMore(s, s2, c, i, Tile(Large, AllocAt(s1, c, i0).value.dirty, n))
  {
    if AllocAt(s1, c, i).Some? && i0 < i {
      AllocsApart(s1, c, i0, i);
    }
  }

  /** The large run at page `i` now has `n` pages; all other runs are as before. */
  ghost predicate Grown(s: State, s': State, c: int, i: int, n: nat) {
    && LargeRun(s', c, i, n)
    && forall d, j :: !(d == c && j == i) ==> AllocAt(s', d, j) == AllocAt(s, d, j)
  }

  /** The free pages from `j` on are in use. */
  ghost predicate Swallowed(s: State, s': State, c: int, j: int, more: nat) {
    && s'.nactive == s.nactive + more && s'.ndirty == s.ndirty - (if DirtyAt(s, c, j) then more else 0)
    && DirtyTaken(s, s', c, j, more, DirtyAt(s, c, j))
  }

  lemma GrownNow(s: State, s1: State, s2: State, c: int, i: int, t: Tile, u: Tile)
    requires AllocAt(s, c, i) == Some(t) && t.n >= 1 && u.n >= 1 && OneMore(s, s1, c, i + t.n, u) && Joined(s1, s2, c, i, t, u)
    requires DirtyTaken(s, s1, c, i + t.n, u.n, u.dirty)
    requires s2.nactive == s1.nactive == s.nactive + u.n && s2.ndirty == s1.ndirty == s.ndirty - (if u.dirty then u.n else 0)
    ensures Grown(s, s2, c, i, t.n + u.n) && Swallowed(s, s2, c, i + t.n, u.n)
  {
    TakenThenSame(s, s1, s2, c, i + t.n, u.n, u.dirty);
    TakenJoined(s, s1, s2, c, i, t, u);
  }

  lemma TakenJoined(s: State, s1: State, s2: State, c: int, i: int, t: Tile, u: Tile)
    requires AllocAt(s, c, i) == Some(t) && t.n >= 1 && OneMore(s, s1, c, i + t.n, u) && Joined(s1, s2, c, i, t, u)
    ensures Grown(s, s2, c, i, t.n + u.n)
  {
  }

  /** The run and the pages that were taken behind it. */
  lemma TakenBehind(s: State, s1: State, c: int, i: int, n: nat, more: nat, t: Tile, u: Tile)
    requires LargeRun(s, c, i, n) && n >= 1 && Taken(s, s1, c, i + n, more, Large)
    requires AllocAt(s, c, i) == Some(t) && AllocAt(s1, c, i + n) == Some(u)
    ensures t.n == n && u.n == more && t.kind == u.kind == Large
    ensures AllocAt(s1, c, i) == Some(t) && AllocAt(s1, c, i + t.n) == Some(u) && OneMore(s, s1, c, i + t.n, u)
  {
  }

  /** The free run behind a large run can be split. */
  lemma RoomBehind(s: State, c: int, i: int, n: nat, more: nat)
    requires Sound(s) && LargeRun(s, c, i, n) && 1 <= more <= FreeAt(s, c, i + n)
    ensures FreeRun(s, c, i + n) && s.spare != Some(c) && more <= At(s.tiles[c], i + n).value.n && SettledBut(s, c) && n >= 1
  {
    StartEntry(s.tiles[c], s.chunks[c].pages, i);
    JoinNotSpare(s, c, i);
  }

  /** What follows a run. */
  lemma Following(ts: seq<Tile>, m: seq<Entry>, i: int)
    requires Encodes(ts, m) && At(ts, i).Some?
    ensures var j := i + At(ts, i).value.n;
            && 0 <= i && 0 <= j <= |m|
            && (j == |m| ==> At(ts, j) == None)
            && (j < |m| ==> At(ts, j).Some? && TileOk(At(ts, j).value, m, j))
  {
    var t := At(ts, i).value;
    var a, b := Locate(ts, i);
    TheTile(a, t, b, m);
    EncodesLengths(ts, m, 0);
    PositiveParts(a, t, b);
    PagesAppend(a, [t]);
    SingleAt(t);
    AtAppend(a + [t], b, i + t.n);
    assert Positive(a + [t]);
    if b != [] {
      EncodesAppend(a + [t], b, m, 0);
      EncodesLengths(b, m, i + t.n);
    }
  }

  ghost predicate SmallRun(s: State, c: int, i: int, n: nat) {
    AllocAt(s, c, i).Some? && AllocAt(s, c, i).value.kind == Small && AllocAt(s, c, i).value.n == n
  }

  /** A small run counts as a large one from now on. */
  ghost predicate Converted(s: State, s': State, c: int, i: int) {
    && AllocAt(s, c, i).Some? && SameDirty(s, s')
    && forall d, j :: AllocAt(s', d, j) ==
                      if d == c && j == i then Some(Tile(Large, AllocAt(s, c, i).value.dirty, AllocAt(s, c, i).value.n))
                      else AllocAt(s, d, j)
  }

  lemma ConvertKeeps(s: State, s': State, c: int, i: int)
    requires Sound(s) && AllocAt(s, c, i).Some? && Resized(s, s', c)
    requires var t := AllocAt(s, c, i).value;
             s'.tiles[c] == Subst(s.tiles[c], i, [Tile(Large, t.dirty, t.n)]) && ChunkOk(s'.chunks[c], s'.tiles[c], s.npages)
    ensures Sound(s') && Converted(s, s', c, i)
  {
    var t := AllocAt(s, c, i).value;
    var u := Tile(Large, t.dirty, t.n);
    StartEntry(s.tiles[c], s.chunks[c].pages, i);
    SubstOne(s.tiles[c], i, u);
    assert Differs(s.tiles[c], s'.tiles[c], i, Some(u), i, None);
    NotInTrees(s, c, i);
    if s.spare == Some(c) { SingleRun(s.tiles[c]); }
    Retiled(s, s', None, None, c, i, Some(u), i, None);
    CountSubst(s.tiles[c], i, [u], false);
    CountSubst(s.tiles[c], i, [u], true);
    CountOne(t);
    CountOne(u);
    Recounted(s, s', c);
    ConvertSettles(s, s', c, i, u);
    assert [u][1..] == [];
    RetiledDirty(s, s', c, i, [u]);
  }

  lemma ConvertSettles(s: State, s': State, c: int, i: int, u: Tile)
    requires MapsOk(s) && Settled(s) && Resized(s, s', c) && AllocAt(s, c, i).Some?
    requires u.kind == Large && s'.tiles[c] == Subst(s.tiles[c], i, [u])
    ensures Settled(s')
  {
    var t := At(s.tiles[c], i).value;
    var a, b := Locate(s.tiles[c], i);
    EncodesLengths(s.tiles[c], s.chunks[c].pages, 0);
    PositiveParts(a, t, b);
    CoalescedParts(a, t, b);
    SubstAround(a, t, b, [u]);
    CoalescedAround(a, u, b);
    assert (a + [u] + b)[|a|] == u;
  }

  /** A run that is converted, trimmed and given back is gone. */
  lemma ConvertedAway(s: State, s1: State, s2: State, s3: State, s4: State, c: int, i: int, n: nat)
    requires Converted(s, s1, c, i) && Trimmed(s1, s2, c, i, i, n) && OneLess(s2, s3, c, i) && SameAllocs(s3, s4)
    ensures OneLess(s, s4, c, i)
  {
  }
}
