/** Where the pages of a new run come from (arena.c, arena_run_alloc,
    arena_chunk_alloc): a free run, the spare chunk, or a new chunk. */
module ArenaAlloc {
  import opened Wrappers
  import opened PageTiles
  import opened ArenaTotals
  import opened ArenaState
  import opened ArenaDirty
  import opened ArenaCoalesce

  /** All is settled, but for a wholly free chunk `c` that is not the spare. */
  ghost predicate SettledBut(s: State, c: int) {
    forall d :: d in s.tiles ==> Coalesced(s.tiles[d]) && (WholeFree(s.tiles[d]) && d != c ==> s.spare == Some(d))
  }

  /** The spare chunk is in use again. */
  ghost predicate ReuseStep(s: State, s': State, c: int)
    requires WholeAt(s, c)
  {
    var f := s.tiles[c][0];
    && s'.npages == s.npages && s'.chunks == s.chunks && s'.tiles == s.tiles && s'.chunksDirty == s.chunksDirty
    && s'.nactive == s.nactive && s'.ndirty == s.ndirty && s'.smallPages == s.smallPages
    && s.spare == Some(c) && s'.spare == None
    && s'.clean == (if f.dirty then s.clean else s.clean + {Run(f.n, c, 0)})
    && s'.dirty == (if f.dirty then s.dirty + {Run(f.n, c, 0)} else s.dirty)
  }

  lemma ReuseAgrees(s: State, s': State, c: int)
    requires Sound(s) && WholeAt(s, c) && ReuseStep(s, s', c)
    ensures Agree(s', None) && Counted(s') && Listed(s', None) && SettledBut(s', c)
    ensures Run(s.tiles[c][0].n, c, 0) !in s.clean + s.dirty
  {
    SingleRun(s.tiles[c]);
    forall r: Run ensures r in s'.clean <==> ShouldHold(r, s', false, None) {
      assert r in s.clean <==> ShouldHold(r, s, false, None);
    }
    forall r: Run ensures r in s'.dirty <==> ShouldHold(r, s', true, None) {
      assert r in s.dirty <==> ShouldHold(r, s, true, None);
    }
    forall d, k | d in s'.tiles ensures SmallAt(s', d, k) {
      assert SmallAt(s, d, k);
    }
    var r := Run(s.tiles[c][0].n, c, 0);
    assert !ShouldHold(r, s, false, None) && !ShouldHold(r, s, true, None);
  }

  /** A new chunk holds one free run over all its pages. */
  ghost predicate FreshStep(s: State, s': State, c: int) {
    && s'.npages == s.npages && s'.chunksDirty == s.chunksDirty && s'.spare == s.spare == None
    && s'.nactive == s.nactive && s'.ndirty == s.ndirty && s'.smallPages == s.smallPages
    && c !in s.chunks && c in s'.chunks && s'.chunks == s.chunks[c := s'.chunks[c]]
    && s'.chunks[c].ndirty == 0 && !s'.chunks[c].dirtied
    && s'.tiles == s.tiles[c := [Tile(Free, false, s.npages)]]
    && s'.dirty == s.dirty && s'.clean == s.clean + {Run(s.npages, c, 0)}
  }

  lemma FreshAgrees(s: State, s': State, c: int)
    requires Sound(s) && FreshStep(s, s', c) && ChunkOk(s'.chunks[c], s'.tiles[c], s.npages)
    ensures Agree(s', None) && Counted(s') && Listed(s', None) && SettledBut(s', c) && SameAllocs(s, s')
    ensures Run(s.npages, c, 0) !in s.clean
  {
    var ts := [Tile(Free, false, s.npages)];
    SingleRun(ts);
    assert !ShouldHold(Run(s.npages, c, 0), s, false, None);
    FreshTrees(s, s', c);
    TotalSet(s.tiles, c, ts, false);
    TotalSet(s.tiles, c, ts, true);
  }

  lemma FreshTrees(s: State, s': State, c: int)
    requires s.chunks.Keys == s.tiles.Keys && TreesOk(s, None) && SmallOk(s) && FreshStep(s, s', c)
    requires forall j :: At(s'.tiles[c], j) == if j == 0 then Some(Tile(Free, false, s.npages)) else None
    ensures TreesOk(s', None) && SmallOk(s')
  {
    forall r: Run ensures r in s'.clean <==> ShouldHold(r, s', false, None) {
      assert r in s.clean <==> ShouldHold(r, s, false, None);
    }
    forall r: Run ensures r in s'.dirty <==> ShouldHold(r, s', true, None) {
      assert r in s.dirty <==> ShouldHold(r, s, true, None);
    }
    forall d, k | d in s'.tiles ensures SmallAt(s', d, k) {
      assert d != c ==> SmallAt(s, d, k);
    }
  }

  /** The page map of a new chunk. */
  function FreshMap(npages: nat): (m: seq<Entry>)
    requires npages >= 1
    ensures |m| == npages
    ensures Encodes([Tile(Free, false, npages)], m)
  {
    var e := Entry(npages, false, false, false);
    var m := seq(npages, k => Entry(0, false, false, false))[0 := e][npages - 1 := e];
    OneTile(Tile(Free, false, npages), m, 0);
    m
  }

  /** One more allocated run than before. */
  ghost predicate OneMore(s: State, s': State, c: int, i: int, t: Tile) {
    AllocAt(s, c, i) == None && forall d, j :: AllocAt(s', d, j) == if d == c && j == i then Some(t) else AllocAt(s, d, j)
  }

  lemma SplitAllocs(s: State, s': State, c: int, i: int, need: nat, kind: Kind)
    requires MapsOk(s) && FreeRun(s, c, i) && c in s.chunks && kind != Free
    requires 1 <= need <= At(s.tiles[c], i).value.n && SplitStep(s, s', c, i, need, kind)
    ensures OneMore(s, s', c, i, Tile(kind, At(s.tiles[c], i).value.dirty, need))
  {
    EncodesLengths(s.tiles[c], s.chunks[c].pages, 0);
    var t := At(s.tiles[c], i).value;
    if need < t.n {
      TwoStarts(s.tiles[c], i, t, kind, need, s'.tiles[c]);
    } else {
      OneStart(s.tiles[c], i, t, kind, s'.tiles[c]);
    }
  }

  lemma SplitSettles(s: State, s': State, c: int, i: int, need: nat, kind: Kind)
    requires MapsOk(s) && SettledBut(s, c) && FreeRun(s, c, i) && c in s.chunks && kind != Free
    requires 1 <= need <= At(s.tiles[c], i).value.n && SplitStep(s, s', c, i, need, kind)
    ensures Settled(s')
  {
    var t := At(s.tiles[c], i).value;
    var a, b := Locate(s.tiles[c], i);
    EncodesLengths(s.tiles[c], s.chunks[c].pages, 0);
    PositiveParts(a, t, b);
    CoalescedParts(a, t, b);
    var y := SplitTiles(kind, t.dirty, need, t.n);
    SubstAround(a, t, b, y);
    SplitCoalesced(a, y, b);
    assert (a + y + b)[|a|] == y[0];
  }

  lemma SplitCoalesced(a: seq<Tile>, y: seq<Tile>, b: seq<Tile>)
    requires Coalesced(a) && Coalesced(b) && 1 <= |y| <= 2 && y[0].kind != Free
    requires |y| == 2 && b != [] ==> !Mergeable(y[1], b[0])
    ensures Coalesced(a + y + b)
  {
    CoalescedAround(a, y[0], []);
    if |y| == 2 {
      CoalescedAround(a + [y[0]], y[1], b);
      assert a + y + b == a + [y[0]] + [y[1]] + b;
      assert a + [y[0]] == a + [y[0]] + [];
    } else {
      CoalescedAround(a, y[0], b);
      assert y == [y[0]];
    }
  }

  /** What arena_run_alloc does: one more allocated run. */
  ghost predicate Taken(s: State, s': State, c: int, i: int, need: nat, kind: Kind) {
    && s'.npages == s.npages && s'.chunksDirty == s.chunksDirty
    && AllocAt(s', c, i).Some? && OneMore(s, s', c, i, AllocAt(s', c, i).value)
    && (var t := AllocAt(s', c, i).value;
        && t.kind == kind && t.n == need
        && s'.nactive == s.nactive + need && s'.ndirty == s.ndirty - (if t.dirty then need else 0)
        && DirtyTaken(s, s', c, i, need, t.dirty))
    && s'.tiles.Keys == s.tiles.Keys + {c}
    && (forall d :: d in s.tiles && d != c ==> s'.tiles[d] == s.tiles[d])
    && (s'.spare == s.spare || (s.spare == Some(c) && s'.spare == None))
  }

  lemma TakenFromChunk(s: State, s1: State, s2: State, c: int, need: nat, kind: Kind)
    requires SameAllocs(s, s1) && s1.spare == None && c in s1.tiles && s1.tiles == s.tiles[c := s1.tiles[c]]
    requires s.spare == None || (s.spare == Some(c) && c in s.tiles)
    requires s1.npages == s.npages && s1.chunksDirty == s.chunksDirty && s1.nactive == s.nactive && s1.ndirty == s.ndirty && SameDirty(s, s1)
    requires Taken(s1, s2, c, 0, need, kind)
    ensures Taken(s, s2, c, 0, need, kind)
  {
  }

  /** The lowest best fit in a tree. */
  ghost predicate BestFit(avail: set<Run>, n: nat, r: Run) {
    r in avail && r.n >= n
    && forall x :: x in avail && x.n >= n && x != r ==> x.n > r.n || (x.n == r.n && (x.c > r.c || (x.c == r.c && x.i > r.i)))
  }

  ghost predicate NoFit(avail: set<Run>, n: nat) {
    forall x :: x in avail ==> x.n < n
  }

  /** Which free run arena_run_alloc takes: the lowest best fit among the dirty
      ones, or else among the clean ones, or else a whole chunk. */
  ghost predicate Chosen(s: State, n: nat, c: int, i: int) {
    if !NoFit(s.dirty, n) then exists r :: BestFit(s.dirty, n, r) && r.c == c && r.i == i
    else if !NoFit(s.clean, n) then exists r :: BestFit(s.clean, n, r) && r.c == c && r.i == i
    else i == 0 && (if s.spare.Some? then s.spare == Some(c) else c !in s.chunks)
  }

  /** Allocated runs never overlap. */
  lemma AllocsApart(s: State, c: int, i: int, j: int)
    requires Sound(s) && AllocAt(s, c, i).Some? && AllocAt(s, c, j).Some? && i < j
    ensures 0 <= i && i + AllocAt(s, c, i).value.n <= j && j + AllocAt(s, c, j).value.n <= s.npages
  {
    EncodesLengths(s.tiles[c], s.chunks[c].pages, 0);
    AtBounds(s.tiles[c], i);
    AtBounds(s.tiles[c], j);
    AtInside(s.tiles[c], i, j);
  }
}
