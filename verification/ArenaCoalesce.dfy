/** Giving a run back (arena.c, arena_run_dalloc): the page of the run joins
    its free neighbours, and a chunk that is wholly free becomes the spare. */
module ArenaCoalesce {
  import opened Wrappers
  import opened PageTiles
  import opened ArenaTotals
  import opened ArenaState
  import opened ArenaDirty
  import opened ArenaList

  /** The free run `f` of chunk `c`, between the runs `a` and `b`, is in no
      tree at the moment. */
  ghost predicate Pending(s: State, c: int, a: seq<Tile>, f: Tile, b: seq<Tile>) {
    && c in s.tiles && c in s.chunks && s.spare != Some(c) && s.tiles[c] == a + [f] + b && f.kind == Free
    && Agree(s, Some((c, Pages(a))))
  }

  /** Only the free runs of chunk `c` and the trees have changed. */
  ghost predicate Regrouped(s: State, s': State, c: int) {
    && s'.npages == s.npages && s'.spare == s.spare && s'.chunksDirty == s.chunksDirty
    && s'.nactive == s.nactive && s'.ndirty == s.ndirty && s'.smallPages == s.smallPages
    && c in s.chunks && c in s'.chunks && s'.chunks == s.chunks[c := s'.chunks[c]]
    && s'.chunks[c].ndirty == s.chunks[c].ndirty && s'.chunks[c].dirtied == s.chunks[c].dirtied
    && c in s.tiles && c in s'.tiles && s'.tiles == s.tiles[c := s'.tiles[c]]
    && SameAllocs(s, s') && SameDirty(s, s')
  }

  ghost predicate SameAllocs(s: State, s': State) {
    forall d, j :: AllocAt(s', d, j) == AllocAt(s, d, j)
  }

  lemma MergeRegroups(s: State, s': State, c: int, a: seq<Tile>, t: Tile, u: Tile, b: seq<Tile>, gone: Run)
    requires MapsOk(s) && c in s.tiles && c in s.chunks && MergeStep(s, s', c, a, t, u, b, gone)
    ensures Regrouped(s, s', c)
  {
    EncodesLengths(s.tiles[c], s.chunks[c].pages, 0);
    PairParts(a, t, u, b);
    MergedAt(a, t, u, b, Tile(Free, t.dirty, t.n + u.n));
    RegroupedDirty(s, s', c, a, t, u, b);
  }

  /** Of two neighbouring free runs the one that is in a tree. */
  lemma OneIsHeld(s: State, c: int, a: seq<Tile>, t: Tile, u: Tile, b: seq<Tile>, first: bool, i: int)
    requires c in s.tiles && c in s.chunks && s.tiles[c] == a + [t, u] + b && Mergeable(t, u) && i == Pages(a)
    requires Agree(s, Some((c, if first then i else i + t.n))) && s.spare != Some(c)
    ensures InOrder(s) && (if first then Run(u.n, c, i + t.n) else Run(t.n, c, i)) in (if t.dirty then s.dirty else s.clean)
  {
    var pend := Some((c, if first then i else i + t.n));
    AgreeInOrder(s, pend);
    EncodesLengths(s.tiles[c], s.chunks[c].pages, 0);
    PairParts(a, t, u, b);
    MergedAt(a, t, u, b, Tile(Free, t.dirty, t.n + u.n));
    assert ShouldHold(if first then Run(u.n, c, i + t.n) else Run(t.n, c, i), s, t.dirty, pend);
  }

  lemma MergeDone(s: State, s': State, c: int, a: seq<Tile>, t: Tile, u: Tile, b: seq<Tile>, first: bool, i: int, late: Option<int>)
    requires c in s.tiles && c in s.chunks && i == Pages(a) && Agree(s, Some((c, if first then i else i + t.n))) && s.spare != Some(c)
    requires MergeStep(s, s', c, a, t, u, b, if first then Run(u.n, c, i + t.n) else Run(t.n, c, i))
    requires ChunkOk(s'.chunks[c], s'.tiles[c], s.npages) && Counted(s) && Listed(s, late)
    ensures Pending(s', c, a, Tile(Free, t.dirty, t.n + u.n), b) && Counted(s') && Listed(s', late) && Regrouped(s, s', c)
  {
    var gone := if first then Run(u.n, c, i + t.n) else Run(t.n, c, i);
    MergeAgrees(s, s', c, a, t, u, b, first, i);
    MergeCounted(s, s', c, a, t, u, b, gone, late);
    MergeRegroups(s, s', c, a, t, u, b, gone);
  }

  /** The runs on both sides of a free run that has been coalesced. */
  ghost predicate Parted(f: Tile, a: seq<Tile>, b: seq<Tile>) {
    && (a != [] ==> !Mergeable(a[|a| - 1], f))
    && (b != [] ==> !Mergeable(f, b[0]))
  }

  lemma CoalescedAround(a: seq<Tile>, f: Tile, b: seq<Tile>)
    requires Coalesced(a) && Coalesced(b) && Parted(f, a, b)
    ensures Coalesced(a + [f] + b)
  {
    var ts := a + [f] + b;
    forall i | 0 <= i < |ts| - 1 ensures !Mergeable(ts[i], ts[i + 1]) {
      if i < |a| - 1 {
        assert ts[i] == a[i] && ts[i + 1] == a[i + 1];
      } else if i > |a| {
        assert ts[i] == b[i - |a| - 1] && ts[i + 1] == b[i - |a|];
      }
    }
  }

  lemma CoalescedParts(a: seq<Tile>, t: Tile, b: seq<Tile>)
    requires Coalesced(a + [t] + b)
    ensures Coalesced(a) && Coalesced(b) && (a != [] ==> !Mergeable(a[|a| - 1], t)) && (b != [] ==> !Mergeable(t, b[0]))
  {
    var ts := a + [t] + b;
    forall i | 0 <= i < |a| - 1 ensures !Mergeable(a[i], a[i + 1]) {
      assert ts[i] == a[i] && ts[i + 1] == a[i + 1];
    }
    forall i | 0 <= i < |b| - 1 ensures !Mergeable(b[i], b[i + 1]) {
      assert ts[i + |a| + 1] == b[i] && ts[i + |a| + 2] == b[i + 1];
    }
    assert a != [] ==> ts[|a| - 1] == a[|a| - 1] && ts[|a|] == t;
    assert b != [] ==> ts[|a|] == t && ts[|a| + 1] == b[0];
  }

  // ----- the coalesced run goes into its tree -----

  ghost predicate InsertStep(s: State, s': State, c: int, i: int, f: Tile) {
    var r := Run(f.n, c, i);
    s' == if f.dirty then s.(dirty := s.dirty + {r}) else s.(clean := s.clean + {r})
  }

  lemma InsertAgrees(s: State, s': State, c: int, a: seq<Tile>, f: Tile, b: seq<Tile>)
    requires Pending(s, c, a, f, b) && InsertStep(s, s', c, Pages(a), f)
    ensures Agree(s', None) && Run(f.n, c, Pages(a)) !in s.dirty + s.clean
  {
    var i := Pages(a);
    EncodesLengths(s.tiles[c], s.chunks[c].pages, 0);
    PositiveParts(a, f, b);
    SubstAround(a, f, b, []);
    forall r: Run ensures r in s'.clean <==> ShouldHold(r, s', false, None) {
      assert r in s.clean <==> ShouldHold(r, s, false, Some((c, i)));
    }
    forall r: Run ensures r in s'.dirty <==> ShouldHold(r, s', true, None) {
      assert r in s.dirty <==> ShouldHold(r, s, true, Some((c, i)));
    }
    assert !ShouldHold(Run(f.n, c, i), s, false, Some((c, i))) && !ShouldHold(Run(f.n, c, i), s, true, Some((c, i)));
    forall d, k | d in s'.tiles ensures SmallAt(s', d, k) {
      assert SmallAt(s, d, k);
    }
  }

  // ----- a chunk joins the list of dirtied chunks -----

  ghost predicate ListStep(s: State, s': State, c: int)
    requires c in s.chunks
  {
    && s'.npages == s.npages && s'.spare == s.spare && s'.nactive == s.nactive && s'.ndirty == s.ndirty
    && s'.smallPages == s.smallPages && s'.clean == s.clean && s'.dirty == s.dirty && s'.tiles == s.tiles
    && s'.chunks == s.chunks[c := Chunk(s.chunks[c].pages, s.chunks[c].ndirty, true)]
    && s'.chunksDirty == (if s.chunks[c].dirtied then s.chunksDirty else s.chunksDirty + [c])
  }

  lemma ListKeeps(s: State, s': State, c: int)
    requires c in s.chunks && Agree(s, None) && Counted(s) && Listed(s, Some(c)) && ListStep(s, s', c)
    ensures Agree(s', None) && Counted(s') && Listed(s', None)
    ensures SameAllocs(s, s')
  {
    forall d ensures d in s'.chunksDirty <==> d in s'.chunks && s'.chunks[d].dirtied {
      assert d in s.chunksDirty <==> d in s.chunks && s.chunks[d].dirtied;
    }
    TreesKept(s, s');
  }

  /** Trees only depend on the runs and the spare. */
  lemma TreesKept(s: State, s': State)
    requires TreesOk(s, None) && SmallOk(s)
    requires s'.clean == s.clean && s'.dirty == s.dirty && s'.tiles == s.tiles && s'.spare == s.spare && s'.smallPages == s.smallPages
    ensures TreesOk(s', None) && SmallOk(s')
  {
    forall r: Run ensures r in s'.clean <==> ShouldHold(r, s', false, None) {
      assert r in s.clean <==> ShouldHold(r, s, false, None);
    }
    forall r: Run ensures r in s'.dirty <==> ShouldHold(r, s', true, None) {
      assert r in s.dirty <==> ShouldHold(r, s, true, None);
    }
    forall d, k | d in s'.tiles ensures SmallAt(s', d, k) {
      assert SmallAt(s, d, k);
    }
  }

  // ----- a wholly free chunk becomes the spare -----

  /** Without its last run, which was free, a coalesced tiling ends in one that
      does not merge with what takes its place. */
  lemma LastOff(a: seq<Tile>, p: Tile, f: Tile, v: Tile)
    requires Coalesced(a) && a != [] && p == a[|a| - 1] && Mergeable(p, f) && v.kind == Free && v.dirty == f.dirty
    ensures var rest := a[..|a| - 1]; Coalesced(rest) && (rest != [] ==> !Mergeable(rest[|rest| - 1], v))
  {
    var rest := a[..|a| - 1];
    assert forall k :: 0 <= k < |rest| ==> rest[k] == a[k];
  }

  /** arena_chunk_dealloc: `c` becomes the spare; the spare before it, if any,
      is given back to the system. */
  ghost predicate SpareStep(s: State, s': State, c: int)
    requires WholeAt(s, c) && (s.spare.Some? ==> s.spare.value in s.chunks)
  {
    var f := s.tiles[c][0];
    var r := Run(f.n, c, 0);
    && s'.npages == s.npages && s'.spare == Some(c) && s'.nactive == s.nactive && s'.smallPages == s.smallPages
    && s'.clean == (if f.dirty then s.clean else s.clean - {r})
    && s'.dirty == (if f.dirty then s.dirty - {r} else s.dirty)
    && match s.spare
       case None => s'.chunks == s.chunks && s'.tiles == s.tiles && s'.chunksDirty == s.chunksDirty && s'.ndirty == s.ndirty
       case Some(d) =>
         && s'.chunks == s.chunks - {d} && s'.tiles == s.tiles - {d}
         && s'.chunksDirty == (if s.chunks[d].dirtied then Without(s.chunksDirty, d) else s.chunksDirty)
         && s'.ndirty == s.ndirty - (if s.chunks[d].dirtied then s.chunks[d].ndirty else 0)
  }

  ghost predicate WholeAt(s: State, c: int) {
    c in s.tiles && WholeFree(s.tiles[c])
  }

  lemma SpareAgrees(s: State, s': State, c: int)
    requires WholeAt(s, c) && s.spare != Some(c) && Agree(s, None) && Counted(s) && Listed(s, None) && SpareStep(s, s', c)
    ensures Agree(s', None) && Counted(s') && Listed(s', None) && SameAllocs(s, s')
  {
    StartEntry(s.tiles[c], s.chunks[c].pages, 0);
    SingleRun(s.tiles[c]);
    if s.spare.Some? { SingleRun(s.tiles[s.spare.value]); }
    SpareList(s, s', c);
    SpareTrees(s, s', c);
    SpareCounts(s, s', c);
  }

  lemma SpareList(s: State, s': State, c: int)
    requires WholeAt(s, c) && s.spare != Some(c) && MapsOk(s) && ListOk(s) && SpareOk(s) && SpareStep(s, s', c)
    ensures ListOk(s') && MapsOk(s') && SpareOk(s')
  {
    if s.spare.Some? {
      var d := s.spare.value;
      WithoutOk(s.chunksDirty, d);
      forall e ensures e in s'.chunksDirty <==> e in s'.chunks && s'.chunks[e].dirtied {
        assert e in s.chunksDirty <==> e in s.chunks && s.chunks[e].dirtied;
      }
    }
  }

  lemma SingleRun(ts: seq<Tile>)
    requires WholeFree(ts)
    ensures forall j :: At(ts, j) == if j == 0 then Some(ts[0]) else None
    ensures Count(ts, false) == 0 && Pages(ts) == ts[0].n && Count(ts, true) == if ts[0].dirty then ts[0].n else 0
  {
    assert ts[1..] == [];
    assert ts == [ts[0]];
    SingleAt(ts[0]);
    CountOne(ts[0]);
  }

  lemma SpareTrees(s: State, s': State, c: int)
    requires WholeAt(s, c) && s.spare != Some(c) && TreesOk(s, None) && SmallOk(s) && SpareOk(s)
    requires s.chunks.Keys == s.tiles.Keys && SpareStep(s, s', c)
    requires forall j :: At(s.tiles[c], j) == if j == 0 then Some(s.tiles[c][0]) else None
    ensures TreesOk(s', None) && SmallOk(s')
  {
    forall r: Run ensures r in s'.clean <==> ShouldHold(r, s', false, None) {
      assert r in s.clean <==> ShouldHold(r, s, false, None);
    }
    forall r: Run ensures r in s'.dirty <==> ShouldHold(r, s', true, None) {
      assert r in s.dirty <==> ShouldHold(r, s, true, None);
    }
    forall d, k | d in s'.tiles ensures SmallAt(s', d, k) {
      assert SmallAt(s, d, k);
    }
  }

  lemma SpareCounts(s: State, s': State, c: int)
    requires WholeAt(s, c) && Counted(s) && Listed(s, None) && SpareOk(s) && SpareStep(s, s', c)
    requires s.spare.Some? ==> Count(s.tiles[s.spare.value], false) == 0
    ensures Counted(s') && Listed(s', None)
  {
    if s.spare.Some? {
      TotalAt(s.tiles, s.spare.value, false);
      TotalAt(s.tiles, s.spare.value, true);
    }
  }

  lemma PagesZero(ts: seq<Tile>)
    requires Positive(ts) && Pages(ts) == 0
    ensures ts == []
  {
  }

  /** What the first entry of a page map says about a wholly free chunk. */
  lemma WholeEntry(ts: seq<Tile>, m: seq<Entry>)
    requires Encodes(ts, m) && |m| >= 1
    ensures WholeFree(ts) <==> m[0].num == |m| && !m[0].alloc
  {
    assert ts != [];
    assert [] + ts == ts;
    NextEntry([], ts, m);
    var rest := ts[1..];
    assert ts == [ts[0]] + rest;
    if m[0].num == |m| && !m[0].alloc {
      EncodesLengths(ts, m, 0);
      assert forall k :: 0 <= k < |rest| ==> rest[k] == ts[k + 1];
      PagesZero(rest);
    } else if WholeFree(ts) {
      SingleRun(ts);
    }
  }

  // ----- the whole operation -----

  /** The run at page `i` of chunk `c` is not allocated any more; all other
      allocated runs are. */
  ghost predicate OneLess(s: State, s': State, c: int, i: int) {
    forall d, j :: AllocAt(s', d, j) == if d == c && j == i then None else AllocAt(s, d, j)
  }

  /** The run is free and coalesced. */
  ghost predicate GivenBack(s: State, s': State, c: int, i: int, dirty: bool)
    requires AllocRun(s, c, i)
  {
    var n := At(s.tiles[c], i).value.n;
    && s'.npages == s.npages && s'.spare == s.spare && (!dirty ==> s'.chunksDirty == s.chunksDirty) && s'.smallPages == s.smallPages
    && s'.nactive == s.nactive - n && s'.ndirty == s.ndirty + (if dirty then n else 0)
    && c in s'.tiles && s'.tiles == s.tiles[c := s'.tiles[c]] && Coalesced(s'.tiles[c])
    && OneLess(s, s', c, i) && DirtyBut(s, s', c, i, i + n, dirty)
  }

  lemma FreeAllocs(s: State, s': State, c: int, i: int, dirty: bool)
    requires MapsOk(s) && AllocRun(s, c, i) && c in s.chunks && FreeStep(s, s', c, i, dirty)
    ensures OneLess(s, s', c, i)
  {
    EncodesLengths(s.tiles[c], s.chunks[c].pages, 0);
    SubstOne(s.tiles[c], i, Tile(Free, dirty, At(s.tiles[c], i).value.n));
  }

  lemma BackAgain(s0: State, s1: State, s2: State, s3: State, s4: State, c: int, i: int, dirty: bool, f: Tile, k: int)
    requires MapsOk(s0) && AllocRun(s0, c, i) && c in s0.chunks && FreeStep(s0, s1, c, i, dirty)
    requires Regrouped(s1, s2, c) && Regrouped(s2, s3, c) && InsertStep(s3, s4, c, k, f)
    requires Coalesced(s4.tiles[c])
    ensures GivenBack(s0, s4, c, i, dirty)
  {
    FreeAllocs(s0, s1, c, i, dirty);
    var n := At(s0.tiles[c], i).value.n;
    FreedDirty(s0, s1, c, i, Tile(Free, dirty, n));
    SameAfterDirty(s0, s1, s2, c, i, i + n, dirty);
    SameAfterDirty(s0, s2, s3, c, i, i + n, dirty);
    DirtyFewer(s0, s3, s4, c, i, i + n, dirty);
    assert s4.tiles == s3.tiles == s2.tiles[c := s3.tiles[c]];
    assert SameAllocs(s3, s4);
  }

  /** What arena_run_dalloc does to the rest: if the chunk became wholly free
      it is the spare now, and the spare before it is gone. */
  ghost predicate Freed(s: State, s': State, c: int, i: int, dirty: bool)
    requires AllocRun(s, c, i)
  {
    var n := At(s.tiles[c], i).value.n;
    var evicted := s'.spare != s.spare && s.spare.Some?;
    && s'.npages == s.npages && s'.smallPages == s.smallPages
    && OneLess(s, s', c, i) && DirtyBut(s, s', c, i, i + n, dirty)
    && s'.nactive == s.nactive - n
    && (s'.spare == s.spare || s'.spare == Some(c))
    && (evicted ==> s.spare.value in s.tiles && s.spare.value != c)
    && s'.tiles.Keys == s.tiles.Keys - (if evicted then {s.spare.value} else {})
    && (forall d :: d in s'.tiles && d != c ==> s'.tiles[d] == s.tiles[d])
    && s'.ndirty == s.ndirty + (if dirty then n else 0) - (if evicted then Count(s.tiles[s.spare.value], true) else 0)
    && (!dirty ==> |s'.chunksDirty| <= |s.chunksDirty|)
  }

  ghost predicate Sound(s: State) {
    Agree(s, None) && Counted(s) && Listed(s, None) && Settled(s)
  }

  ghost predicate MaybeSpare(s: State, s': State, c: int)
    requires s.spare.Some? ==> s.spare.value in s.chunks
  {
    if WholeAt(s, c) then SpareStep(s, s', c) else s' == s
  }

  lemma BackListed(s0: State, s1: State, s2: State, c: int, i: int)
    requires AllocRun(s0, c, i) && GivenBack(s0, s1, c, i, true) && c in s1.chunks && ListStep(s1, s2, c)
    ensures GivenBack(s0, s2, c, i, true)
  {
    OneLessAfter(s0, s1, s2, c, i);
    DirtyFewer(s0, s1, s2, c, i, i + At(s0.tiles[c], i).value.n, true);
  }

  lemma SameAllocsTwice(s: State, s1: State, s2: State)
    requires SameAllocs(s, s1) && SameAllocs(s1, s2)
    ensures SameAllocs(s, s2)
  {
  }

  lemma OneLessAfter(s: State, s1: State, s2: State, c: int, i: int)
    requires OneLess(s, s1, c, i) && SameAllocs(s1, s2)
    ensures OneLess(s, s2, c, i)
  {
  }

  lemma FreedAll(s: State, s1: State, s2: State, c: int, i: int, dirty: bool)
    requires Sound(s) && AllocRun(s, c, i) && GivenBack(s, s1, c, i, dirty)
    requires s1.chunks.Keys == s1.tiles.Keys && Listed(s1, None) && Counted(s1) && s1.spare != Some(c) && SpareOk(s1)
    requires MaybeSpare(s1, s2, c) && SameAllocs(s1, s2)
    ensures Settled(s2) && Freed(s, s2, c, i, dirty)
  {
    FreedSettled(s, s1, s2, c);
    FreedRest(s, s1, s2, c, i, dirty);
  }

  lemma FreedRest(s: State, s1: State, s2: State, c: int, i: int, dirty: bool)
    requires SpareOk(s) && AllocRun(s, c, i) && GivenBack(s, s1, c, i, dirty) && s1.spare != Some(c)
    requires Listed(s1, None) && Counted(s1) && SpareOk(s1) && MaybeSpare(s1, s2, c) && SameAllocs(s1, s2)
    ensures Freed(s, s2, c, i, dirty)
  {
    OneLessAfter(s, s1, s2, c, i);
    SpareDirty(s, s1, s2, c, i, i + At(s.tiles[c], i).value.n, dirty);
    SpareTiles(s, s1, s2, c);
  }

  /** Which chunks there are afterwards. */
  lemma SpareTiles(s: State, s1: State, s2: State, c: int)
    requires s1.spare == s.spare != Some(c) && c in s1.tiles && s1.tiles == s.tiles[c := s1.tiles[c]] && c in s.tiles
    requires SpareOk(s) && (s1.spare.Some? ==> s1.spare.value in s1.chunks) && MaybeSpare(s1, s2, c)
    ensures var gone := if s2.spare != s.spare && s.spare.Some? then {s.spare.value} else {};
            && s2.tiles.Keys == s.tiles.Keys - gone && (forall d :: d in s2.tiles && d != c ==> s2.tiles[d] == s.tiles[d])
            && (gone != {} ==> s.spare.value in s1.tiles && s1.tiles[s.spare.value] == s.tiles[s.spare.value])
    ensures s2.spare == s.spare || s2.spare == Some(c)
  {
    if s.spare.Some? {
      assert s.spare.value in s1.tiles && s1.tiles[s.spare.value] == s.tiles[s.spare.value];
    }
  }

  lemma SpareDirty(s: State, s1: State, s2: State, c: int, i: int, j: int, dirty: bool)
    requires DirtyBut(s, s1, c, i, j, dirty) && c in s1.tiles && s1.spare != Some(c)
    requires (s1.spare.Some? ==> s1.spare.value in s1.chunks) && MaybeSpare(s1, s2, c)
    ensures DirtyBut(s, s2, c, i, j, dirty)
  {
    DirtyFewer(s, s1, s2, c, i, j, dirty);
  }

  /** A chunk goes to the end of the list, if it is not on it. */
  function Listing(l: seq<int>, c: int): seq<int> {
    if c in l then l else l + [c]
  }

  /** The list afterwards: the chunk of a dirty run is on it, a chunk that went
      back to the system is not, and there is no other change. */
  ghost predicate Relisted(s: State, s': State, c: int, dirty: bool) {
    s'.chunksDirty == Kept(if dirty then Listing(s.chunksDirty, c) else s.chunksDirty, s.tiles.Keys - s'.tiles.Keys)
  }

  lemma RelistedNow(s: State, s1: State, s2: State, c: int, dirty: bool)
    requires s1.tiles.Keys == s1.chunks.Keys == s.tiles.Keys && ListOk(s1) && SpareOk(s1)
    requires s1.chunksDirty == (if dirty then Listing(s.chunksDirty, c) else s.chunksDirty) && MaybeSpare(s1, s2, c)
    ensures Relisted(s, s2, c, dirty)
  {
    var gone := s.tiles.Keys - s2.tiles.Keys;
    if WholeAt(s1, c) && s1.spare.Some? {
      var d := s1.spare.value;
      assert gone == {d};
      if s1.chunks[d].dirtied {
        WithoutKept(s1.chunksDirty, d);
      } else {
        assert d !in s1.chunksDirty;
        KeptAll(s1.chunksDirty, {d});
      }
    } else {
      assert gone == {};
      KeptAll(s1.chunksDirty, {});
    }
  }

  lemma FreedNotDirtier(s: State, s': State, c: int, i: int)
    requires AllocRun(s, c, i) && Freed(s, s', c, i, false)
    ensures NotDirtier(s, s')
  {
  }

  lemma FreedSettled(s0: State, s2: State, s3: State, c: int)
    requires Settled(s0) && c in s0.tiles && c in s2.tiles && s2.tiles == s0.tiles[c := s2.tiles[c]] && Coalesced(s2.tiles[c])
    requires s2.spare == s0.spare && s2.spare != Some(c)
    requires s2.chunks.Keys == s2.tiles.Keys && SpareOk(s2)
    requires MaybeSpare(s2, s3, c)
    ensures Settled(s3)
  {
    forall d | d in s3.tiles ensures Coalesced(s3.tiles[d]) && (WholeFree(s3.tiles[d]) ==> s3.spare == Some(d)) {
      assert s3.tiles[d] == s2.tiles[d];
      if d != c { assert s2.tiles[d] == s0.tiles[d]; }
    }
  }
}
