/** The page-run layer of an arena (arena.c): runs are split off free runs,
    given back, trimmed and grown in place, and dirty free pages are purged.
    The page maps, the two trees of free runs, the chunk list and the counters
    are updated separately and must always agree. */
module ArenaRuns {
  import opened Wrappers
  import opened PageTiles
  import opened ArenaTotals
  import opened ArenaState
  import opened ArenaDirty
  import opened ArenaList
  import opened ArenaCoalesce
  import opened ArenaAlloc
  import opened ArenaPurge
  import opened ArenaTurn
  import opened ArenaLarge
  import Division

  /** The lowest best fit: the least element that is long enough. */
  method NSearch(avail: set<Run>, n: nat) returns (r: Option<Run>)
    ensures r == None ==> NoFit(avail, n)
    ensures r.Some? ==> BestFit(avail, n, r.value)
  {
    r := None;
    var rest := avail;
    while rest != {}
      invariant rest <= avail
      invariant r == None ==> forall x :: x in avail - rest ==> x.n < n
      invariant r.Some? ==> r.value in avail - rest && r.value.n >= n
                            && forall x :: x in avail - rest && x.n >= n && x != r.value ==> Before(r.value, x)
      decreases rest
    {
      var x :| x in rest;
      rest := rest - {x};
      if x.n >= n && (r == None || Before(x, r.value)) {
        r := Some(x);
      }
    }
  }

  class Arena {
    /** Pages of a chunk: those of its header (map_bias), those that can hold
        runs (arena_maxclass), and all. */
    const mapBias: nat
    const npages: nat
    const chunkNpages: nat := mapBias + npages

    /** opt_lg_dirty_mult; negative switches purging off. */
    const lgDirtyMult: int

    var chunks: map<int, Chunk>
    var chunksDirty: seq<int>
    var spare: Option<int>
    var nactive: int
    var ndirty: int
    var npurgatory: int
    var availClean: set<Run>
    var availDirty: set<Run>

    /** The run header of each small run: its length, through its bin. */
    var smallPages: map<(int, int), nat>

    /** The runs that each page map encodes. */
    ghost var tiles: map<int, seq<Tile>>

    ghost function S(): State
      reads this
    {
      State(npages, chunks, chunksDirty, spare, nactive, ndirty, availClean, availDirty, smallPages, tiles)
    }

    ghost predicate Valid()
      reads this
    {
      Sound(S())
    }

    // ----- trees of free runs -----

    method AvailRemove(dirty: bool, r: Run)
      requires InOrder(S())
      requires r in if dirty then availDirty else availClean
      modifies this`availClean, this`availDirty
      ensures S() == old(if dirty then S().(dirty := availDirty - {r}) else S().(clean := availClean - {r}))
    {
      if dirty {
        availDirty := availDirty - {r};
      } else {
        availClean := availClean - {r};
      }
    }

    method AvailInsert(dirty: bool, r: Run)
      requires InOrder(S())
      requires r !in if dirty then availDirty else availClean
      modifies this`availClean, this`availDirty
      ensures S() == old(if dirty then S().(dirty := availDirty + {r}) else S().(clean := availClean + {r}))
    {
      if dirty {
        availDirty := availDirty + {r};
      } else {
        availClean := availClean + {r};
      }
    }

    // ----- splitting -----

    /** First half of arena_run_split: the run leaves its tree, and what is not
        needed of it goes back. */
    method SplitTrees(c: int, i: int, need: nat)
      requires Agree(S(), None) && FreeRun(S(), c, i) && spare != Some(c) && 1 <= need <= At(tiles[c], i).value.n
      modifies this`chunks, this`availClean, this`availDirty
      ensures var t := old(At(tiles[c], i).value); var ch := old(chunks[c]);
              && i >= 0 && i + t.n <= |ch.pages|
              && chunks == old(chunks)[c := ch.(pages := MarkRest(ch.pages, i, need, t.n, t.dirty))]
              && (var gone, rest := Run(t.n, c, i), if need < t.n then {Run(t.n - need, c, i + need)} else {};
                  && availDirty == (if t.dirty then old(availDirty) - {gone} + rest else old(availDirty))
                  && availClean == (if t.dirty then old(availClean) else old(availClean) - {gone} + rest))
    {
      StartEntry(tiles[c], chunks[c].pages, i);
      AgreeInOrder(S(), None);
      TreesElsewhere(S(), None, c, i);
      var ch := chunks[c];
      var dirty, total := ch.pages[i].dirty, ch.pages[i].num;
      assert ShouldHold(Run(total, c, i), S(), dirty, None);
      AvailRemove(dirty, Run(total, c, i));
      if need < total {
        var ch' := ch.(pages := MarkRest(ch.pages, i, need, total, dirty));
        OrderedElsewhere(availClean, chunks, false, c, ch', i, i + total);
        OrderedElsewhere(availDirty, chunks, true, c, ch', i, i + total);
        chunks := chunks[c := ch'];
        TwoStarts(tiles[c], i, At(tiles[c], i).value, Large, need, Subst(tiles[c], i, SplitTiles(Large, dirty, need, total)));
        AvailInsert(dirty, Run(total - need, c, i + need));
      }
    }

    /** Second half of arena_run_split: the page map of the allocated part. */
    method SplitMark(c: int, i: int, need: nat, large: bool, pages0: seq<Entry>)
      requires c in chunks && c in tiles && Encodes(tiles[c], pages0)
      requires At(tiles[c], i).Some? && At(tiles[c], i).value.kind == Free && 1 <= need <= At(tiles[c], i).value.n
      requires var t := At(tiles[c], i).value; i >= 0 && i + t.n <= |pages0| && chunks[c].pages == MarkRest(pages0, i, need, t.n, t.dirty)
      modifies this`chunks, this`ndirty, this`smallPages
      ensures var t := At(tiles[c], i).value; var k := if large then Large else Small; var less := if t.dirty then need else 0;
              && c in chunks && chunks == old(chunks)[c := chunks[c]]
              && |chunks[c].pages| == |pages0| && Encodes(Subst(tiles[c], i, SplitTiles(k, t.dirty, need, t.n)), chunks[c].pages)
              && chunks[c].ndirty == old(chunks[c].ndirty) - less && chunks[c].dirtied == old(chunks[c].dirtied)
              && ndirty == old(ndirty) - less
              && smallPages == if large then old(smallPages) else old(smallPages)[(c, i) := need]
    {
      StartEntry(tiles[c], pages0, i);
      var ch := chunks[c];
      var less := if pages0[i].dirty then need else 0;
      var pages := SplitAt(pages0, ch.pages, i, need, large, tiles[c]);
      ndirty := ndirty - less;
      chunks := chunks[c := Chunk(pages, ch.ndirty - less, ch.dirtied)];
      if !large {
        smallPages := smallPages[(c, i) := need];
      }
    }

    method SplitFields(c: int, i: int, need: nat, large: bool)
      requires Agree(S(), None) && FreeRun(S(), c, i) && spare != Some(c) && 1 <= need <= At(tiles[c], i).value.n
      modifies this`chunks, this`availClean, this`availDirty, this`nactive, this`ndirty, this`smallPages, this`tiles
      ensures SplitStep(old(S()), S(), c, i, need, if large then Large else Small)
      ensures ChunkOk(chunks[c], tiles[c], npages)
    {
      ghost var t := At(tiles[c], i).value;
      var pages0 := chunks[c].pages;
      SplitTrees(c, i, need);
      nactive := nactive + need;
      SplitMark(c, i, need, large, pages0);
      tiles := tiles[c := Subst(tiles[c], i, SplitTiles(if large then Large else Small, t.dirty, need, t.n))];
    }

    /** arena_run_split: the first `need` pages of a free run become an
        allocated run, the others stay free. */
    method RunSplit(c: int, i: int, need: nat, large: bool)
      requires Agree(S(), None) && Counted(S()) && Listed(S(), None) && FreeRun(S(), c, i) && spare != Some(c) && 1 <= need <= At(tiles[c], i).value.n
      modifies this`chunks, this`availClean, this`availDirty, this`nactive, this`ndirty, this`smallPages, this`tiles
      ensures Agree(S(), None) && Counted(S()) && Listed(S(), None)
      ensures SplitStep(old(S()), S(), c, i, need, if large then Large else Small)
    {
      ghost var s := S();
      SplitFields(c, i, need, large);
      SplitAgrees(s, S(), c, i, need, if large then Large else Small);
      SplitCounted(s, S(), c, i, need, if large then Large else Small);
    }

    // ----- giving a run back -----

    /** First part of arena_run_dalloc: the length of the run, whether it is
        dirty, the counters, and its entries in the page map. */
    method FreeFields(c: int, i: int, dirtied: bool) returns (n: nat, dirty: bool)
      requires Agree(S(), None) && AllocRun(S(), c, i)
      modifies this`chunks, this`nactive, this`ndirty, this`tiles
      ensures var t := old(At(tiles[c], i).value); n == t.n && dirty == (dirtied || t.dirty)
      ensures FreeStep(old(S()), S(), c, i, dirty) && ChunkOk(chunks[c], tiles[c], npages)
    {
      ghost var t := At(tiles[c], i).value;
      ghost var a, b := Locate(tiles[c], i);
      StartEntry(tiles[c], chunks[c].pages, i);
      PositiveParts(a, t, b);
      var ch := chunks[c];
      assert SmallAt(S(), c, i);
      n := if ch.pages[i].large then ch.pages[i].num else smallPages[(c, i)];
      nactive := nactive - n;
      dirty := dirtied || ch.pages[i].dirty;
      MarkFreeOk(a, t, b, ch.pages, dirty);
      SubstAround(a, t, b, [Tile(Free, dirty, n)]);
      var more := if dirty then n else 0;
      chunks := chunks[c := Chunk(MarkFree(ch.pages, i, n, dirty), ch.ndirty + more, ch.dirtied)];
      ndirty := ndirty + more;
      tiles := tiles[c := Subst(tiles[c], i, [Tile(Free, dirty, n)])];
    }

    /** Two neighbouring free runs become one; `gone` is the one in a tree. */
    method MergeFields(c: int, i: nat, n: nat, dirty: bool, gone: Run, ghost a: seq<Tile>, ghost t: Tile, ghost u: Tile, ghost b: seq<Tile>)
      requires c in tiles && c in chunks && tiles[c] == a + [t, u] + b && Mergeable(t, u) && dirty == t.dirty
      requires MapsOk(S()) && InOrder(S()) && i == Pages(a) && n == t.n + u.n
      requires gone in if dirty then availDirty else availClean
      modifies this`chunks, this`availClean, this`availDirty, this`tiles
      ensures MergeStep(old(S()), S(), c, a, t, u, b, gone) && ChunkOk(chunks[c], tiles[c], npages)
    {
      AvailRemove(dirty, gone);
      var ch := chunks[c];
      MarkMergedOk(a, t, u, b, ch.pages);
      chunks := chunks[c := Chunk(MarkMerged(ch.pages, i, n), ch.ndirty, ch.dirtied)];
      tiles := tiles[c := a + [Tile(Free, t.dirty, t.n + u.n)] + b];
    }

    method Merge(c: int, i: nat, n: nat, dirty: bool, gone: Run, ghost a: seq<Tile>, ghost t: Tile, ghost u: Tile, ghost b: seq<Tile>, ghost first: bool, ghost late: Option<int>)
      requires c in tiles && c in chunks && tiles[c] == a + [t, u] + b && Mergeable(t, u) && dirty == t.dirty
      requires i == Pages(a) && n == t.n + u.n && gone == if first then Run(u.n, c, i + t.n) else Run(t.n, c, i)
      requires Agree(S(), Some((c, if first then i else i + t.n))) && spare != Some(c) && Counted(S()) && Listed(S(), late)
      modifies this`chunks, this`availClean, this`availDirty, this`tiles
      ensures Pending(S(), c, a, Tile(Free, dirty, n), b) && Counted(S()) && Listed(S(), late)
      ensures Regrouped(old(S()), S(), c)
    {
      ghost var s := S();
      OneIsHeld(s, c, a, t, u, b, first, i);
      MergeFields(c, i, n, dirty, gone, a, t, u, b);
      MergeDone(s, S(), c, a, t, u, b, first, i, late);
    }

    method CoalesceForward(c: int, i: nat, n: nat, dirty: bool, ghost a: seq<Tile>, ghost b: seq<Tile>, ghost late: Option<int>)
      returns (total: nat, ghost rest: seq<Tile>)
      requires Pending(S(), c, a, Tile(Free, dirty, n), b) && i == Pages(a) && Counted(S()) && Listed(S(), late) && Coalesced(b)
      modifies this`chunks, this`availClean, this`availDirty, this`tiles
      ensures Pending(S(), c, a, Tile(Free, dirty, total), rest) && Counted(S()) && Listed(S(), late)
      ensures Regrouped(old(S()), S(), c)
      ensures Coalesced(rest) && (rest != [] ==> !Mergeable(Tile(Free, dirty, total), rest[0]))
    {
      ghost var f := Tile(Free, dirty, n);
      total, rest := n, b;
      var pages := chunks[c].pages;
      TheTile(a, f, b, pages);
      PagesAppend(a, [f]);
      OneTile(f, pages, i);
      if i + n < npages {
        NextEntry(a + [f], b, pages);
        var e := pages[i + n];
        if !e.alloc && e.dirty == dirty {
          ghost var u := b[0];
          rest := b[1..];
          assert a + [f] + b == a + [f, u] + rest;
          total := n + e.num;
          Merge(c, i, total, dirty, Run(e.num, c, i + n), a, f, u, rest, true, late);
          assert forall k :: 0 <= k < |rest| ==> rest[k] == b[k + 1];
        }
      } else {
        EncodesLengths(tiles[c], pages, 0);
        PositiveParts(a, f, b);
        PagesZero(b);
      }
    }

    method CoalesceBackward(c: int, i: nat, n: nat, dirty: bool, ghost a: seq<Tile>, ghost b: seq<Tile>, ghost late: Option<int>)
      returns (start: nat, total: nat, ghost rest: seq<Tile>)
      requires Pending(S(), c, a, Tile(Free, dirty, n), b) && i == Pages(a) && Counted(S()) && Listed(S(), late) && Coalesced(a)
      modifies this`chunks, this`availClean, this`availDirty, this`tiles
      ensures start == Pages(rest) && Pending(S(), c, rest, Tile(Free, dirty, total), b) && Counted(S()) && Listed(S(), late)
      ensures Regrouped(old(S()), S(), c)
      ensures Coalesced(rest) && (rest != [] ==> !Mergeable(rest[|rest| - 1], Tile(Free, dirty, total)))
    {
      ghost var f := Tile(Free, dirty, n);
      start, total, rest := i, n, a;
      if i > 0 {
        var pages := chunks[c].pages;
        assert a + [f] + b == a + ([f] + b);
        PreviousEntry(a, [f] + b, pages);
        var e := pages[i - 1];
        if !e.alloc && e.dirty == dirty {
          ghost var p := a[|a| - 1];
          rest := a[..|a| - 1];
          assert a + [f] + b == rest + [p, f] + b;
          start, total := i - e.num, n + e.num;
          LastOff(a, p, f, Tile(Free, dirty, total));
          Merge(c, start, total, dirty, Run(e.num, c, start), rest, p, f, b, false, late);
        }
      }
    }

    /** The coalesced run goes into its tree. */
    method InsertFree(c: int, i: nat, n: nat, dirty: bool, ghost a: seq<Tile>, ghost b: seq<Tile>)
      requires Pending(S(), c, a, Tile(Free, dirty, n), b) && i == Pages(a)
      modifies this`availClean, this`availDirty
      ensures InsertStep(old(S()), S(), c, i, Tile(Free, dirty, n)) && Agree(S(), None)
    {
      ghost var s := S();
      AgreeInOrder(s, Some((c, i)));
      InsertAgrees(s, if dirty then s.(dirty := s.dirty + {Run(n, c, i)}) else s.(clean := s.clean + {Run(n, c, i)}), c, a, Tile(Free, dirty, n), b);
      AvailInsert(dirty, Run(n, c, i));
    }

    /** A chunk with dirty free pages goes on the list. */
    method ListChunk(c: int)
      requires c in chunks && Agree(S(), None) && Counted(S()) && Listed(S(), Some(c))
      modifies this`chunks, this`chunksDirty
      ensures Agree(S(), None) && Counted(S()) && Listed(S(), None)
      ensures ListStep(old(S()), S(), c)
    {
      ghost var s := S();
      var ch := chunks[c];
      if !ch.dirtied {
        chunksDirty := chunksDirty + [c];
        chunks := chunks[c := Chunk(ch.pages, ch.ndirty, true)];
      } else {
        assert chunks == chunks[c := Chunk(ch.pages, ch.ndirty, true)];
      }
      ListKeeps(s, S(), c);
    }

    method Unlist(c: int)
      modifies this`chunksDirty
      ensures chunksDirty == Without(old(chunksDirty), c)
    {
      var k := 0;
      while k < |chunksDirty| && chunksDirty[k] != c
        invariant 0 <= k <= |chunksDirty| && chunksDirty == old(chunksDirty)
        invariant forall j :: 0 <= j < k ==> chunksDirty[j] != c
      {
        k := k + 1;
      }
      WithoutAt(chunksDirty, c, k);
      if k < |chunksDirty| {
        chunksDirty := chunksDirty[..k] + chunksDirty[k + 1..];
      }
    }

    /** The one run of a wholly free chunk leaves its tree. */
    method TakeWhole(c: int)
      requires WholeAt(S(), c) && spare != Some(c) && Agree(S(), None)
      modifies this`availClean, this`availDirty
      ensures availClean == if tiles[c][0].dirty then old(availClean) else old(availClean) - {Run(tiles[c][0].n, c, 0)}
      ensures availDirty == if tiles[c][0].dirty then old(availDirty) - {Run(tiles[c][0].n, c, 0)} else old(availDirty)
    {
      var pages := chunks[c].pages;
      StartEntry(tiles[c], pages, 0);
      SingleRun(tiles[c]);
      AgreeInOrder(S(), None);
      var dirty := pages[0].dirty;
      assert ShouldHold(Run(pages[0].num, c, 0), S(), dirty, None);
      AvailRemove(dirty, Run(pages[0].num, c, 0));
    }

    /** A chunk goes back to the system. */
    method DropChunk(d: int)
      requires d in chunks
      modifies this`chunks, this`chunksDirty, this`ndirty, this`tiles
      ensures chunks == old(chunks) - {d} && tiles == old(tiles) - {d}
      ensures chunksDirty == if old(chunks[d].dirtied) then Without(old(chunksDirty), d) else old(chunksDirty)
      ensures ndirty == old(ndirty) - if old(chunks[d].dirtied) then old(chunks[d].ndirty) else 0
    {
      if chunks[d].dirtied {
        Unlist(d);
        ndirty := ndirty - chunks[d].ndirty;
      }
      chunks := chunks - {d};
      tiles := tiles - {d};
    }

    /** arena_chunk_dealloc: the chunk becomes the spare, and the spare before
        it goes back to the system. */
    method ChunkDealloc(c: int)
      requires WholeAt(S(), c) && spare != Some(c) && Agree(S(), None) && Counted(S()) && Listed(S(), None)
      modifies this`chunks, this`chunksDirty, this`spare, this`ndirty, this`availClean, this`availDirty, this`tiles
      ensures Agree(S(), None) && Counted(S()) && Listed(S(), None)
      ensures old(spare.Some? ==> spare.value in chunks) && SpareStep(old(S()), S(), c) && SameAllocs(old(S()), S())
    {
      ghost var s := S();
      TakeWhole(c);
      if spare.Some? {
        var d := spare.value;
        spare := Some(c);
        DropChunk(d);
      } else {
        spare := Some(c);
      }
      SpareAgrees(s, S(), c);
    }

    /** arena_run_dalloc up to the insertion of the coalesced run. */
    method GiveBack(c: int, i: int, dirtied: bool) returns (dirty: bool)
      requires Valid() && AllocRun(S(), c, i)
      modifies this`chunks, this`nactive, this`ndirty, this`availClean, this`availDirty, this`tiles
      ensures dirty == (dirtied || old(At(tiles[c], i).value.dirty))
      ensures GivenBack(old(S()), S(), c, i, dirty)
      ensures Agree(S(), None) && Counted(S()) && Listed(S(), if dirty then Some(c) else None)
    {
      ghost var s0 := S();
      ghost var t := At(tiles[c], i).value;
      ghost var a, b := Locate(tiles[c], i);
      EncodesLengths(tiles[c], chunks[c].pages, 0);
      PositiveParts(a, t, b);
      CoalescedParts(a, t, b);
      var n;
      n, dirty := FreeFields(c, i, dirtied);
      ghost var s1 := S();
      ghost var late := if dirty then Some(c) else None;
      FreeAgrees(s0, s1, c, i, dirty);
      FreeCounted(s0, s1, c, i, dirty);
      SubstAround(a, t, b, [Tile(Free, dirty, n)]);
      var total; ghost var right;
      total, right := CoalesceForward(c, i, n, dirty, a, b, late);
      ghost var s2 := S();
      var start; ghost var left;
      start, total, left := CoalesceBackward(c, i, total, dirty, a, right, late);
      ghost var s3 := S();
      CoalescedAround(left, Tile(Free, dirty, total), right);
      InsertFree(c, start, total, dirty, left, right);
      BackAgain(s0, s1, s2, s3, S(), c, i, dirty, Tile(Free, dirty, total), start);
    }

    /** The same, with the chunk on the list if the run is dirty. */
    method GiveBackListed(c: int, i: int, dirtied: bool) returns (dirty: bool)
      requires Valid() && AllocRun(S(), c, i)
      modifies this`chunks, this`chunksDirty, this`nactive, this`ndirty, this`availClean, this`availDirty, this`tiles
      ensures dirty == (dirtied || old(At(tiles[c], i).value.dirty))
      ensures GivenBack(old(S()), S(), c, i, dirty) && spare != Some(c)
      ensures Agree(S(), None) && Counted(S()) && Listed(S(), None)
      ensures chunksDirty == if dirty then Listing(old(chunksDirty), c) else old(chunksDirty)
    {
      ghost var s0 := S();
      assert spare != Some(c) by { if spare == Some(c) { SingleRun(tiles[c]); } }
      dirty := GiveBack(c, i, dirtied);
      ghost var s1 := S();
      if dirty {
        ListChunk(c);
        BackListed(s0, s1, S(), c, i);
      }
    }

    /** arena_run_dalloc up to the purge: an allocated run becomes free and
        joins its free neighbours with the same dirty flag. */
    method RunFree(c: int, i: int, dirtied: bool) returns (dirty: bool)
      requires Valid() && AllocRun(S(), c, i)
      modifies this`chunks, this`chunksDirty, this`spare, this`nactive, this`ndirty, this`availClean, this`availDirty, this`tiles
      ensures Valid()
      ensures dirty == (dirtied || old(At(tiles[c], i).value.dirty))
      ensures Freed(old(S()), S(), c, i, dirty) && Relisted(old(S()), S(), c, dirty)
    {
      ghost var s0 := S();
      dirty := GiveBackListed(c, i, dirtied);
      ghost var s2 := S();
      WholeEntry(tiles[c], chunks[c].pages);
      var e := chunks[c].pages[0];
      if e.num == npages && !e.alloc {
        ChunkDealloc(c);
      }
      FreedAll(s0, s2, S(), c, i, dirty);
      RelistedNow(s0, s2, S(), c, dirty);
    }

    // ----- allocating -----

    /** arena_chunk_alloc: the spare, or what the system gives. */
    method ChunkAlloc(given: Option<int>) returns (c: Option<int>)
      requires Valid() && (given.Some? ==> given.value !in chunks)
      modifies this`chunks, this`spare, this`availClean, this`availDirty, this`tiles
      ensures c == if old(spare).Some? then old(spare) else given
      ensures c == None ==> S() == old(S())
      ensures c.Some? ==> WholeAt(S(), c.value) && tiles[c.value][0].n == npages && spare == None
                          && tiles == old(tiles)[c.value := tiles[c.value]]
                          && Agree(S(), None) && Counted(S()) && Listed(S(), None) && SettledBut(S(), c.value)
      ensures SameAllocs(old(S()), S()) && SameDirty(old(S()), S())
    {
      if spare.Some? {
        c := spare;
        Reuse(c.value);
      } else {
        c := given;
        if c.Some? {
          AddChunk(c.value);
        }
      }
    }

    /** The spare chunk goes back into use. */
    method Reuse(c: int)
      requires Valid() && spare == Some(c)
      modifies this`spare, this`availClean, this`availDirty
      ensures WholeAt(S(), c) && tiles[c][0].n == npages && old(WholeAt(S(), c)) && ReuseStep(old(S()), S(), c)
      ensures Agree(S(), None) && Counted(S()) && Listed(S(), None) && SettledBut(S(), c)
    {
      ghost var s := S();
      assert ChunkOk(chunks[c], tiles[c], npages);
      var e := chunks[c].pages[0];
      SingleRun(tiles[c]);
      StartEntry(tiles[c], chunks[c].pages, 0);
      AgreeInOrder(s, None);
      ReuseAgrees(s, if e.dirty then s.(spare := None, dirty := s.dirty + {Run(e.num, c, 0)})
                     else s.(spare := None, clean := s.clean + {Run(e.num, c, 0)}), c);
      spare := None;
      AvailInsert(e.dirty, Run(e.num, c, 0));
    }

    method AddChunk(c: int)
      requires Valid() && c !in chunks && spare == None
      modifies this`chunks, this`availClean, this`tiles
      ensures WholeAt(S(), c) && tiles[c][0].n == npages && tiles == old(tiles)[c := tiles[c]]
      ensures Agree(S(), None) && Counted(S()) && Listed(S(), None) && SettledBut(S(), c)
      ensures SameAllocs(old(S()), S()) && SameDirty(old(S()), S())
    {
      ghost var s := S();
      chunks := chunks[c := Chunk(FreshMap(npages), 0, false)];
      availClean := availClean + {Run(npages, c, 0)};
      tiles := tiles[c := [Tile(Free, false, npages)]];
      FreshAgrees(s, S(), c);
      FreshDirty(s, S(), c, npages);
    }

    /** Splitting a run off, in terms of allocated runs. */
    method Take(c: int, i: int, need: nat, large: bool)
      requires Agree(S(), None) && Counted(S()) && Listed(S(), None) && SettledBut(S(), c)
      requires FreeRun(S(), c, i) && spare != Some(c) && 1 <= need <= At(tiles[c], i).value.n
      modifies this`chunks, this`availClean, this`availDirty, this`nactive, this`ndirty, this`smallPages, this`tiles
      ensures Valid() && spare == old(spare)
      ensures Taken(old(S()), S(), c, i, need, if large then Large else Small)
      ensures AllocAt(S(), c, i).value.dirty == old(At(tiles[c], i).value.dirty)
    {
      ghost var s := S();
      RunSplit(c, i, need, large);
      SplitAllocs(s, S(), c, i, need, if large then Large else Small);
      SplitSettles(s, S(), c, i, need, if large then Large else Small);
      SplitDirty(s, S(), c, i, need, if large then Large else Small);
    }

    method TakeChunk(need: nat, large: bool, given: Option<int>) returns (r: Option<(int, int)>)
      requires Valid() && 1 <= need <= npages && (given.Some? ==> given.value !in chunks)
      modifies this`chunks, this`spare, this`availClean, this`availDirty, this`nactive, this`ndirty, this`smallPages, this`tiles
      ensures Valid()
      ensures r == None <==> given == None && old(spare) == None
      ensures r == None ==> S() == old(S())
      ensures r.Some? ==> r.value.1 == 0 && Some(r.value.0) == (if old(spare).Some? then old(spare) else given)
                          && Taken(old(S()), S(), r.value.0, 0, need, if large then Large else Small)
    {
      ghost var s := S();
      var c := ChunkAlloc(given);
      if c == None {
        r := None;
      } else {
        ghost var s1 := S();
        SingleRun(tiles[c.value]);
        Take(c.value, 0, need, large);
        TakenFromChunk(s, s1, S(), c.value, need, if large then Large else Small);
        r := Some((c.value, 0));
      }
    }

    /** No free run is long enough, and no chunk is to be had. */
    ghost predicate NoRun(need: nat, given: Option<int>)
      reads this
    {
      given == None && spare == None && NoFit(availDirty, need) && NoFit(availClean, need)
    }

    /** arena_run_alloc. */
    method RunAlloc(need: nat, large: bool, given: Option<int>) returns (r: Option<(int, int)>)
      requires Valid() && 1 <= need <= npages && (given.Some? ==> given.value !in chunks)
      modifies this`chunks, this`spare, this`availClean, this`availDirty, this`nactive, this`ndirty, this`smallPages, this`tiles
      ensures Valid()
      ensures r == None <==> old(NoRun(need, given))
      ensures r == None ==> S() == old(S())
      ensures r.Some? ==> Chosen(old(S()), need, r.value.0, r.value.1)
                          && Taken(old(S()), S(), r.value.0, r.value.1, need, if large then Large else Small)
    {
      var fit := NSearch(availDirty, need);
      if fit == None {
        fit := NSearch(availClean, need);
      }
      if fit.Some? {
        var run := fit.value;
        assert ShouldHold(run, S(), run in availDirty, None);
        Take(run.c, run.i, need, large);
        r := Some((run.c, run.i));
      } else {
        r := TakeChunk(need, large, given);
      }
    }

    // ----- purging -----

    /** One dirty free run is allocated for the time of the purge. */
    method PurgeOne(c: int, i: nat, n: nat, ghost k: nat)
      requires Agree(S(), None) && CountedBut(S(), c, k) && Listed(S(), None) && spare != Some(c) && DirtyRun(S(), c, i, n)
      modifies this`chunks, this`availDirty, this`nactive, this`tiles
      ensures Agree(S(), None) && CountedBut(S(), c, k + n) && Listed(S(), None)
      ensures MarkStep(old(S()), S(), c, i, n)
    {
      ghost var s := S();
      PurgeFields(c, i, n);
      MarkAgrees(s, S(), c, i, n);
      MarkCounted(s, S(), c, i, n, k);
    }

    method PurgeFields(c: int, i: nat, n: nat)
      requires Agree(S(), None) && spare != Some(c) && DirtyRun(S(), c, i, n)
      modifies this`chunks, this`availDirty, this`nactive, this`tiles
      ensures MarkStep(old(S()), S(), c, i, n) && ChunkOk(chunks[c], tiles[c], npages)
    {
      assert ShouldHold(Run(n, c, i), S(), true, None);
      availDirty := availDirty - {Run(n, c, i)};
      var ch := chunks[c];
      ghost var t, v := Tile(Free, true, n), Tile(Large, false, n);
      ghost var a, b := Locate(tiles[c], i);
      StartEntry(tiles[c], ch.pages, i);
      var pages := MarkPurging(ch.pages, i, n);
      OneToOne(a, t, v, b, ch.pages, pages);
      PositiveParts(a, t, b);
      SubstAround(a, t, b, [v]);
      chunks := chunks[c := Chunk(pages, ch.ndirty, ch.dirtied)];
      nactive := nactive + n;
      tiles := tiles[c := Subst(tiles[c], i, [v])];
    }

    /** One step of the walk over the page map. */
    method MarkNext(c: int, p: nat, elms: seq<Run>, ghost front: seq<Tile>, ghost back: seq<Tile>)
      returns (n: nat, elms': seq<Run>, ghost v: Tile)
      requires Agree(S(), None) && CountedBut(S(), c, Sum(elms)) && Listed(S(), None) && spare != Some(c)
      requires c in tiles && tiles[c] == front + back && back != [] && p == Pages(front) && Coalesced(tiles[c])
      modifies this`chunks, this`availDirty, this`nactive, this`tiles
      ensures MarkedNext(old(S()), S(), c, p, n, elms, elms', front, back, v)
    {
      var pages := chunks[c].pages;
      RunAt(front, back, pages);
      var e := pages[p];
      v := back[0];
      elms' := elms;
      if !e.alloc {
        n := e.num;
        if e.dirty {
          ghost var s := S();
          v := Tile(Large, false, n);
          SubstAround(front, back[0], back[1..], [v]);
          ReplacedCoalesced(front, back[0], v, back[1..]);
          PurgeOne(c, p, n, Sum(elms));
          MarkAllocs(s, S(), c, p, n);
          SumAppend(elms, Run(n, c, p));
          elms' := elms + [Run(n, c, p)];
          PagesAppend(front, [v]);
          SingleAt(v);
        }
      } else if e.large {
        n := e.num;
      } else {
        assert SmallAt(S(), c, p);
        n := smallPages[(c, p)];
      }
    }

    method WalkStep(c: int, p: nat, elms: seq<Run>, ghost held: map<int, nat>, ghost front: seq<Tile>, ghost back: seq<Tile>, ghost s: State)
      returns (n: nat, elms': seq<Run>, ghost held': map<int, nat>, ghost v: Tile)
      requires Walked(s, S(), c, elms, held, front, back) && p == Pages(front) && back != []
      modifies this`chunks, this`availDirty, this`nactive, this`tiles
      ensures Walked(s, S(), c, elms', held', front + [v], back[1..]) && p + n == Pages(front + [v]) && n >= 1
    {
      ghost var s1 := S();
      n, elms', v := MarkNext(c, p, elms, front, back);
      held' := if elms' == elms then held else held[p := n];
      WalkedNext(s, s1, S(), c, p, n, elms, elms', held, front, back, v);
    }

    /** arena_chunk_purge, first loop: the dirty free runs of the chunk are
        allocated, and listed. */
    method MarkDirtyRuns(c: int) returns (elms: seq<Run>, ghost held: map<int, nat>)
      requires Agree(S(), None) && Counted(S()) && Listed(S(), None) && spare != Some(c) && c in chunks && Coalesced(tiles[c])
      modifies this`chunks, this`availDirty, this`nactive, this`tiles
      ensures c in tiles && Walked(old(S()), S(), c, elms, held, tiles[c], []) && Count(tiles[c], true) == 0
    {
      ghost var s := S();
      elms, held := [], map[];
      var p := 0;
      ghost var front, back := [], tiles[c];
      assert front + back == tiles[c] && ChunkOk(chunks[c], tiles[c], npages);
      CountedIsBut(s, c);
      while p < npages
        invariant Walked(s, S(), c, elms, held, front, back) && p == Pages(front)
        decreases npages - p
      {
        var n; ghost var v;
        n, elms, held, v := WalkStep(c, p, elms, held, front, back, s);
        front, back := front + [v], back[1..];
        p := p + n;
      }
      assert ChunkOk(chunks[c], tiles[c], npages);
      WalkDone(front, back, chunks[c].pages);
    }

    /** The chunk has no dirty free pages any more. */
    method ClearChunk(c: int, ghost k: nat)
      requires Agree(S(), None) && CountedBut(S(), c, k) && Listed(S(), None) && c in chunks && Count(tiles[c], true) == 0
      modifies this`chunks, this`chunksDirty, this`ndirty
      ensures Agree(S(), None) && Counted(S()) && Listed(S(), None)
      ensures old(c in chunks) && ClearStep(old(S()), S(), c)
      ensures c in old(chunksDirty) ==> |chunksDirty| == |old(chunksDirty)| - 1
    {
      ghost var s := S();
      var ch := chunks[c];
      ndirty := ndirty - ch.ndirty;
      chunks := chunks[c := Chunk(ch.pages, 0, false)];
      Unlist(c);
      ClearKeeps(s, S(), c, k);
    }

    /** arena_chunk_purge, last loop: the listed runs are given back, clean. */
    method FreeElements(c: int, elms: seq<Run>, ghost held: map<int, nat>, ghost s: State)
      requires Valid() && Elements(elms, c, held) && HoldsAlso(s, S(), c, held) && c in chunks && chunks[c].ndirty == 0
      modifies this`chunks, this`chunksDirty, this`spare, this`nactive, this`ndirty, this`availClean, this`availDirty, this`tiles
      ensures Valid() && SameAllocs(s, S()) && c in chunks && chunks[c].ndirty == 0
      ensures nactive == old(nactive) - Sum(elms) && ndirty <= old(ndirty) && |chunksDirty| <= |old(chunksDirty)|
      ensures NotDirtier(old(S()), S()) && OnlyChunk(old(S()), S(), c, {})
    {
      ghost var s0 := S();
      OnlyRewritten(s0, s0, c);
      var rest := elms;
      ghost var left := held;
      while rest != []
        invariant Valid() && Elements(rest, c, left) && HoldsAlso(s, S(), c, left)
        invariant c in chunks && chunks[c].ndirty == 0
        invariant nactive == old(nactive) - Sum(elms) + Sum(rest)
        invariant ndirty <= old(ndirty) && |chunksDirty| <= |old(chunksDirty)| && NotDirtier(s0, S())
        invariant OnlyChunk(s0, S(), c, {})
        decreases |rest|
      {
        var r := rest[0];
        ghost var s1 := S();
        assert AllocAt(S(), c, r.i) == Some(Tile(Large, false, r.n));
        var dirty := RunFree(c, r.i, false);
        FreedClean(s1, S(), c, r.i);
        FreedNotDirtier(s1, S(), c, r.i);
        NotDirtierTwice(s0, s1, S());
        FreedOnly(s1, S(), c, r.i);
        OnlyThen(s0, s1, S(), c, {});
        HoldsLess(s, s1, S(), c, left, r.i);
        ElementsRest(rest, c, left);
        left := left - {r.i};
        rest := rest[1..];
      }
      assert left == map[];
    }

    /** arena_chunk_purge up to the last loop. */
    method HoldDirty(c: int) returns (elms: seq<Run>, ghost held: map<int, nat>)
      requires Agree(S(), None) && Counted(S()) && Listed(S(), None) && SettledBut(S(), c)
      requires c in chunks && chunks[c].ndirty > 0 && spare != Some(c)
      modifies this`chunks, this`chunksDirty, this`nactive, this`ndirty, this`availDirty, this`tiles
      ensures Valid() && Elements(elms, c, held) && HoldsAlso(old(S()), S(), c, held) && nactive == old(nactive) + Sum(elms)
      ensures c in old(chunks) && ndirty == old(ndirty) - old(chunks[c].ndirty) && |chunksDirty| < old(|chunksDirty|)
      ensures c in chunks && chunks[c].ndirty == 0 && NotDirtier(old(S()), S()) && OnlyChunk(old(S()), S(), c, {c})
    {
      ghost var s := S();
      assert chunks[c].dirtied && c in chunksDirty;
      elms, held := MarkDirtyRuns(c);
      ghost var s1 := S();
      assert c in chunksDirty;
      ClearChunk(c, Sum(elms));
      WalkSettles(s, s1, S(), c, elms, held);
      WalkDirty(s, s1, S(), c, elms, held);
      OnlyCleared(s, s1, S(), c);
    }

    /** arena_chunk_purge: afterwards the chunk has no dirty free pages, and no
        allocated run has changed. */
    method ChunkPurge(c: int)
      requires Valid() && c in chunks && chunks[c].ndirty > 0
      modifies this`chunks, this`chunksDirty, this`spare, this`nactive, this`ndirty, this`availClean, this`availDirty, this`tiles
      ensures Valid() && SameAllocs(old(S()), S()) && nactive == old(nactive) && c in chunks && chunks[c].ndirty == 0
      ensures ndirty <= old(ndirty) - old(chunks[c].ndirty) && |chunksDirty| < old(|chunksDirty|)
      ensures NotDirtier(old(S()), S()) && OnlyChunk(old(S()), S(), c, {c})
    {
      ghost var s0 := S();
      if spare == Some(c) {
        Reuse(c);
      }
      ghost var s := S();
      OnlyRewritten(s0, s, c);
      PurgeInUse(c);
      OnlyTwice(s0, s, S(), c, {}, {c});
      assert {} + {c} == {c};
      SameAllocsTwice(s0, s, S());
      NotDirtierTwice(s0, s, S());
    }

    method PurgeInUse(c: int)
      requires Agree(S(), None) && Counted(S()) && Listed(S(), None) && SettledBut(S(), c)
      requires c in chunks && chunks[c].ndirty > 0 && spare != Some(c)
      modifies this`chunks, this`chunksDirty, this`spare, this`nactive, this`ndirty, this`availClean, this`availDirty, this`tiles
      ensures Valid() && SameAllocs(old(S()), S()) && nactive == old(nactive) && c in chunks && chunks[c].ndirty == 0
      ensures ndirty <= old(ndirty) - old(chunks[c].ndirty) && |chunksDirty| < old(|chunksDirty|)
      ensures NotDirtier(old(S()), S()) && OnlyChunk(old(S()), S(), c, {c})
    {
      ghost var s := S();
      var elms; ghost var held;
      elms, held := HoldDirty(c);
      ghost var s1 := S();
      FreeElements(c, elms, held, s);
      NotDirtierTwice(s, s1, S());
      OnlyThen(s, s1, S(), c, {c});
    }

    ghost function Target(all: bool): int
      reads this`nactive
    {
      if all || lgDirtyMult < 0 then 0 else Shift(nactive, lgDirtyMult)
    }

    /** First chunk on the list with dirty free pages; the ones before it leave
        the list. */
    method NextDirty() returns (c: Option<int>, ghost off: set<int>)
      requires Valid()
      modifies this`chunks, this`chunksDirty, this`ndirty
      ensures Valid() && ndirty == old(ndirty) && |chunksDirty| <= |old(chunksDirty)| && SameAllocs(old(S()), S())
      ensures c == None ==> chunksDirty == []
      ensures c.Some? ==> c.value in chunks && chunks[c.value].ndirty > 0
      ensures c.Some? ==> chunksDirty != [] && c.value == chunksDirty[0]
      ensures Dropped(old(S()), S(), off)
    {
      ghost var s := S();
      HeadListed(s);
      off := {};
      DroppedNone(s);
      while chunksDirty != [] && chunks[chunksDirty[0]].ndirty == 0
        invariant Valid() && ndirty == s.ndirty && |chunksDirty| <= |s.chunksDirty| && SameAllocs(s, S())
        invariant Dropped(s, S(), off) && (chunksDirty == [] || chunksDirty[0] in chunks)
        decreases |chunksDirty|
      {
        ghost var s1 := S();
        var d := chunksDirty[0];
        assert d in chunksDirty;
        CountedIsBut(s1, d);
        ClearChunk(d, 0);
        ClearedSettles(s1, S(), d);
        DroppedMore(s, s1, S(), off, d);
        off := off + {d};
        HeadListed(S());
      }
      if chunksDirty == [] {
        c := None;
      } else {
        c := Some(chunksDirty[0]);
        HeadListed(S());
      }
    }

    /** One round of arena_purge; `done` says that the list was empty. */
    method PurgeNext(goal: nat, ghost target: nat, ghost s0: State, ghost purged: seq<int>, ghost gone: set<int>)
      returns (rest: nat, done: bool, ghost more: seq<int>, ghost left: set<int>)
      requires Valid() && npurgatory == goal && ndirty - goal <= target
      requires Counted(s0) && InTurn(s0, S(), purged, gone)
      modifies this`chunks, this`chunksDirty, this`spare, this`nactive, this`ndirty, this`npurgatory, this`availClean, this`availDirty, this`tiles
      ensures Valid() && SameAllocs(old(S()), S()) && nactive == old(nactive) && ndirty <= old(ndirty) && NotDirtier(old(S()), S())
      ensures done ==> npurgatory == 0 && ndirty == 0
      ensures !done ==> npurgatory == rest && ndirty - rest <= target && |chunksDirty| < old(|chunksDirty|)
      ensures InTurn(s0, S(), more, left)
      ensures if done then more == purged else OneMoreTurn(s0, purged, more, goal, rest)
    {
      ghost var s := S();
      var c; ghost var off;
      c, off := NextDirty();
      TurnDropped(s0, s, S(), purged, gone, off);
      if c == None {
        NothingDirty(S());
        npurgatory := npurgatory - goal;
        return 0, true, purged, gone + off;
      }
      ghost var s1 := S();
      done := false;
      rest, more, left := PurgeHead(c.value, goal, target, s0, purged, gone + off);
      SameAllocsTwice(s, s1, S());
    }

    /** What is still to be purged after `n` pages more; the rest of npurgatory
        belongs to other threads. */
    method CountDown(goal: nat, n: nat) returns (rest: nat)
      requires npurgatory >= goal
      modifies this`npurgatory
      ensures rest == (if n > goal then 0 else goal - n) && npurgatory - rest == old(npurgatory) - goal
    {
      rest := goal;
      if n > rest {
        npurgatory := npurgatory + (n - rest);
        rest := n;
      }
      npurgatory := npurgatory - n;
      rest := rest - n;
    }

    /** The first chunk of the list, which has dirty free pages. */
    method PurgeHead(c: int, goal: nat, ghost target: nat, ghost s0: State, ghost purged: seq<int>, ghost gone: set<int>)
      returns (rest: nat, ghost more: seq<int>, ghost left: set<int>)
      requires Valid() && npurgatory == goal && ndirty - goal <= target && Counted(s0) && InTurn(s0, S(), purged, gone)
      requires c in chunks && chunks[c].ndirty > 0 && chunksDirty != [] && chunksDirty[0] == c
      modifies this`chunks, this`chunksDirty, this`spare, this`nactive, this`ndirty, this`npurgatory, this`availClean, this`availDirty, this`tiles
      ensures Valid() && SameAllocs(old(S()), S()) && nactive == old(nactive) && ndirty <= old(ndirty) && NotDirtier(old(S()), S())
      ensures npurgatory == rest && ndirty - rest <= target && |chunksDirty| < old(|chunksDirty|)
      ensures InTurn(s0, S(), more, left) && OneMoreTurn(s0, purged, more, goal, rest)
    {
      ghost var s := S();
      rest := CountDown(goal, chunks[c].ndirty);
      ChunkPurge(c);
      TurnNext(s0, s, S(), purged, gone, c);
      more, left := purged + [c], gone + (s.tiles.Keys - tiles.Keys + {c});
    }

    /** One more chunk was purged, and what is still to do is less by its dirty pages. */
    ghost predicate OneMoreTurn(s0: State, purged: seq<int>, more: seq<int>, goal: nat, rest: nat) {
      && more != [] && more[..|more| - 1] == purged && more[|more| - 1] in s0.chunks
      && (var n := s0.chunks[more[|more| - 1]].ndirty; rest == if n > goal then 0 else goal - n)
    }

    /** arena_purge: dirty free pages are purged chunk by chunk until few
        enough are left. */
    method Purge(all: bool) returns (ghost purged: seq<int>)
      requires Valid() && npurgatory == 0 && (!all ==> lgDirtyMult >= 0 && ndirty > Target(false))
      modifies this`chunks, this`chunksDirty, this`spare, this`nactive, this`ndirty, this`npurgatory, this`availClean, this`availDirty, this`tiles
      ensures Valid() && SameAllocs(old(S()), S()) && nactive == old(nactive) && npurgatory == 0
      ensures ndirty <= Target(all) && ndirty <= old(ndirty) && NotDirtier(old(S()), S())
      ensures PurgedTo(old(S()), S(), purged, Target(all))
    {
      ghost var s := S();
      ghost var target: nat := Target(all);
      ghost var gone: set<int> := {};
      purged := [];
      NoTurn(s);
      var goal := ndirty - npurgatory;
      if !all {
        goal := goal - Shift(nactive, lgDirtyMult);
      }
      npurgatory := npurgatory + goal;
      while goal > 0
        invariant Valid() && SameAllocs(s, S()) && nactive == s.nactive && ndirty <= s.ndirty && NotDirtier(s, S())
        invariant npurgatory == goal >= 0 && ndirty - goal <= target
        invariant InTurn(s, S(), purged, gone) && StillToDo(s, purged, goal, target)
        decreases |chunksDirty|
      {
        var done;
        ghost var s1, todo, before := S(), goal, purged;
        goal, done, purged, gone := PurgeNext(goal, target, s, purged, gone);
        SameAllocsTwice(s, s1, S());
        NotDirtierTwice(s, s1, S());
        if done {
          PurgedAll(s, S(), before, gone, todo, target);
          return;
        }
        LessToDo(s, before, purged, todo, goal, target);
      }
      PurgedEnough(s, S(), purged, gone, target);
    }

    /** How many dirty free pages an arena keeps at most: a chunk's worth, or
        the given fraction of the pages in use (arena.h). */
    ghost predicate Bounded()
      reads this
    {
      npurgatory == 0 && WithinBound(S())
    }

    /** What a purge leaves as it was. */
    ghost predicate PurgedFrom(s: State)
      reads this
    {
      SameAllocs(s, S()) && nactive == s.nactive && ndirty <= s.ndirty && NotDirtier(s, S())
    }

    ghost predicate WithinBound(s: State)
    {
      lgDirtyMult >= 0 ==> s.ndirty <= chunkNpages || s.ndirty <= Shift(s.nactive, lgDirtyMult)
    }

    /** Nothing was purged in state `s` if that was within the bound, and otherwise
        no more chunks than needed, in the order of the list. */
    ghost predicate PurgedIfNeeded(s: State)
      reads this
    {
      if WithinBound(s) then S() == s else exists purged :: PurgedTo(s, S(), purged, Target(false))
    }

    /** arena_maybe_purge. */
    method MaybePurge()
      requires Valid() && npurgatory == 0
      modifies this`chunks, this`chunksDirty, this`spare, this`nactive, this`ndirty, this`npurgatory, this`availClean, this`availDirty, this`tiles
      ensures Valid() && Bounded() && PurgedFrom(old(S())) && PurgedIfNeeded(old(S()))
    {
      if lgDirtyMult >= 0 && ndirty > npurgatory && ndirty - npurgatory > chunkNpages
         && Shift(nactive, lgDirtyMult) < ndirty - npurgatory
      {
        ghost var purged := Purge(false);
      }
    }

    /** arena_purge_all. */
    method PurgeAll()
      requires Valid() && npurgatory == 0
      modifies this`chunks, this`chunksDirty, this`spare, this`nactive, this`ndirty, this`npurgatory, this`availClean, this`availDirty, this`tiles
      ensures Valid() && Bounded() && PurgedFrom(old(S())) && ndirty == 0
    {
      ghost var purged := Purge(true);
      TotalNat(S());
    }

    /** arena_run_dalloc: the run is free, and if that made pages dirty, not
        too many of them are left.  `mid` is the state before the purge. */
    method RunDalloc(c: int, i: int, dirtied: bool) returns (dirty: bool, ghost mid: State)
      requires Valid() && npurgatory == 0 && AllocRun(S(), c, i)
      modifies this`chunks, this`chunksDirty, this`spare, this`nactive, this`ndirty, this`npurgatory, this`availClean, this`availDirty, this`tiles
      ensures Valid() && npurgatory == 0 && dirty == (dirtied || old(At(tiles[c], i).value.dirty))
      ensures Freed(old(S()), mid, c, i, dirty) && PurgedFrom(mid) && (!dirty ==> S() == mid) && (dirty ==> Bounded() && PurgedIfNeeded(mid))
    {
      dirty := RunFree(c, i, dirtied);
      mid := S();
      if dirty {
        MaybePurge();
      }
    }

    // ----- large runs -----

    /** The page map of a large run cut in two. */
    method CutRun(c: int, i: nat, head: nat, total: nat, atHead: bool)
      requires Valid() && LargeRun(S(), c, i, total) && 1 <= head < total
      modifies this`chunks, this`tiles
      ensures Valid() && Cut(old(S()), S(), c, i, head)
    {
      ghost var s := S();
      ghost var t := At(tiles[c], i).value;
      ghost var a, b := Locate(tiles[c], i);
      var ch := chunks[c];
      StartEntry(tiles[c], ch.pages, i);
      var dirty := ch.pages[i].dirty;
      var pages := if atHead then MarkTrimHead(ch.pages, i, head, total, dirty) else MarkTrimTail(ch.pages, i, head, total, dirty);
      MarkTrimOk(a, t, b, ch.pages, head, pages);
      PositiveParts(a, t, b);
      SubstAround(a, t, b, TrimTiles(dirty, head, total));
      chunks := chunks[c := Chunk(pages, ch.ndirty, ch.dirtied)];
      tiles := tiles[c := Subst(tiles[c], i, TrimTiles(dirty, head, total))];
      CutKeeps(s, S(), c, i, head);
    }

    /** arena_run_trim_head and arena_run_trim_tail: a large run keeps `keep`
        pages, its last or its first ones. */
    method RunTrim(c: int, i: int, total: nat, keep: nat, atHead: bool, dirtied: bool) returns (ghost mid: State)
      requires Valid() && npurgatory == 0 && LargeRun(S(), c, i, total) && 1 <= keep < total
      modifies this`chunks, this`chunksDirty, this`spare, this`nactive, this`ndirty, this`npurgatory, this`availClean, this`availDirty, this`tiles
      ensures Valid() && npurgatory == 0
      ensures Trimmed(old(S()), S(), c, i, if atHead then i + total - keep else i, keep)
      ensures nactive == old(nactive) - (total - keep)
      ensures var dirty := dirtied || old(AllocAt(S(), c, i).value.dirty);
              && (if dirty then Bounded() && PurgedIfNeeded(mid) else ndirty <= old(ndirty) && mid == S()) && PurgedFrom(mid)
              && DirtyBut(old(S()), mid, c, if atHead then i else i + keep, if atHead then i + total - keep else i + total, dirty)
    {
      ghost var s := S();
      var head := if atHead then total - keep else keep;
      CutRun(c, i, head, total, atHead);
      ghost var s1 := S();
      CutParts(s, s1, c, i, head);
      var dirty;
      dirty, mid := RunDalloc(c, if atHead then i else i + head, dirtied);
      CutFreed(s, s1, mid, S(), c, i, head, atHead, dirty, if atHead then i + total - keep else i, keep);
    }

    /** The last step of arena_ralloc_large_grow. */
    method JoinRuns(c: int, i: int, n: nat, ghost t: Tile, ghost u: Tile)
      requires Valid() && AllocAt(S(), c, i) == Some(t) && AllocAt(S(), c, i + t.n) == Some(u) && t.kind == u.kind == Large
      requires n == t.n + u.n
      modifies this`chunks, this`tiles
      ensures Valid() && Joined(old(S()), S(), c, i, t, u)
    {
      ghost var s := S();
      var ch := chunks[c];
      EncodesLengths(tiles[c], ch.pages, 0);
      ghost var a, b := Neighbours(tiles[c], i);
      MarkGrownOk(a, t, u, b, ch.pages, i);
      var dirty := ch.pages[i].dirty || ch.pages[i + n - 1].dirty;
      chunks := chunks[c := Chunk(MarkGrown(ch.pages, i, n, dirty), ch.ndirty, ch.dirtied)];
      tiles := tiles[c := a + [Tile(Large, t.dirty || u.dirty, t.n + u.n)] + b];
      JoinKeeps(s, S(), c, a, t, u, b);
    }

    method TakeBehind(c: int, i: int, oldn: nat, more: nat) returns (ghost u: Tile)
      requires Valid() && LargeRun(S(), c, i, oldn) && 1 <= more <= FreeAt(S(), c, i + oldn)
      modifies this`chunks, this`availClean, this`availDirty, this`nactive, this`ndirty, this`smallPages, this`tiles
      ensures Valid() && u.kind == Large && u.n == more && OneMore(old(S()), S(), c, i + oldn, u)
      ensures AllocAt(S(), c, i) == old(AllocAt(S(), c, i)) && AllocAt(S(), c, i + oldn) == Some(u)
      ensures nactive == old(nactive) + more && ndirty == old(ndirty) - (if u.dirty then more else 0)
      ensures DirtyTaken(old(S()), S(), c, i + oldn, more, u.dirty)
    {
      ghost var s := S();
      RoomBehind(s, c, i, oldn, more);
      Take(c, i + oldn, more, true);
      u := AllocAt(S(), c, i + oldn).value;
      TakenBehind(s, S(), c, i, oldn, more, AllocAt(s, c, i).value, u);
    }

    /** A large run takes over the first `more` pages of the free run behind. */
    method GrowInto(c: int, i: int, oldn: nat, more: nat)
      requires Valid() && LargeRun(S(), c, i, oldn) && 1 <= more <= FreeAt(S(), c, i + oldn)
      modifies this`chunks, this`availClean, this`availDirty, this`nactive, this`ndirty, this`smallPages, this`tiles
      ensures Valid() && Grown(old(S()), S(), c, i, oldn + more) && Swallowed(old(S()), S(), c, i + oldn, more)
    {
      ghost var s := S();
      ghost var t := AllocAt(S(), c, i).value;
      ghost var u := TakeBehind(c, i, oldn, more);
      ghost var s1 := S();
      JoinRuns(c, i, oldn + more, t, u);
      GrownNow(s, s1, S(), c, i, t, u);
    }

    /** arena_ralloc_large_grow.  The comparison with size - oldsize is one of
        unsigned numbers, so it fails when size is below oldsize. */
    method RallocLargeGrow(c: int, i: int, oldn: nat, size: nat, extra: nat) returns (fail: bool)
      requires Valid() && LargeRun(S(), c, i, oldn) && size + extra > oldn
      modifies this`chunks, this`availClean, this`availDirty, this`nactive, this`ndirty, this`smallPages, this`tiles
      ensures Valid()
      ensures var follow := old(FreeAt(S(), c, i + oldn));
              && (fail <==> size < oldn || follow == 0 || follow < size - oldn)
              && (fail ==> S() == old(S()))
              && (var n := if oldn + follow <= size + extra then oldn + follow else size + extra;
                  !fail ==> n > oldn && Grown(old(S()), S(), c, i, n) && Swallowed(old(S()), S(), c, i + oldn, n - oldn))
    {
      ghost var s := S();
      ghost var t := AllocAt(S(), c, i).value;
      var pages := chunks[c].pages;
      Following(tiles[c], pages, i);
      fail := true;
      if i + oldn < npages && !pages[i + oldn].alloc && size >= oldn && pages[i + oldn].num >= size - oldn {
        var follow := pages[i + oldn].num;
        var split := if oldn + follow <= size + extra then follow else size + extra - oldn;
        GrowInto(c, i, oldn, split);
        fail := false;
      }
    }

    // ----- what callers see -----

    /** arena_new. */
    constructor (mapBias: nat, npages: nat, lgDirtyMult: int)
      requires npages >= 1
      ensures Valid() && Bounded() && tiles == map[] && nactive == 0
      ensures this.mapBias == mapBias && this.npages == npages && this.lgDirtyMult == lgDirtyMult
    {
      this.mapBias, this.npages, this.lgDirtyMult := mapBias, npages, lgDirtyMult;
      chunks, chunksDirty, spare, nactive, ndirty, npurgatory := map[], [], None, 0, 0, 0;
      availClean, availDirty, smallPages, tiles := {}, {}, map[], map[];
    }

    /** Fewer dirty free pages, or more pages in use, stay within the bound. */
    lemma StaysBounded(nactive0: int, ndirty0: int)
      requires npurgatory == 0 && nactive0 <= nactive && ndirty <= ndirty0
      requires lgDirtyMult >= 0 ==> ndirty0 <= chunkNpages || ndirty0 <= Shift(nactive0, lgDirtyMult)
      ensures Bounded()
    {
      if lgDirtyMult >= 0 { ShiftMonotone(nactive0, nactive, lgDirtyMult); }
    }

    /** arena_malloc_large: a new run, or nothing has changed. */
    method MallocLarge(need: nat, given: Option<int>) returns (r: Option<(int, int)>)
      requires Valid() && Bounded() && 1 <= need <= npages && (given.Some? ==> given.value !in chunks)
      modifies this`chunks, this`spare, this`availClean, this`availDirty, this`nactive, this`ndirty, this`smallPages, this`tiles
      ensures Valid() && Bounded()
      ensures r == None <==> old(NoRun(need, given))
      ensures r == None ==> S() == old(S())
      ensures r.Some? ==> Chosen(old(S()), need, r.value.0, r.value.1) && Taken(old(S()), S(), r.value.0, r.value.1, need, Large)
    {
      ghost var s := S();
      r := RunAlloc(need, true, given);
      StaysBounded(s.nactive, s.ndirty);
    }

    /** A failure for want of nothing: in a new arena a run of two pages is to keep
        at least one and have three if possible.  There are free pages behind, and
        still it is left as it is. */
    static method StaysShort(mapBias: nat, npages: nat, lgDirtyMult: int, c: int) returns (a: Arena, fail: bool)
      requires npages >= 3
      ensures fresh(a) && a.Valid() && LargeRun(a.S(), c, 0, 2) && FreeAt(a.S(), c, 2) >= 1 && fail
    {
      a := new Arena(mapBias, npages, lgDirtyMult);
      var r := a.TakeChunk(2, true, Some(c));
      RestFree(a.S(), c, 2);
      ghost var mid;
      fail, mid := a.RallocLarge(c, 0, 2, 1, 3);
    }

    /** arena_dalloc_large: the pages of the run are dirty free pages in `mid`, the
        state before the purge. */
    method DallocLarge(c: int, i: int, ghost n: nat) returns (ghost mid: State)
      requires Valid() && Bounded() && LargeRun(S(), c, i, n)
      modifies this`chunks, this`chunksDirty, this`spare, this`nactive, this`ndirty, this`npurgatory, this`availClean, this`availDirty, this`tiles
      ensures Valid() && Bounded() && OneLess(old(S()), S(), c, i) && nactive == old(nactive) - n
      ensures DirtyBut(old(S()), mid, c, i, i + n, true) && PurgedFrom(mid) && PurgedIfNeeded(mid)
    {
      var dirty;
      ghost var s := S();
      dirty, mid := RunDalloc(c, i, true);
      OneLessAfter(s, mid, S(), c, i);
    }

    /** arena_ralloc_large: `psize` is the page count for size plus extra. */
    method RallocLarge(c: int, i: int, oldn: nat, size: nat, psize: nat) returns (fail: bool, ghost mid: State)
      requires Valid() && Bounded() && LargeRun(S(), c, i, oldn) && 1 <= size <= psize
      modifies this`chunks, this`chunksDirty, this`spare, this`nactive, this`ndirty, this`npurgatory, this`availClean, this`availDirty, this`smallPages, this`tiles
      ensures Valid() && Bounded()
      ensures var follow := old(FreeAt(S(), c, i + oldn));
              && (fail <==> psize > oldn && (size < oldn || follow == 0 || follow < size - oldn))
              && (fail ==> S() == old(S()))
              && (var n := if psize <= oldn || psize <= oldn + follow then psize else oldn + follow;
                  !fail ==> size <= n && Grown(old(S()), S(), c, i, n) && nactive == old(nactive) + n - oldn
                            && (n > oldn ==> Swallowed(old(S()), S(), c, i + oldn, n - oldn))
                            && (n == oldn ==> S() == old(S()))
                            && (n < oldn ==> DirtyBut(old(S()), mid, c, i + n, i + oldn, true) && PurgedFrom(mid) && PurgedIfNeeded(mid)))
    {
      ghost var s := S();
      mid := s;
      if psize == oldn {
        fail := false;
        assert Grown(s, S(), c, i, oldn);
      } else if psize < oldn {
        mid := RunTrim(c, i, oldn, psize, false, true);
        assert Grown(s, S(), c, i, psize);
        fail := false;
      } else {
        fail := RallocLargeGrow(c, i, oldn, size, psize - size);
        StaysBounded(s.nactive, s.ndirty);
      }
    }

    /** One trim of arena_palloc: nothing becomes dirty that was not. */
    method TrimOnce(c: int, i: int, total: nat, keep: nat, atHead: bool)
      requires Valid() && npurgatory == 0 && LargeRun(S(), c, i, total) && 1 <= keep < total
      modifies this`chunks, this`chunksDirty, this`spare, this`nactive, this`ndirty, this`npurgatory, this`availClean, this`availDirty, this`tiles
      ensures Valid() && npurgatory == 0 && nactive == old(nactive) - (total - keep)
      ensures Trimmed(old(S()), S(), c, i, if atHead then i + total - keep else i, keep)
      ensures DirtyWithin(old(S()), S(), c, i, i + total, old(AllocAt(S(), c, i).value.dirty))
      ensures if old(AllocAt(S(), c, i).value.dirty) then Bounded() else ndirty <= old(ndirty)
    {
      ghost var s := S();
      ghost var mid := RunTrim(c, i, total, keep, atHead, false);
      BackWithin(s, mid, S(), c, i, i + total, if atHead then i else i + keep, if atHead then i + total - keep else i + total, AllocAt(s, c, i).value.dirty);
    }

    /** arena_palloc, the trimming: `lead` pages in front of the aligned block
        and whatever is behind it go back. */
    method TrimAround(c: int, i: int, total: nat, need: nat, lead: nat)
      requires Valid() && npurgatory == 0 && LargeRun(S(), c, i, total) && 1 <= need && lead + need <= total && need < total
      modifies this`chunks, this`chunksDirty, this`spare, this`nactive, this`ndirty, this`npurgatory, this`availClean, this`availDirty, this`tiles
      ensures Valid() && npurgatory == 0 && Trimmed(old(S()), S(), c, i, i + lead, need) && nactive == old(nactive) - (total - need)
      ensures if old(AllocAt(S(), c, i).value.dirty) then Bounded() else ndirty <= old(ndirty)
      ensures DirtyWithin(old(S()), S(), c, i, i + total, old(AllocAt(S(), c, i).value.dirty))
    {
      if lead == 0 {
        TrimOnce(c, i, total, need, false);
      } else {
        ghost var s := S();
        TrimOnce(c, i, total, total - lead, true);
        ghost var s1 := S();
        var trail := total - lead - need;
        if trail != 0 {
          TrimOnce(c, i + lead, need + trail, need, false);
          TrimmedTwice(s, s1, S(), c, i, i + lead, total - lead, need);
          WithinTwice(s, s1, S(), c, i, i + total, i + lead, i + total, AllocAt(s, c, i).value.dirty);
        }
      }
    }

    /** Compared with state `s` there is one more allocated run, of `need` pages,
        which starts at a multiple of `align` pages. */
    ghost predicate AlignedRun(s: State, c: int, i: int, need: nat, align: nat)
      requires align >= 1
      reads this
    {
      && (mapBias + i) % align == 0 && LargeRun(S(), c, i, need) && nactive == s.nactive + need
      && OneMore(s, S(), c, i, AllocAt(S(), c, i).value)
    }

    /** The run lies at the first multiple of `align` pages in the run that was
        chosen for it in state `s`. */
    ghost predicate FirstAligned(s: State, c: int, i: int, total: nat, align: nat)
      requires align >= 1
    {
      exists i0 :: Chosen(s, total, c, i0) && i0 <= i < i0 + align
    }

    /** arena_palloc: a run that starts at a multiple of `align` pages.  `total`
        pages are allocated, which surely hold an aligned block, and what is in
        front of it and behind it is given back. */
    method Palloc(need: nat, total: nat, align: nat, given: Option<int>) returns (r: Option<(int, int)>)
      requires Valid() && Bounded() && 1 <= need && 2 <= align && need + align - 1 <= total <= npages && (given.Some? ==> given.value !in chunks)
      modifies this`chunks, this`chunksDirty, this`spare, this`nactive, this`ndirty, this`npurgatory, this`availClean, this`availDirty, this`smallPages, this`tiles
      ensures Valid() && Bounded()
      ensures r == None <==> old(NoRun(total, given))
      ensures r == None ==> S() == old(S())
      ensures r.Some? ==> AlignedRun(old(S()), r.value.0, r.value.1, need, align)
      ensures r.Some? ==> FirstAligned(old(S()), r.value.0, r.value.1, total, align) && NotDirtier(old(S()), S())
    {
      ghost var s := S();
      r := RunAlloc(total, true, given);
      if r.Some? {
        r := AlignRun(r.value.0, r.value.1, total, need, align, s);
      }
    }

    /** From a run of `total` pages, just allocated in state `s`, to the aligned
        block inside it. */
    method AlignRun(c: int, i: int, total: nat, need: nat, align: nat, ghost s: State) returns (r: Option<(int, int)>)
      requires Valid() && npurgatory == 0 && LargeRun(S(), c, i, total) && 1 <= need && 2 <= align && need + align - 1 <= total
      requires Sound(s) && Taken(s, S(), c, i, total, Large)
      requires lgDirtyMult >= 0 ==> s.ndirty <= chunkNpages || s.ndirty <= Shift(s.nactive, lgDirtyMult)
      modifies this`chunks, this`chunksDirty, this`spare, this`nactive, this`ndirty, this`npurgatory, this`availClean, this`availDirty, this`tiles
      ensures Valid() && Bounded()
      ensures r.Some? && AlignedRun(s, r.value.0, r.value.1, need, align)
      ensures r.value.0 == c && i <= r.value.1 < i + align && NotDirtier(s, S())
    {
      ghost var s1 := S();
      var lead := Division.Lead(mapBias + i, align);
      TrimAround(c, i, total, need, lead);
      TakenTrimmed(s, s1, S(), c, i, i + lead, total, need);
      TakenAndBack(s, s1, S(), c, i, total, AllocAt(s1, c, i).value.dirty);
      if !AllocAt(s1, c, i).value.dirty {
        StaysBounded(s.nactive, s.ndirty);
      }
      r := Some((c, i + lead));
    }

    // ----- runs of small regions -----

    /** A new run for small regions (arena_bin_nonfull_run_get). */
    method MallocSmallRun(need: nat, given: Option<int>) returns (r: Option<(int, int)>)
      requires Valid() && Bounded() && 1 <= need <= npages && (given.Some? ==> given.value !in chunks)
      modifies this`chunks, this`spare, this`availClean, this`availDirty, this`nactive, this`ndirty, this`smallPages, this`tiles
      ensures Valid() && Bounded()
      ensures r == None <==> old(NoRun(need, given))
      ensures r == None ==> S() == old(S())
      ensures r.Some? ==> Chosen(old(S()), need, r.value.0, r.value.1) && Taken(old(S()), S(), r.value.0, r.value.1, need, Small)
    {
      ghost var s := S();
      r := RunAlloc(need, false, given);
      StaysBounded(s.nactive, s.ndirty);
    }

    /** A small run is made to look like a large one. */
    method Convert(c: int, i: int, n: nat)
      requires Valid() && SmallRun(S(), c, i, n)
      modifies this`chunks, this`tiles
      ensures Valid() && Converted(old(S()), S(), c, i)
    {
      ghost var s := S();
      ghost var t := At(tiles[c], i).value;
      ghost var a, b := Locate(tiles[c], i);
      var ch := chunks[c];
      StartEntry(tiles[c], ch.pages, i);
      MarkConvertedOk(a, t, b, ch.pages);
      PositiveParts(a, t, b);
      SubstAround(a, t, b, [Tile(Large, t.dirty, t.n)]);
      chunks := chunks[c := Chunk(MarkConverted(ch.pages, i, n), ch.ndirty, ch.dirtied)];
      tiles := tiles[c := Subst(tiles[c], i, [Tile(Large, t.dirty, t.n)])];
      ConvertKeeps(s, S(), c, i);
    }

    /** arena_dalloc_bin_run: the run goes back; if it was clean, the pages from
        `past` on, which were never touched, go back as clean ones.  `mid` is the
        state before the purge: the pages in front of `past` are dirty free pages
        in it, all others are what they were. */
    method DallocBinRun(c: int, i: int, n: nat, past: nat) returns (ghost mid: State)
      requires Valid() && npurgatory == 0 && SmallRun(S(), c, i, n) && 1 <= past
      modifies this`chunks, this`chunksDirty, this`spare, this`nactive, this`ndirty, this`npurgatory, this`availClean, this`availDirty, this`tiles
      ensures Valid() && Bounded() && OneLess(old(S()), S(), c, i) && nactive == old(nactive) - n
      ensures var used := if old(AllocAt(S(), c, i).value.dirty) || past >= n then n else past;
              && ndirty <= old(ndirty) + used
              && DirtyBut(old(S()), mid, c, i, i + used, true) && PurgedFrom(mid) && PurgedIfNeeded(mid) && CleanFrom(S(), c, i + used, i + n)
    {
      ghost var s := S();
      StartEntry(tiles[c], chunks[c].pages, i);
      if !chunks[c].pages[i].dirty && past < n {
        Convert(c, i, n);
        ghost var s1 := S();
        ghost var cut := RunTrim(c, i, n, past, false, false);
        ghost var s2 := S();
        var dirty;
        dirty, mid := RunDalloc(c, i, true);
        ConvertedAway(s, s1, s2, mid, S(), c, i, past);
        DirtyFront(s, s1, s2, mid, c, i, i + past);
        BehindClean(s, mid, S(), c, i, i + past);
      } else {
        var dirty;
        dirty, mid := RunDalloc(c, i, true);
        OneLessAfter(s, mid, S(), c, i);
      }
    }
  }
}
