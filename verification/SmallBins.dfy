/** Allocating and freeing small regions (arena.c): bins of runs over the
    page-run layer. */
module SmallBins {
  import opened Wrappers
  import opened PageTiles
  import opened ArenaState
  import opened ArenaDirty
  import opened ArenaCoalesce
  import opened ArenaAlloc
  import opened ArenaLarge
  import opened ArenaRuns
  import opened SmallState

  /** arena_run_tree_first: the lowest run of a tree. */
  method TreeFirst(runs: set<Addr>) returns (r: Option<Addr>)
    ensures r == None <==> runs == {}
    ensures r.Some? ==> r.value in runs && Least(r.value, runs)
  {
    r := None;
    var rest := runs;
    while rest != {}
      invariant rest <= runs && (r == None <==> rest == runs)
      invariant r.Some? ==> r.value in runs - rest && Least(r.value, runs - rest)
      decreases rest
    {
      var q :| q in rest;
      var least := r == None || Lower(q, r.value);
      if r == None {
        assert runs - (rest - {q}) == {q};
      } else {
        LeastOf(r.value, q, runs - rest);
        assert runs - (rest - {q}) == runs - rest + {q};
      }
      rest := rest - {q};
      if least {
        r := Some(q);
      }
    }
  }

  lemma LeastOf(r: Addr, q: Addr, runs: set<Addr>)
    requires r in runs && Least(r, runs) && q !in runs
    ensures Least(if Lower(q, r) then q else r, runs + {q})
  {
    Total(q, r);
  }

  lemma Total(a: Addr, b: Addr)
    ensures a == b || Lower(a, b) || Lower(b, a)
  {
  }

  class Small {
    const arena: Arena
    const infos: seq<BinInfo>
    var bins: seq<Bin>
    var hdrs: map<Addr, Hdr>

    /** The regions that were ever handed out of a run. */
    ghost var ever: map<Addr, set<nat>>

    /** All is in order, but for the run `loose`, which no bin refers to. */
    ghost predicate ValidBut(loose: Option<Addr>)
      reads this, arena
    {
      arena.Valid() && arena.Bounded() && AllOk(arena.S(), infos, bins, hdrs, ever, loose)
    }

    ghost predicate Valid()
      reads this, arena
    {
      ValidBut(None)
    }

    constructor (arena: Arena, infos: seq<BinInfo>)
      requires arena.Valid() && arena.Bounded() && InfosOk(infos, arena.npages) && arena.tiles == map[]
      ensures Valid() && Live(hdrs) == iset{} && AllLowest(bins) && this.arena == arena && this.infos == infos
    {
      this.arena, this.infos := arena, infos;
      bins := seq(|infos|, _ => Bin(None, {}));
      hdrs, ever := map[], map[];
    }

    /** bitmap_sfu, by what it promises: the first region that is not set. */
    static method FirstUnset(bits: set<nat>, n: nat) returns (k: nat)
      requires |bits| < n
      ensures FirstFree(bits, n, k)
    {
      ghost var some := SomeUnset(bits, n);
      k := 0;
      while k in bits
        invariant k <= some && forall j :: 0 <= j < k ==> j in bits
        decreases some - k
      {
        k := k + 1;
      }
    }

    /** The lowest free region of a run that has one. */
    method Pick(r: Addr, ghost loose: Option<Addr>) returns (k: nat)
      requires ValidBut(loose) && r in hdrs && hdrs[r].nfree > 0
      ensures hdrs[r].bin < |infos| && r in ever && FirstFree(hdrs[r].bits, infos[hdrs[r].bin].nregs, k)
    {
      var h := hdrs[r];
      assert HdrAt(infos, hdrs, ever, loose, r);
      k := FirstUnset(h.bits, infos[h.bin].nregs);
    }

    method SetHeaders(hdrs': map<Addr, Hdr>, ghost ever': map<Addr, set<nat>>)
      modifies this`hdrs, this`ever
      ensures hdrs == hdrs' && ever == ever'
    {
      hdrs, ever := hdrs', ever';
    }

    method Update(hdrs': map<Addr, Hdr>, ghost ever': map<Addr, set<nat>>, bins': seq<Bin>)
      modifies this`hdrs, this`ever, this`bins
      ensures hdrs == hdrs' && ever == ever' && bins == bins'
    {
      hdrs, ever, bins := hdrs', ever', bins';
    }

    /** arena_run_reg_alloc: the lowest free region of a run, which is then the
        current run of its bin. */
    method RegAlloc(r: Addr, ghost loose: Option<Addr>) returns (k: nat)
      requires ValidBut(loose) && (loose == None || loose == Some(r)) && r in hdrs && hdrs[r].nfree > 0
      requires hdrs[r].bin < |bins| && bins[hdrs[r].bin].runcur == (if loose == None then Some(r) else None)
      modifies this`hdrs, this`ever, this`bins
      ensures Valid() && old(hdrs[r].bin) < |infos| && bins == Headed(old(bins), old(hdrs[r].bin), r)
      ensures hdrs == old(hdrs)[r := AfterAlloc(old(hdrs[r]), k)] && FirstFree(old(hdrs[r].bits), infos[old(hdrs[r].bin)].nregs, k)
    {
      k := Pick(r, loose);
      AllocKeeps(arena.S(), infos, bins, hdrs, ever, loose, r, k);
      Update(hdrs[r := AfterAlloc(hdrs[r], k)], ever[r := ever[r] + {k}], Headed(bins, hdrs[r].bin, r));
    }

    /** arena_bin_nonfull_run_get: the lowest run of the tree, or a new one. */
    method NonfullRunGet(b: nat, given: Option<int>) returns (r: Option<Addr>)
      requires Valid() && b < |bins| && bins[b].runcur == None && (given.Some? ==> given.value !in arena.chunks)
      modifies this, arena
      ensures r == None <==> old(bins[b].runs) == {} && old(NoNewRun(b, given))
      ensures r == None ==> Valid() && hdrs == old(hdrs) && bins == old(bins) && arena.S() == old(arena.S())
      ensures r.Some? ==> ValidBut(r) && hdrs[r.value].bin == b && hdrs[r.value].nfree > 0 && bins[b].runcur == None
      ensures Live(hdrs) == old(Live(hdrs))
      ensures r.Some? && r.value in old(hdrs) ==> hdrs == old(hdrs) && arena.S() == old(arena.S())
      ensures r.Some? && r.value !in old(hdrs) ==> b < |infos| && FromArena(old(arena.S()), infos[b].runPages, r.value)
      ensures old(bins[b].runs) != {} ==> r.Some? && r.value in old(bins[b].runs)
      ensures r.Some? ==> Least(r.value, old(bins[b].runs)) && LowestNonfull(old(hdrs), b, r.value)
      ensures Lessened(old(bins), bins, b)
    {
      r := TreeFirst(bins[b].runs);
      ghost var bins0, hdrs0 := bins, hdrs;
      if r.Some? {
        TreeNonfull(bins0, hdrs0, b, r.value);
        TakeFiled(b, r.value);
      } else {
        r := NewRun(b, given);
        if r.Some? { TreeNonfull(bins0, hdrs0, b, r.value); }
      }
    }

    /** The arena has no run for the bin. */
    ghost predicate NoNewRun(b: nat, given: Option<int>)
      requires b < |infos|
      reads this, arena
    {
      arena.NoRun(infos[b].runPages, given)
    }

    /** A run is taken out of the tree of its bin. */
    method TakeFiled(b: nat, r: Addr)
      requires Valid() && b < |bins| && bins[b].runcur == None && r in bins[b].runs
      modifies this`bins
      ensures ValidBut(Some(r)) && hdrs[r].bin == b && hdrs[r].nfree > 0 && Lessened(old(bins), bins, b) && bins[b].runcur == None
    {
      TakeKeeps(arena.S(), infos, bins, hdrs, ever, b, r);
      bins := bins[b := Bin(None, bins[b].runs - {r})];
    }

    /** A new run, set up with all its regions free. */
    method NewRun(b: nat, given: Option<int>) returns (r: Option<Addr>)
      requires Valid() && b < |bins| && bins[b].runcur == None && (given.Some? ==> given.value !in arena.chunks)
      modifies this`hdrs, this`ever, arena
      ensures r == None <==> old(NoNewRun(b, given))
      ensures r == None ==> Valid() && hdrs == old(hdrs) && arena.S() == old(arena.S())
      ensures r.Some? ==> ValidBut(r) && hdrs[r.value].bin == b && hdrs[r.value].nfree > 0 && r.value !in old(hdrs)
      ensures r.Some? ==> b < |infos| && FromArena(old(arena.S()), infos[b].runPages, r.value)
      ensures Live(hdrs) == old(Live(hdrs))
    {
      ghost var s := arena.S();
      var run := arena.MallocSmallRun(infos[b].runPages, given);
      if run == None {
        r := None;
      } else {
        r := Some(Addr(run.value.0, run.value.1));
        SetUp(b, r.value, s);
      }
    }

    /** The header of a run that is just allocated, in state `s` of the arena. */
    method SetUp(b: nat, r: Addr, ghost s: State)
      requires AllOk(s, infos, bins, hdrs, ever, None) && b < |bins| && bins[b].runcur == None
      requires arena.Valid() && arena.Bounded() && Taken(s, arena.S(), r.c, r.i, infos[b].runPages, PageTiles.Small)
      modifies this`hdrs, this`ever
      ensures ValidBut(Some(r)) && r !in old(hdrs)
      ensures hdrs[r].bin == b && hdrs[r].nfree > 0 && Live(hdrs) == old(Live(hdrs))
    {
      var h := Hdr(b, 0, infos[b].nregs, {});
      NewKeeps(s, arena.S(), infos, bins, hdrs, ever, b, r, AllocAt(arena.S(), r.c, r.i).value);
      LiveNone(hdrs, r, h);
      SetHeaders(hdrs[r := h], ever[r := {}]);
    }

    /** All runs of a bin are full. */
    ghost predicate AllFull(b: nat)
      reads this
    {
      forall q :: q in hdrs && hdrs[q].bin == b ==> hdrs[q].nfree <= 0
    }

    lemma NoneLeft(b: nat)
      requires Valid() && b < |bins| && bins[b].runs == {}
      requires bins[b].runcur.Some? ==> bins[b].runcur.value in hdrs && hdrs[bins[b].runcur.value].nfree <= 0
      ensures AllFull(b)
    {
      forall q | q in hdrs && hdrs[q].bin == b ensures hdrs[q].nfree <= 0 {
        assert FiledAt(bins, hdrs, None, q);
      }
    }

    lemma SomeLeft(b: nat)
      requires Valid() && b < |bins| && bins[b].runs != {}
      ensures !AllFull(b)
    {
      var q :| q in bins[b].runs;
      assert OwnAt(bins, hdrs, b);
      assert FiledAt(bins, hdrs, None, q);
    }

    /** The bin does not refer to its full current run any more. */
    method LetGo(b: nat)
      requires Valid() && b < |bins|
      requires bins[b].runcur.Some? ==> bins[b].runcur.value in hdrs && hdrs[bins[b].runcur.value].nfree <= 0
      modifies this`bins
      ensures Valid() && b < |bins| && bins == old(bins)[b := Bin(None, old(bins[b].runs))] && (bins[b].runs == {} <==> AllFull(b))
    {
      if bins[b].runs == {} { NoneLeft(b); } else { SomeLeft(b); }
      DropFull(arena.S(), infos, bins, hdrs, ever, b);
      bins := bins[b := Bin(None, bins[b].runs)];
    }

    /** In state `s0` of the arena the run was allocated, and nothing else was done. */
    ghost predicate FromArena(s0: State, n: nat, r: Addr)
      reads arena
    {
      Chosen(s0, n, r.c, r.i) && Taken(s0, arena.S(), r.c, r.i, n, PageTiles.Small)
    }

    /** The region a call hands out: it was free, it is the lowest free one of its
        run, and no run of the bin with a free region is below that run, if
        `lowest`, and only then. */
    ghost predicate HandedOut(s0: State, bins0: seq<Bin>, hdrs0: map<Addr, Hdr>, b: nat, p: (Addr, nat), lowest: bool)
      requires b < |infos|
      reads this, arena
    {
      && (if p.0 in hdrs0 then arena.S() == s0 else FromArena(s0, infos[b].runPages, p.0))
      && p !in Live(hdrs0) && Live(hdrs) == Live(hdrs0) + iset{p}
      && p.0 in hdrs && hdrs[p.0].bin == b && p.1 < infos[b].nregs
      && (p.0 in hdrs0 ==> FirstFree(hdrs0[p.0].bits, infos[b].nregs, p.1))
      && (LowestNonfull(hdrs0, b, p.0) <==> lowest)
      && (AllLowest(bins0) ==> AllLowest(bins))
    }

    /** arena_bin_malloc_hard: from another run of the bin, or a new one. */
    method MallocHard(b: nat, given: Option<int>) returns (p: Option<(Addr, nat)>)
      requires Valid() && b < |bins| && (given.Some? ==> given.value !in arena.chunks)
      requires bins[b].runcur.Some? ==> bins[b].runcur.value in hdrs && hdrs[bins[b].runcur.value].nfree <= 0
      modifies this, arena
      ensures Valid()
      ensures |bins| == |infos| && (p == None <==> old(AllFull(b)) && old(NoNewRun(b, given)))
      ensures p == None ==> hdrs == old(hdrs) && arena.S() == old(arena.S()) && bins == old(bins)[b := Bin(None, old(bins[b].runs))]
      ensures p.Some? ==> HandedOut(old(arena.S()), old(bins), old(hdrs), b, p.value, true)
    {
      ghost var s0, bins0, hdrs0 := arena.S(), bins, hdrs;
      LetGo(b);
      ghost var mid := bins;
      p := FromOther(b, given);
      if p.Some? { HandedFrom(s0, bins0, mid, hdrs0, b, p.value); }
    }

    lemma HandedFrom(s0: State, bins0: seq<Bin>, mid: seq<Bin>, hdrs0: map<Addr, Hdr>, b: nat, p: (Addr, nat))
      requires b < |bins0| && b < |infos| && mid == bins0[b := Bin(None, bins0[b].runs)] && HandedOut(s0, mid, hdrs0, b, p, true)
      ensures HandedOut(s0, bins0, hdrs0, b, p, true)
    {
      if AllLowest(bins0) { LowestSet(bins0, b, Bin(None, bins0[b].runs)); }
    }

    method FromOther(b: nat, given: Option<int>) returns (p: Option<(Addr, nat)>)
      requires Valid() && b < |bins| && bins[b].runcur == None && (given.Some? ==> given.value !in arena.chunks)
      modifies this, arena
      ensures Valid() && |bins| == |infos| && (p == None <==> old(bins[b].runs) == {} && old(NoNewRun(b, given)))
      ensures p == None ==> hdrs == old(hdrs) && arena.S() == old(arena.S()) && bins == old(bins)
      ensures p.Some? ==> HandedOut(old(arena.S()), old(bins), old(hdrs), b, p.value, true)
    {
      ghost var bins0 := bins;
      var r := NonfullRunGet(b, given);
      if r == None {
        return None;
      }
      ghost var was, took := hdrs, bins;
      var k := RegAlloc(r.value, r);
      LiveAdd(was, r.value, AfterAlloc(was[r.value], k), k);
      if AllLowest(bins0) { TakenLowest(bins0, took, b, r.value); }
      p := Some((r.value, k));
    }

    /** arena_malloc_small: a region from the current run of the bin, another of
        its runs, or a new one. */
    method Malloc(b: nat, given: Option<int>) returns (p: Option<(Addr, nat)>)
      requires Valid() && b < |bins| && (given.Some? ==> given.value !in arena.chunks)
      modifies this, arena
      ensures Valid()
      ensures |bins| == |infos| && (p == None <==> old(AllFull(b)) && old(NoNewRun(b, given)))
      ensures p == None ==> hdrs == old(hdrs) && arena.S() == old(arena.S()) && bins == old(bins)[b := Bin(None, old(bins[b].runs))]
      ensures p.Some? ==> HandedOut(old(arena.S()), old(bins), old(hdrs), b, p.value, CurrentLowest(old(bins[b]), old(hdrs)))
    {
      assert OwnAt(bins, hdrs, b);
      var cur := bins[b].runcur;
      if cur.Some? && hdrs[cur.value].nfree > 0 {
        p := MallocCurrent(b, cur.value);
      } else {
        p := MallocHard(b, given);
      }
    }

    method MallocCurrent(b: nat, r: Addr) returns (p: Option<(Addr, nat)>)
      requires Valid() && b < |bins| && bins[b].runcur == Some(r) && r in hdrs && hdrs[r].bin == b && hdrs[r].nfree > 0
      modifies this`hdrs, this`ever, this`bins
      ensures Valid() && |bins| == |infos| && p.Some? && !old(AllFull(b))
      ensures HandedOut(old(arena.S()), old(bins), old(hdrs), b, p.value, CurrentLowest(old(bins[b]), old(hdrs)))
    {
      ghost var was, bins0 := hdrs, bins;
      CurrentNonfull(bins, hdrs, b, r);
      var k := RegAlloc(r, None);
      LiveAdd(was, r, AfterAlloc(was[r], k), k);
      if AllLowest(bins0) { TakenLowest(bins0, bins0, b, r); }
      p := Some((r, k));
    }

    /** arena_dalloc_bin, when the run keeps a region in use: a run that was full
        is where new regions come from again. */
    method FreePart(r: Addr, k: nat)
      requires Valid() && r in hdrs && k in hdrs[r].bits && hdrs[r].bin < |infos| && hdrs[r].nfree + 1 < infos[hdrs[r].bin].nregs
      modifies this`hdrs, this`ever, this`bins
      ensures Valid() && hdrs == old(hdrs)[r := AfterFree(old(hdrs[r]), k)]
      ensures bins == Refiled(old(bins), hdrs, r)
    {
      PartKeeps(arena.S(), infos, bins, hdrs, ever, r, k);
      var h := hdrs[r := AfterFree(hdrs[r], k)];
      Update(h, ever, Refiled(bins, h, r));
    }

    lemma NotFiled(r: Addr)
      requires Valid() && r in hdrs
      ensures hdrs[r].bin < |bins| && (hdrs[r].nfree == 0 ==> r !in bins[hdrs[r].bin].runs)
    {
      assert FiledAt(bins, hdrs, None, r);
    }

    /** From state `s` a run was given back, which led to `mid`, and then the arena was
        purged if needed.  Of a clean run only the pages are dirty that some region
        handed out, or the header, reaches into. */
    ghost predicate GivenBackFrom(s: State, mid: State, r: Addr, info: BinInfo, nextind: nat)
      reads arena
    {
      && AllocAt(s, r.c, r.i).Some?
      && (var used := if AllocAt(s, r.c, r.i).value.dirty then info.runPages else Past(info, nextind);
          && DirtyBut(s, mid, r.c, r.i, r.i + used, true) && CleanFrom(arena.S(), r.c, r.i + used, r.i + info.runPages))
      && arena.PurgedFrom(mid) && arena.PurgedIfNeeded(mid)
    }

    /** The run goes back to the arena, the pages that were never touched as clean
        ones. */
    method ReturnRun(r: Addr, info: BinInfo, nextind: nat) returns (ghost mid: State)
      requires arena.Valid() && arena.Bounded() && SmallRun(arena.S(), r.c, r.i, info.runPages)
      requires InfoOk(info, arena.npages) && nextind <= info.nregs
      modifies arena
      ensures arena.Valid() && arena.Bounded() && OneLess(old(arena.S()), arena.S(), r.c, r.i)
      ensures GivenBackFrom(old(arena.S()), mid, r, info, nextind)
    {
      NeverTouched(arena.npages, info, nextind);
      mid := arena.DallocBinRun(r.c, r.i, info.runPages, Past(info, nextind));
    }

    /** arena_dalloc_bin, when the run is wholly free: it leaves its bin and goes
        back to the arena, the pages that were never touched as clean ones. */
    method FreeRun(r: Addr, k: nat) returns (ghost mid: State)
      requires Valid() && r in hdrs && k in hdrs[r].bits && hdrs[r].bin < |infos| && hdrs[r].nfree + 1 == infos[hdrs[r].bin].nregs
      modifies this`hdrs, this`bins, this`ever, arena
      ensures Valid() && r !in hdrs && Live(hdrs) == old(Live(hdrs)) - iset{(r, k)}
      ensures GivenBackFrom(old(arena.S()), mid, r, infos[old(hdrs[r].bin)], old(hdrs[r].nextind))
      ensures bins == (var b := old(hdrs[r].bin); old(bins)[b := Dissociated(old(bins[b]), r, infos[b].nregs)])
    {
      ghost var s := arena.S();
      var h := hdrs[r];
      var info := infos[h.bin];
      assert HdrAt(infos, hdrs, ever, None, r);
      mid := ReturnRun(r, info, h.nextind);
      GoneKeeps(s, arena.S(), infos, bins, hdrs, ever, r, k);
      Update(hdrs - {r}, ever - {r}, bins[h.bin := Dissociated(bins[h.bin], r, info.nregs)]);
    }

    /** arena_dalloc_bin: exactly this region is free again.  The bins stay in the
        order of their runs unless the run of the region was full, and its bin had
        a lower one in the tree and no current one. */
    method Dalloc(r: Addr, k: nat) returns (ghost mid: State)
      requires Valid() && (r, k) in Live(hdrs)
      modifies this`hdrs, this`bins, this`ever, arena
      ensures Valid() && Live(hdrs) == old(Live(hdrs)) - iset{(r, k)}
      ensures old(AllLowest(bins)) ==> (AllLowest(bins) <==> !old(PastLower(r)))
      ensures old(r in hdrs) && old(hdrs[r].bin) < |infos| && ArenaAfter(old(arena.S()), mid, r, old(hdrs[r]))
    {
      FreeKeeps(arena.S(), infos, bins, hdrs, ever, r, k);
      if hdrs[r].nfree + 1 == infos[hdrs[r].bin].nregs {
        mid := FreeLast(r, k);
      } else {
        FreeOne(r, k);
        mid := arena.S();
      }
    }

    /** The arena is as in state `s`, or has got back the run whose header was `h`. */
    ghost predicate ArenaAfter(s: State, mid: State, r: Addr, h: Hdr)
      requires h.bin < |infos|
      reads arena
    {
      if h.nfree + 1 == infos[h.bin].nregs then GivenBackFrom(s, mid, r, infos[h.bin], h.nextind) else arena.S() == s
    }

    method FreeOne(r: Addr, k: nat)
      requires Valid() && r in hdrs && k in hdrs[r].bits && hdrs[r].bin < |infos| && hdrs[r].nfree + 1 < infos[hdrs[r].bin].nregs
      modifies this`hdrs, this`ever, this`bins
      ensures Valid() && Live(hdrs) == old(Live(hdrs)) - iset{(r, k)}
      ensures old(AllLowest(bins)) ==> (AllLowest(bins) <==> !old(PastLower(r)))
    {
      NotFiled(r);
      ghost var was := bins;
      LiveLess(hdrs, r, AfterFree(hdrs[r], k), k);
      FreePart(r, k);
      if AllLowest(was) { RefiledLowest(was, hdrs, r); }
    }

    method FreeLast(r: Addr, k: nat) returns (ghost mid: State)
      requires Valid() && r in hdrs && k in hdrs[r].bits && hdrs[r].bin < |infos| && hdrs[r].nfree + 1 == infos[hdrs[r].bin].nregs
      modifies this`hdrs, this`bins, this`ever, arena
      ensures Valid() && Live(hdrs) == old(Live(hdrs)) - iset{(r, k)}
      ensures old(AllLowest(bins)) ==> AllLowest(bins) && !old(PastLower(r))
      ensures GivenBackFrom(old(arena.S()), mid, r, infos[old(hdrs[r].bin)], old(hdrs[r].nextind))
    {
      NotFiled(r);
      ghost var was, b := bins, hdrs[r].bin;
      mid := FreeRun(r, k);
      if AllLowest(was) { DissociatedLowest(was, b, r, infos[b].nregs); }
    }

    /** The run is full, and would be the current one of its bin although a lower
        run with free regions is in the tree. */
    ghost predicate PastLower(r: Addr)
      reads this
    {
      && r in hdrs && hdrs[r].bin < |bins| && hdrs[r].bin < |infos|
      && hdrs[r].nfree == 0 && infos[hdrs[r].bin].nregs > 1 && Overtakes(bins[hdrs[r].bin], r)
    }

    /** The run and region that a pointer into chunk `c` belongs to: the run from
        the page map, the region by division (arena_run_regind). */
    method Resolve(c: int, off: nat, ghost q: Addr, ghost j: nat) returns (r: Addr, k: nat)
      requires Valid() && (q, j) in Live(hdrs) && q.c == c && q in hdrs && hdrs[q].bin < |infos|
      requires off == Start(arena.mapBias, infos[hdrs[q].bin], q, j)
      ensures r == q && k == j
    {
      LiveIndex(arena.S(), infos, bins, hdrs, ever, q, j);
      r := RunOf(c, off, q, j);
      IndexOfRegion(arena.mapBias, arena.npages, infos[hdrs[q].bin], q, j);
      k := IndexOf(arena.mapBias, infos[hdrs[r].bin], r, off);
    }

    method RunOf(c: int, off: nat, ghost q: Addr, ghost j: nat) returns (r: Addr)
      requires Valid() && q.c == c && q in hdrs && hdrs[q].bin < |infos| && j < infos[hdrs[q].bin].nregs
      requires off == Start(arena.mapBias, infos[hdrs[q].bin], q, j)
      ensures r == q
    {
      PageOfRegion(arena.S(), infos, hdrs, arena.mapBias, q, j);
      var page := off / 4096 - arena.mapBias;
      r := Addr(c, page - arena.chunks[c].pages[page].num);
    }

    /** arena_dalloc for a small region: the pointer handed out for a region frees
        exactly that region. */
    method FreePointer(c: int, off: nat, ghost q: Addr, ghost j: nat) returns (ghost mid: State)
      requires Valid() && (q, j) in Live(hdrs) && q.c == c && q in hdrs && hdrs[q].bin < |infos|
      requires off == Start(arena.mapBias, infos[hdrs[q].bin], q, j)
      modifies this`hdrs, this`bins, this`ever, arena
      ensures Valid() && Live(hdrs) == old(Live(hdrs)) - iset{(q, j)}
      ensures old(AllLowest(bins)) ==> (AllLowest(bins) <==> !old(PastLower(q)))
      ensures ArenaAfter(old(arena.S()), mid, q, old(hdrs[q]))
    {
      var r, k := Resolve(c, off, q, j);
      mid := Dalloc(r, k);
    }

    // ----- large runs of the same arena -----

    /** arena_malloc_large, beside the small regions. */
    method LargeMalloc(need: nat, given: Option<int>) returns (r: Option<(int, int)>)
      requires Valid() && 1 <= need <= arena.npages && (given.Some? ==> given.value !in arena.chunks)
      modifies arena
      ensures Valid() && (r == None <==> old(arena.NoRun(need, given)))
      ensures r == None ==> arena.S() == old(arena.S())
      ensures r.Some? ==> Chosen(old(arena.S()), need, r.value.0, r.value.1) && Taken(old(arena.S()), arena.S(), r.value.0, r.value.1, need, Large)
    {
      ghost var s := arena.S();
      r := arena.MallocLarge(need, given);
      LargeApart(s, arena.S(), infos, bins, hdrs, ever);
    }

    /** arena_dalloc_large. */
    method LargeDalloc(c: int, i: int, ghost n: nat) returns (ghost mid: State)
      requires Valid() && LargeRun(arena.S(), c, i, n)
      modifies arena
      ensures Valid() && OneLess(old(arena.S()), arena.S(), c, i) && arena.nactive == old(arena.nactive) - n
      ensures DirtyBut(old(arena.S()), mid, c, i, i + n, true) && arena.PurgedFrom(mid) && arena.PurgedIfNeeded(mid)
    {
      ghost var s := arena.S();
      mid := arena.DallocLarge(c, i, n);
      LargeApart(s, arena.S(), infos, bins, hdrs, ever);
    }

    /** arena_ralloc_large. */
    method LargeRalloc(c: int, i: int, oldn: nat, size: nat, psize: nat) returns (fail: bool, ghost mid: State)
      requires Valid() && LargeRun(arena.S(), c, i, oldn) && 1 <= size <= psize
      modifies arena
      ensures Valid()
      ensures var follow := old(FreeAt(arena.S(), c, i + oldn));
              && (fail <==> psize > oldn && (size < oldn || follow == 0 || follow < size - oldn))
              && (fail ==> arena.S() == old(arena.S()))
              && (var n := if psize <= oldn || psize <= oldn + follow then psize else oldn + follow;
                  !fail ==> size <= n <= psize && Grown(old(arena.S()), arena.S(), c, i, n) && arena.nactive == old(arena.nactive) + n - oldn
                            && (n > oldn ==> Swallowed(old(arena.S()), arena.S(), c, i + oldn, n - oldn))
                            && (n < oldn ==> DirtyBut(old(arena.S()), mid, c, i + n, i + oldn, true) && arena.PurgedFrom(mid) && arena.PurgedIfNeeded(mid)))
    {
      ghost var s := arena.S();
      fail, mid := arena.RallocLarge(c, i, oldn, size, psize);
      LargeApart(s, arena.S(), infos, bins, hdrs, ever);
    }

    /** arena_palloc. */
    method LargePalloc(need: nat, total: nat, align: nat, given: Option<int>) returns (r: Option<(int, int)>)
      requires Valid() && 1 <= need && 2 <= align && need + align - 1 <= total <= arena.npages && (given.Some? ==> given.value !in arena.chunks)
      modifies arena
      ensures Valid() && (r == None <==> old(arena.NoRun(total, given)))
      ensures r == None ==> arena.S() == old(arena.S())
      ensures r.Some? ==> arena.AlignedRun(old(arena.S()), r.value.0, r.value.1, need, align)
                          && arena.FirstAligned(old(arena.S()), r.value.0, r.value.1, total, align) && NotDirtier(old(arena.S()), arena.S())
    {
      ghost var s := arena.S();
      r := arena.Palloc(need, total, align, given);
      LargeApart(s, arena.S(), infos, bins, hdrs, ever);
    }

    /** arena_purge_all. */
    method LargePurge()
      requires Valid()
      modifies arena
      ensures Valid() && arena.ndirty == 0 && arena.PurgedFrom(old(arena.S()))
    {
      ghost var s := arena.S();
      arena.PurgeAll();
      LargeApart(s, arena.S(), infos, bins, hdrs, ever);
    }
  }
}
