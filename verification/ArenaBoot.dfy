/** Boot (arena.c, arena_boot and arena_new) and aligned allocation
    (jemalloc_internal.h, ipalloc): the tables and the arithmetic give the layers
    above what those ask for. */
module ArenaBoot {
  import opened Wrappers
  import opened PowersOfTwo
  import Division
  import opened SizeClasses
  import opened RunLayout
  import opened AlignedSizes
  import opened PageTiles
  import opened ArenaState
  import opened ArenaDirty
  import opened ArenaLarge
  import opened ArenaRuns
  import opened SmallState
  import opened SmallBins

  /** Chunk size, header and largest run belong together. */
  ghost predicate Booted(cfg: Config, mapBias: nat, npages: nat) {
    && ConfigOk(cfg) && npages >= 1 && mapBias >= 1 && cfg.maxclass == npages * 4096
    && (mapBias + npages) * 4096 == Pow2(cfg.lgChunk)
  }

  /** The pages of a chunk. */
  lemma ChunkPages(lgChunk: nat)
    requires 13 <= lgChunk < 64
    ensures Pow2(lgChunk) == Pow2(lgChunk - 12) * 4096 && Pow2(lgChunk - 12) >= 2
  {
    PowersDivide(12, lgChunk);
    WordIs();
    PowGrows(0, lgChunk - 12);
  }

  /** arena_boot, then arena_new: for all settings that option parsing lets pass
      the header leaves room for runs, every bin has a layout that the layer of
      small regions can use, and that layer begins with nothing allocated. */
  method Boot(lgQspaceMax: nat, lgCspaceMax: nat, lgChunk: nat, lgDirtyMult: int) returns (cfg: Config, table: array<int>, small: Small)
    requires Legal(lgQspaceMax, lgCspaceMax) && 13 <= lgChunk < 64
    ensures cfg.lgChunk == lgChunk && Ready(cfg, table, small)
    ensures 40 + 24 * small.arena.npages <= small.arena.mapBias * 4096
    ensures fresh(table) && fresh(small) && fresh(small.arena) && Live(small.hdrs) == iset{} && AllLowest(small.bins)
  {
    var sp := SpaceBoot(lgQspaceMax, lgCspaceMax);
    ChunkPages(lgChunk);
    var n := Pow2(lgChunk - 12);
    RoomForRuns(n);
    var bias := MapBias(n, 40, 24);
    var maxclass := (n - bias) * 4096;
    cfg := Config(sp, lgChunk, maxclass);
    Division.DivUnique(maxclass, n - bias, 4096, 0);
    table := Size2BinInit(sp);
    var infos := BinInfoInit(sp, n - bias);
    var arena := new Arena(bias, n - bias, lgDirtyMult);
    small := new Small(arena, infos);
  }

  /** What boot leaves behind, and every operation keeps. */
  ghost predicate Ready(cfg: Config, table: array<int>, small: Small)
    reads table, small, small.arena
  {
    && Booted(cfg, small.arena.mapBias, small.arena.npages) && Filled(table, cfg.sp, 480) && ClassesOf(cfg.sp, small.infos)
    && small.Valid()
  }

  /** Every bin has regions of its class. */
  ghost predicate ClassesOf(sp: Spaces, infos: seq<BinInfo>) {
    SpacesOk(sp) && |infos| == Nbins(sp) && forall b: nat :: b < |infos| ==> infos[b].regSize == RegSize(sp, b)
  }

  /** The block of `size` bytes at offset `off` of a chunk: it belongs to a region
      of the smallest class that is not below the size, no byte of it to another
      region in use, and it is aligned as the size is. */
  ghost predicate BlockAt(sp: Spaces, small: Small, size: nat, r: Addr, k: nat, off: int)
    requires ClassesOf(sp, small.infos)
    reads small
  {
    && r in small.hdrs && small.hdrs[r].bin < |small.infos|
    && (forall d: nat :: d < Nbins(sp) ==> (size <= RegSize(sp, d) <==> small.hdrs[r].bin <= d))
    && off == Start(small.arena.mapBias, small.infos[small.hdrs[r].bin], r, k)
    && Own(small.infos, small.hdrs, small.arena.mapBias, small.arena.npages, r, k, size)
    && forall a: nat :: SmallPower(a) && size % a == 0 ==> off % a == 0
  }

  /** arena_malloc_small, from the size asked for to the block handed out. */
  method MallocSize(cfg: Config, table: array<int>, small: Small, size: nat, given: Option<int>) returns (p: Option<(Addr, nat)>, off: int)
    requires Ready(cfg, table, small) && 1 <= size <= 3840 && (given.Some? ==> given.value !in small.arena.chunks)
    modifies small, small.arena
    ensures Ready(cfg, table, small)
    ensures var b := Size2Bin(cfg.sp, size);
            0 <= b < |small.infos| && (p == None <==> old(small.AllFull(b)) && old(small.NoNewRun(b, given)))
    ensures p == None ==> small.hdrs == old(small.hdrs) && small.arena.S() == old(small.arena.S())
    ensures p.Some? ==> p.value !in old(Live(small.hdrs)) && Live(small.hdrs) == old(Live(small.hdrs)) + iset{p.value}
    ensures p.Some? ==> BlockAt(cfg.sp, small, size, p.value.0, p.value.1, off)
  {
    SmallestClass(cfg.sp, size);
    var b := table[(size - 1) / 8];
    assert b == Size2Bin(cfg.sp, size);
    p := small.Malloc(b, given);
    off := 0;
    if p.Some? {
      var (r, k) := p.value;
      off := Start(small.arena.mapBias, small.infos[b], r, k);
      BlockIsOwn(small.arena.S(), small.infos, small.bins, small.hdrs, small.ever, small.arena.mapBias, r, k, size);
      BlockAligned(cfg.sp, small.infos[b], small.arena.mapBias, small.arena.npages, size, r, k);
    }
  }

  lemma BlockAligned(sp: Spaces, info: BinInfo, mapBias: nat, npages: nat, size: nat, r: Addr, k: nat)
    requires SpacesOk(sp) && 1 <= size <= 3840 && info.regSize == RegSize(sp, Size2Bin(sp, size)) && InfoOk(info, npages) && k < info.nregs
    requires mapBias + r.i >= 0
    ensures forall a: nat :: SmallPower(a) && size % a == 0 ==> Start(mapBias, info, r, k) % a == 0
  {
    forall a: nat | SmallPower(a) && size % a == 0 ensures Start(mapBias, info, r, k) % a == 0 {
      ClassAligned(sp, size, a);
      var page := mapBias + r.i;
      Division.DivUnique(page * 4096, page, 4096, 0);
      Division.DivUnique(info.runPages * 4096, info.runPages, 4096, 0);
      RegionAligned(page * 4096, info.reg0, info.regSize, info.nregs, info.runPages * 4096, k, a);
    }
  }

  /** A run of `need` pages at a multiple of `a` bytes, the first one in a free run of
      `total` pages or more. */
  ghost predicate AlignedAt(arena: Arena, s: State, c: int, i: int, need: nat, total: nat, a: nat)
    requires a >= 4096
    reads arena
  {
    && ((arena.mapBias + i) * 4096) % a == 0 && arena.AlignedRun(s, c, i, need, a / 4096)
    && arena.FirstAligned(s, c, i, total, a / 4096) && NotDirtier(s, arena.S())
  }

  method PallocBytes(arena: Arena, need: nat, total: nat, a: nat, given: Option<int>) returns (r: Option<(int, int)>)
    requires arena.Valid() && arena.Bounded() && (given.Some? ==> given.value !in arena.chunks)
    requires a >= 8192 && a % 4096 == 0 && 1 <= need && need + a / 4096 - 1 <= total <= arena.npages
    modifies arena
    ensures arena.Valid() && arena.Bounded() && (r == None <==> old(arena.NoRun(total, given)))
    ensures r == None ==> arena.S() == old(arena.S())
    ensures r.Some? ==> AlignedAt(arena, old(arena.S()), r.value.0, r.value.1, need, total, a)
  {
    var align := a / 4096;
    r := arena.Palloc(need, total, align, given);
    if r.Some? {
      InBytes(arena.mapBias + r.value.1, a, align);
    }
  }

  /** The run path of ipalloc: the usable size that the caller has from sa2u, the
      run size from a second call, and an aligned run of exactly that size. */
  method IpallocRun(cfg: Config, arena: Arena, ghost size: nat, usize: nat, k: nat, given: Option<int>) returns (r: Option<(int, int)>)
    requires Booted(cfg, arena.mapBias, arena.npages) && k < 64 && Pow2(k) < WORD && LargePath(cfg, size, Pow2(k))
    requires usize == Sa2u(cfg, size, Pow2(k)).0 != 0 && Sa2u(cfg, size, Pow2(k)).1.value <= cfg.maxclass
    requires arena.Valid() && arena.Bounded() && (given.Some? ==> given.value !in arena.chunks)
    modifies arena
    ensures arena.Valid() && arena.Bounded() && usize % 4096 == 0 && size <= usize && Pow2(k) >= 4096
    ensures Sa2u(cfg, size, Pow2(k)).1.Some? && (r == None <==> old(arena.NoRun(Sa2u(cfg, size, Pow2(k)).1.value / 4096, given)))
    ensures r == None ==> arena.S() == old(arena.S())
    ensures r.Some? ==> AlignedAt(arena, old(arena.S()), r.value.0, r.value.1, usize / 4096, Sa2u(cfg, size, Pow2(k)).1.value / 4096, Pow2(k))
  {
    ghost var mapBias, npages := arena.mapBias, arena.npages;
    RunAsked(cfg, mapBias, npages, size, usize, k);
    var a, run := Pow2(k), Sa2u(cfg, usize, Pow2(k)).1.value;
    r := PallocBytes(arena, usize / 4096, run / 4096, a, given);
  }

  /** What ipalloc passes on is what arena_palloc asks for. */
  lemma RunAsked(cfg: Config, mapBias: nat, npages: nat, size: nat, usize: nat, k: nat)
    requires Booted(cfg, mapBias, npages) && k < 64 && Pow2(k) < WORD && LargePath(cfg, size, Pow2(k))
    requires usize == Sa2u(cfg, size, Pow2(k)).0 != 0 && Sa2u(cfg, size, Pow2(k)).1.value <= cfg.maxclass
    ensures size <= usize < WORD && usize % 4096 == 0 && usize >= 1 && Sa2u(cfg, usize, Pow2(k)).1 == Sa2u(cfg, size, Pow2(k)).1
    ensures var need, align, total := usize / 4096, Pow2(k) / 4096, Sa2u(cfg, usize, Pow2(k)).1.value / 4096;
            1 <= need && 2 <= align && Pow2(k) >= 8192 && need + align - 1 <= total <= npages && Pow2(k) % 4096 == 0
  {
    RunHasRoom(cfg, size, k);
    SecondCall(cfg, size, k);
    BelowChunk(cfg, size, k);
  }

  /** A run that fits in a chunk leaves size and alignment far below 2^64. */
  lemma BelowChunk(cfg: Config, size: nat, k: nat)
    requires ConfigOk(cfg) && k < 64 && Pow2(k) < WORD && LargePath(cfg, size, Pow2(k))
    requires Sa2u(cfg, size, Pow2(k)).0 != 0 && Sa2u(cfg, size, Pow2(k)).1.Some? && Sa2u(cfg, size, Pow2(k)).1.value <= cfg.maxclass
    ensures Sa2u(cfg, size, Pow2(k)).0 + RoundUp(Pow2(k), 4096) < WORD
  {
    Sa2uLarge(cfg, size, k);
  }

  lemma InBytes(page: int, a: nat, b: nat)
    requires a > 0 && a % 4096 == 0 && b == a / 4096 > 0 && page % b == 0
    ensures (page * 4096) % a == 0
  {
    var q := page / b;
    assert page == q * b && a == b * 4096;
    assert page * 4096 == q * a;
    Division.DivUnique(page * 4096, q, a, 0);
  }
}
