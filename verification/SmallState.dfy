/** Small regions inside runs (arena.c, arena.h): what each bin knows of its
    runs, and where regions lie. */
module SmallState {
  import opened Wrappers
  import opened PageTiles
  import opened ArenaState
  import opened ArenaCoalesce
  import opened ArenaAlloc
  import opened ArenaLarge
  import Division
  import Regind

  /** Where a run starts: chunk and page. */
  datatype Addr = Addr(c: int, i: int)

  /** arena_bin_info_t: sizes in bytes, run length in pages. */
  datatype BinInfo = BinInfo(regSize: nat, runPages: nat, nregs: nat, reg0: nat)

  /** arena_run_t: its bin, the index past the highest region ever handed out,
      how many regions are free, and the regions that are set in its bitmap. */
  datatype Hdr = Hdr(bin: nat, nextind: nat, nfree: int, bits: set<nat>)

  /** arena_bin_t: the current run, and the tree of other non-full runs. */
  datatype Bin = Bin(runcur: Option<Addr>, runs: set<Addr>)

  /** Regions fill the run up to its end. */
  ghost predicate InfoOk(info: BinInfo, npages: nat) {
    && info.regSize >= 1 && 1 <= info.runPages <= npages && 1 <= info.nregs <= 0x800 && info.reg0 >= 1
    && info.reg0 + info.nregs * info.regSize == info.runPages * 4096
  }

  ghost predicate InfosOk(infos: seq<BinInfo>, npages: nat) {
    forall b :: 0 <= b < |infos| ==> InfoOk(infos[b], npages)
  }

  predicate Lower(a: Addr, b: Addr) {
    a.c < b.c || (a.c == b.c && a.i < b.i)
  }

  /** The address of the first byte of a run, in chunks of `npages` pages behind
      `mapBias` pages of header. */
  function Address(mapBias: nat, npages: nat, a: Addr): int {
    a.c * ((mapBias + npages) * 4096) + (mapBias + a.i) * 4096
  }

  /** That is the order of addresses. */
  lemma LowerIs(mapBias: nat, npages: nat, a: Addr, b: Addr)
    requires 0 <= a.i < npages && 0 <= b.i < npages
    ensures Lower(a, b) <==> Address(mapBias, npages, a) < Address(mapBias, npages, b)
  {
    var size := (mapBias + npages) * 4096;
    if a.c < b.c {
      Division.MulMonotone(a.c + 1, b.c, size);
      Division.Distributes(a.c, 1, size);
    } else if b.c < a.c {
      Division.MulMonotone(b.c + 1, a.c, size);
      Division.Distributes(b.c, 1, size);
    }
  }

  /** Free and used regions add up; none past `nextind` was ever handed out;
      and a run that is not being set up has a region in use. */
  ghost predicate HdrOk(info: BinInfo, h: Hdr, ever: set<nat>, loose: bool) {
    && h.nfree == info.nregs - |h.bits| && h.nextind <= info.nregs
    && h.bits <= ever && (forall k :: k in ever ==> k < h.nextind)
    && (!loose ==> h.bits != {})
  }

  ghost predicate HdrsOk(infos: seq<BinInfo>, hdrs: map<Addr, Hdr>, ever: map<Addr, set<nat>>, loose: Option<Addr>) {
    hdrs.Keys == ever.Keys && forall r :: r in hdrs ==> HdrAt(infos, hdrs, ever, loose, r)
  }

  ghost predicate HdrAt(infos: seq<BinInfo>, hdrs: map<Addr, Hdr>, ever: map<Addr, set<nat>>, loose: Option<Addr>, r: Addr)
    requires r in hdrs && r in ever
  {
    hdrs[r].bin < |infos| && HdrOk(infos[hdrs[r].bin], hdrs[r], ever[r], loose == Some(r))
  }

  /** A run is the current one of its bin, or in its tree; a run with free
      regions is in exactly one of the two places, a full one not in the tree. */
  ghost predicate FiledAt(bins: seq<Bin>, hdrs: map<Addr, Hdr>, loose: Option<Addr>, r: Addr)
    requires r in hdrs
  {
    && hdrs[r].bin < |bins|
    && (r in bins[hdrs[r].bin].runs <==> hdrs[r].nfree > 0 && bins[hdrs[r].bin].runcur != Some(r) && loose != Some(r))
    && (loose == Some(r) ==> bins[hdrs[r].bin].runcur != Some(r))
  }

  /** What a bin refers to are its own runs. */
  ghost predicate OwnAt(bins: seq<Bin>, hdrs: map<Addr, Hdr>, b: nat)
    requires b < |bins|
  {
    && (bins[b].runcur.Some? ==> bins[b].runcur.value in hdrs && hdrs[bins[b].runcur.value].bin == b)
    && (forall r :: r in bins[b].runs ==> r in hdrs && hdrs[r].bin == b)
  }

  ghost predicate Filed(bins: seq<Bin>, hdrs: map<Addr, Hdr>, loose: Option<Addr>) {
    && (forall r :: r in hdrs ==> FiledAt(bins, hdrs, loose, r))
    && (forall b :: 0 <= b < |bins| ==> OwnAt(bins, hdrs, b))
  }

  /** The small runs of the arena are the runs with a header. */
  ghost predicate RunsOk(s: State, infos: seq<BinInfo>, hdrs: map<Addr, Hdr>) {
    && (forall r :: r in hdrs ==> hdrs[r].bin < |infos| && SmallRun(s, r.c, r.i, infos[hdrs[r].bin].runPages))
    && (forall c, i :: AllocAt(s, c, i).Some? && AllocAt(s, c, i).value.kind == Small ==> Addr(c, i) in hdrs)
  }

  /** The regions in use: run and index. */
  ghost function Live(hdrs: map<Addr, Hdr>): iset<(Addr, nat)> {
    iset r: Addr, k: nat | r in hdrs && k in hdrs[r].bits :: (r, k)
  }

  lemma LiveAdd(hdrs: map<Addr, Hdr>, r: Addr, h: Hdr, k: nat)
    requires r in hdrs && h.bits == hdrs[r].bits + {k}
    ensures Live(hdrs[r := h]) == Live(hdrs) + iset{(r, k)}
  {
  }

  lemma LiveLess(hdrs: map<Addr, Hdr>, r: Addr, h: Hdr, k: nat)
    requires r in hdrs && h.bits == hdrs[r].bits - {k}
    ensures Live(hdrs[r := h]) == Live(hdrs) - iset{(r, k)}
  {
  }

  lemma LiveGone(hdrs: map<Addr, Hdr>, r: Addr, k: nat)
    requires r in hdrs && k in hdrs[r].bits && hdrs[r].bits - {k} == {}
    ensures Live(hdrs - {r}) == Live(hdrs) - iset{(r, k)}
  {
    forall j | j in hdrs[r].bits ensures j == k {
      assert j !in hdrs[r].bits - {k};
    }
  }

  lemma LiveNone(hdrs: map<Addr, Hdr>, r: Addr, h: Hdr)
    requires h.bits == {} && (r in hdrs ==> hdrs[r].bits == {})
    ensures Live(hdrs[r := h]) == Live(hdrs) == Live(hdrs - {r})
  {
  }

  // ----- changing one header -----

  /** A header changes; its run may change between loose and filed. */
  lemma HdrSet(infos: seq<BinInfo>, hdrs: map<Addr, Hdr>, ever: map<Addr, set<nat>>, loose: Option<Addr>, loose': Option<Addr>,
               r: Addr, h: Hdr, e: set<nat>)
    requires HdrsOk(infos, hdrs, ever, loose) && (loose == None || loose == Some(r)) && (loose' == None || loose' == Some(r))
    requires h.bin < |infos| && HdrOk(infos[h.bin], h, e, loose' == Some(r))
    ensures HdrsOk(infos, hdrs[r := h], ever[r := e], loose')
  {
    var hdrs', ever' := hdrs[r := h], ever[r := e];
    forall q | q in hdrs' ensures HdrAt(infos, hdrs', ever', loose', q) {
      if q != r { assert HdrAt(infos, hdrs, ever, loose, q); }
    }
  }

  lemma HdrGone(infos: seq<BinInfo>, hdrs: map<Addr, Hdr>, ever: map<Addr, set<nat>>, r: Addr)
    requires HdrsOk(infos, hdrs, ever, Some(r))
    ensures HdrsOk(infos, hdrs - {r}, ever - {r}, None)
  {
    forall q | q in hdrs - {r} ensures HdrAt(infos, hdrs - {r}, ever - {r}, None, q) {
      assert HdrAt(infos, hdrs, ever, Some(r), q);
    }
  }

  /** A run of bin `b` other than `r` is where it belongs. */
  ghost predicate OtherFiled(bins: seq<Bin>, hdrs: map<Addr, Hdr>, b: nat, q: Addr)
    requires b < |bins| && q in hdrs
  {
    hdrs[q].bin == b ==> (q in bins[b].runs <==> hdrs[q].nfree > 0 && bins[b].runcur != Some(q))
  }

  /** One run's header and its bin change together. */
  lemma FiledSet(bins: seq<Bin>, hdrs: map<Addr, Hdr>, loose: Option<Addr>, bin: Bin, h: Hdr, loose': Option<Addr>, r: Addr)
    requires Filed(bins, hdrs, loose) && (loose == None || loose == Some(r)) && (loose' == None || loose' == Some(r))
    requires h.bin < |bins| && (r in hdrs ==> hdrs[r].bin == h.bin)
    requires var bins', hdrs' := bins[h.bin := bin], hdrs[r := h];
             && FiledAt(bins', hdrs', loose', r) && OwnAt(bins', hdrs', h.bin)
             && forall q :: q in hdrs && q != r ==> OtherFiled(bins', hdrs, h.bin, q)
    ensures Filed(bins[h.bin := bin], hdrs[r := h], loose')
  {
    var bins', hdrs' := bins[h.bin := bin], hdrs[r := h];
    forall q | q in hdrs' ensures FiledAt(bins', hdrs', loose', q) {
      if q != r {
        assert FiledAt(bins, hdrs, loose, q) && OtherFiled(bins', hdrs, h.bin, q);
      }
    }
    forall d | 0 <= d < |bins'| ensures OwnAt(bins', hdrs', d) {
      assert OwnAt(bins, hdrs, d);
    }
  }

  lemma FiledGone(bins: seq<Bin>, hdrs: map<Addr, Hdr>, r: Addr)
    requires Filed(bins, hdrs, Some(r)) && r in hdrs
    ensures Filed(bins, hdrs - {r}, None)
  {
    assert FiledAt(bins, hdrs, Some(r), r);
    forall q | q in hdrs - {r} ensures FiledAt(bins, hdrs - {r}, None, q) {
      assert FiledAt(bins, hdrs, Some(r), q);
    }
    forall d | 0 <= d < |bins| ensures OwnAt(bins, hdrs - {r}, d) {
      assert OwnAt(bins, hdrs, d);
    }
  }

  // ----- the runs of the arena -----

  lemma RunsMore(s: State, s': State, infos: seq<BinInfo>, hdrs: map<Addr, Hdr>, r: Addr, t: Tile, h: Hdr)
    requires RunsOk(s, infos, hdrs) && OneMore(s, s', r.c, r.i, t) && h.bin < |infos| && SmallRun(s', r.c, r.i, infos[h.bin].runPages)
    ensures r !in hdrs && RunsOk(s', infos, hdrs[r := h])
  {
  }

  lemma RunsLess(s: State, s': State, infos: seq<BinInfo>, hdrs: map<Addr, Hdr>, r: Addr)
    requires RunsOk(s, infos, hdrs) && r in hdrs && OneLess(s, s', r.c, r.i)
    ensures RunsOk(s', infos, hdrs - {r})
  {
  }

  lemma RunsSame(s: State, infos: seq<BinInfo>, hdrs: map<Addr, Hdr>, r: Addr, h: Hdr)
    requires RunsOk(s, infos, hdrs) && r in hdrs && h.bin == hdrs[r].bin
    ensures RunsOk(s, infos, hdrs[r := h])
  {
  }

  /** The same small runs as before. */
  ghost predicate SameSmall(s: State, s': State) {
    s'.npages == s.npages && forall c, i :: SmallTile(AllocAt(s', c, i)) == SmallTile(AllocAt(s, c, i))
  }

  ghost function SmallTile(t: Option<Tile>): Option<Tile> {
    if t.Some? && t.value.kind == Small then t else None
  }

  /** Whatever happens to large runs, the layer of small regions is as it was. */
  lemma LargeApart(s: State, s': State, infos: seq<BinInfo>, bins: seq<Bin>, hdrs: map<Addr, Hdr>, ever: map<Addr, set<nat>>)
    requires AllOk(s, infos, bins, hdrs, ever, None) && SameSmall(s, s')
    ensures AllOk(s', infos, bins, hdrs, ever, None)
  {
    forall r | r in hdrs ensures SmallRun(s', r.c, r.i, infos[hdrs[r].bin].runPages) {
      assert SmallTile(AllocAt(s', r.c, r.i)) == SmallTile(AllocAt(s, r.c, r.i));
    }
    forall c, i | AllocAt(s', c, i).Some? && AllocAt(s', c, i).value.kind == Small ensures Addr(c, i) in hdrs {
      assert SmallTile(AllocAt(s', c, i)) == SmallTile(AllocAt(s, c, i));
    }
  }

  // ----- the steps of the operations -----

  /** Bins, headers and the arena agree, but for the run `loose`. */
  ghost predicate AllOk(s: State, infos: seq<BinInfo>, bins: seq<Bin>, hdrs: map<Addr, Hdr>, ever: map<Addr, set<nat>>, loose: Option<Addr>) {
    && InfosOk(infos, s.npages) && |bins| == |infos|
    && RunsOk(s, infos, hdrs) && HdrsOk(infos, hdrs, ever, loose) && Filed(bins, hdrs, loose)
    && (loose.Some? ==> loose.value in hdrs)
  }

  /** A run leaves the tree of its bin. */
  lemma TakeKeeps(s: State, infos: seq<BinInfo>, bins: seq<Bin>, hdrs: map<Addr, Hdr>, ever: map<Addr, set<nat>>, b: nat, r: Addr)
    requires AllOk(s, infos, bins, hdrs, ever, None) && b < |bins| && bins[b].runcur == None && r in bins[b].runs
    ensures r in hdrs && hdrs[r].bin == b && hdrs[r].nfree > 0
    ensures AllOk(s, infos, bins[b := Bin(None, bins[b].runs - {r})], hdrs, ever, Some(r))
  {
    assert OwnAt(bins, hdrs, b);
    assert FiledAt(bins, hdrs, None, r);
    var bin := Bin(None, bins[b].runs - {r});
    forall q | q in hdrs && q != r ensures OtherFiled(bins[b := bin], hdrs, b, q) {
      assert FiledAt(bins, hdrs, None, q);
    }
    assert HdrAt(infos, hdrs, ever, None, r);
    assert hdrs[r := hdrs[r]] == hdrs && ever[r := ever[r]] == ever;
    FiledSet(bins, hdrs, None, bin, hdrs[r], Some(r), r);
    HdrSet(infos, hdrs, ever, None, Some(r), r, hdrs[r], ever[r]);
  }

  /** A new run is set up, with all its regions free. */
  lemma NewKeeps(s: State, s': State, infos: seq<BinInfo>, bins: seq<Bin>, hdrs: map<Addr, Hdr>, ever: map<Addr, set<nat>>, b: nat, r: Addr, t: Tile)
    requires AllOk(s, infos, bins, hdrs, ever, None) && b < |bins| && bins[b].runcur == None
    requires OneMore(s, s', r.c, r.i, t) && SmallRun(s', r.c, r.i, infos[b].runPages) && s'.npages == s.npages
    ensures r !in hdrs && AllOk(s', infos, bins, hdrs[r := Hdr(b, 0, infos[b].nregs, {})], ever[r := {}], Some(r))
  {
    var h := Hdr(b, 0, infos[b].nregs, {});
    RunsMore(s, s', infos, hdrs, r, t, h);
    HdrSet(infos, hdrs, ever, None, Some(r), r, h, {});
    assert OwnAt(bins, hdrs, b);
    forall q | q in hdrs && q != r ensures OtherFiled(bins, hdrs, b, q) {
      assert FiledAt(bins, hdrs, None, q);
    }
    assert bins[b := bins[b]] == bins;
    FiledSet(bins, hdrs, None, bins[b], h, Some(r), r);
  }

  /** The lowest of `n` regions that is not set. */
  ghost predicate FirstFree(bits: set<nat>, n: nat, k: nat) {
    k < n && k !in bits && forall j :: 0 <= j < k ==> j in bits
  }

  /** The header after region `k` was handed out (arena_run_reg_alloc). */
  function AfterAlloc(h: Hdr, k: nat): Hdr {
    Hdr(h.bin, if k == h.nextind then h.nextind + 1 else h.nextind, h.nfree - 1, h.bits + {k})
  }

  lemma AllocHdr(info: BinInfo, h: Hdr, e: set<nat>, loose: bool, k: nat)
    requires HdrOk(info, h, e, loose) && FirstFree(h.bits, info.nregs, k)
    ensures HdrOk(info, AfterAlloc(h, k), e + {k}, false)
  {
    assert h.nextind !in e;
    assert k <= h.nextind;
  }

  lemma AllocFiled(bins: seq<Bin>, hdrs: map<Addr, Hdr>, loose: Option<Addr>, r: Addr, h': Hdr)
    requires Filed(bins, hdrs, loose) && (loose == None || loose == Some(r)) && r in hdrs && h'.bin == hdrs[r].bin < |bins|
    requires bins[h'.bin].runcur == (if loose == None then Some(r) else None)
    ensures Filed(Headed(bins, h'.bin, r), hdrs[r := h'], None)
  {
    assert FiledAt(bins, hdrs, loose, r) && OwnAt(bins, hdrs, h'.bin);
    var bin := Bin(Some(r), bins[h'.bin].runs);
    forall q | q in hdrs && q != r ensures OtherFiled(bins[h'.bin := bin], hdrs, h'.bin, q) {
      assert FiledAt(bins, hdrs, loose, q);
    }
    FiledSet(bins, hdrs, loose, bin, h', None, r);
  }

  /** The run is the current one of the bin. */
  function Headed(bins: seq<Bin>, b: nat, r: Addr): seq<Bin>
    requires b < |bins|
  {
    bins[b := Bin(Some(r), bins[b].runs)]
  }

  /** A region is handed out of a run, which is the current one from now on. */
  lemma AllocKeeps(s: State, infos: seq<BinInfo>, bins: seq<Bin>, hdrs: map<Addr, Hdr>, ever: map<Addr, set<nat>>, loose: Option<Addr>, r: Addr, k: nat)
    requires AllOk(s, infos, bins, hdrs, ever, loose) && (loose == None || loose == Some(r)) && r in hdrs && r in ever
    requires hdrs[r].bin < |bins| && bins[hdrs[r].bin].runcur == (if loose == None then Some(r) else None)
    requires FirstFree(hdrs[r].bits, infos[hdrs[r].bin].nregs, k)
    ensures var b := hdrs[r].bin;
            AllOk(s, infos, Headed(bins, b, r), hdrs[r := AfterAlloc(hdrs[r], k)], ever[r := ever[r] + {k}], None)
  {
    var h, h' := hdrs[r], AfterAlloc(hdrs[r], k);
    assert HdrAt(infos, hdrs, ever, loose, r);
    AllocHdr(infos[h.bin], h, ever[r], loose == Some(r), k);
    HdrSet(infos, hdrs, ever, loose, None, r, h', ever[r] + {k});
    AllocFiled(bins, hdrs, loose, r, h');
    RunsSame(s, infos, hdrs, r, h');
  }

  /** The current run of a bin is full, and is not referred to any more. */
  lemma DropFull(s: State, infos: seq<BinInfo>, bins: seq<Bin>, hdrs: map<Addr, Hdr>, ever: map<Addr, set<nat>>, b: nat)
    requires AllOk(s, infos, bins, hdrs, ever, None) && b < |bins|
    requires bins[b].runcur.Some? ==> bins[b].runcur.value in hdrs && hdrs[bins[b].runcur.value].nfree <= 0
    ensures AllOk(s, infos, bins[b := Bin(None, bins[b].runs)], hdrs, ever, None)
  {
    var bins' := bins[b := Bin(None, bins[b].runs)];
    forall q | q in hdrs ensures FiledAt(bins', hdrs, None, q) {
      assert FiledAt(bins, hdrs, None, q);
    }
    forall d | 0 <= d < |bins'| ensures OwnAt(bins', hdrs, d) {
      assert OwnAt(bins, hdrs, d);
    }
  }

  /** The header after region `k` came back (arena_run_reg_dalloc). */
  function AfterFree(h: Hdr, k: nat): Hdr {
    Hdr(h.bin, h.nextind, h.nfree + 1, h.bits - {k})
  }

  /** The bin without the run (arena_dissociate_bin_run): a run of a single
      region was never in the tree. */
  function Dissociated(bin: Bin, r: Addr, nregs: nat): Bin {
    if bin.runcur == Some(r) then Bin(None, bin.runs)
    else if nregs != 1 then Bin(bin.runcur, bin.runs - {r})
    else bin
  }

  lemma FreeHdr(info: BinInfo, h: Hdr, e: set<nat>, k: nat)
    requires HdrOk(info, h, e, false) && k in h.bits
    ensures h.nfree + 1 <= info.nregs && HdrOk(info, AfterFree(h, k), e, true)
    ensures h.nfree + 1 < info.nregs ==> HdrOk(info, AfterFree(h, k), e, false)
    ensures h.nfree >= 0 && (h.nfree + 1 == info.nregs ==> AfterFree(h, k).bits == {})
  {
    var rest := h.bits - {k};
    assert |rest| == |h.bits| - 1;
    InUse(h.bits, info.nregs);
  }

  lemma {:induction false} InUse(bits: set<nat>, n: nat)
    requires forall k :: k in bits ==> k < n
    ensures |bits| <= n
    decreases n
  {
    if n == 0 {
      assert bits == {};
    } else {
      InUse(bits - {n - 1}, n - 1);
    }
  }

  /** The run keeps its place, if it was the current one or in the tree; a run
      that was full is loose. */
  lemma FreeFiled(bins: seq<Bin>, hdrs: map<Addr, Hdr>, r: Addr, k: nat)
    requires Filed(bins, hdrs, None) && r in hdrs && hdrs[r].bin < |bins| && hdrs[r].nfree >= 0
    ensures var loose := if hdrs[r].nfree == 0 && bins[hdrs[r].bin].runcur != Some(r) then Some(r) else None;
            Filed(bins, hdrs[r := AfterFree(hdrs[r], k)], loose)
  {
    var b := hdrs[r].bin;
    assert FiledAt(bins, hdrs, None, r) && OwnAt(bins, hdrs, b);
    forall q | q in hdrs && q != r ensures OtherFiled(bins, hdrs, b, q) {
      assert FiledAt(bins, hdrs, None, q);
    }
    assert bins[b := bins[b]] == bins;
    FiledSet(bins, hdrs, None, bins[b], AfterFree(hdrs[r], k), if hdrs[r].nfree == 0 && bins[b].runcur != Some(r) then Some(r) else None, r);
  }

  /** A wholly free run leaves its bin. */
  lemma DissociateFiled(bins: seq<Bin>, hdrs: map<Addr, Hdr>, r: Addr, k: nat, nregs: nat)
    requires Filed(bins, hdrs, None) && r in hdrs && hdrs[r].bin < |bins| && hdrs[r].nfree + 1 == nregs
    ensures var b := hdrs[r].bin;
            Filed(bins[b := Dissociated(bins[b], r, nregs)], hdrs[r := AfterFree(hdrs[r], k)], Some(r))
  {
    var b := hdrs[r].bin;
    var bins' := bins[b := Dissociated(bins[b], r, nregs)];
    assert FiledAt(bins, hdrs, None, r) && OwnAt(bins, hdrs, b);
    forall q | q in hdrs && q != r ensures OtherFiled(bins', hdrs, b, q) {
      assert FiledAt(bins, hdrs, None, q);
    }
    FiledSet(bins, hdrs, None, bins'[b], AfterFree(hdrs[r], k), Some(r), r);
  }

  /** The bin after arena_bin_lower_run. */
  function Lowered(bin: Bin, r: Addr, curFree: int): Bin {
    if bin.runcur == None then Bin(Some(r), bin.runs)
    else if Lower(r, bin.runcur.value) then Bin(Some(r), if curFree > 0 then bin.runs + {bin.runcur.value} else bin.runs)
    else Bin(bin.runcur, bin.runs + {r})
  }

  /** A run with a free region, to which its bin does not refer, is put where
      it belongs. */
  lemma LowerKeeps(s: State, infos: seq<BinInfo>, bins: seq<Bin>, hdrs: map<Addr, Hdr>, ever: map<Addr, set<nat>>, r: Addr)
    requires AllOk(s, infos, bins, hdrs, ever, Some(r)) && r in hdrs && hdrs[r].nfree > 0 && hdrs[r].bits != {} && hdrs[r].bin < |bins|
    ensures bins[hdrs[r].bin].runcur.Some? ==> bins[hdrs[r].bin].runcur.value in hdrs
    ensures var b := hdrs[r].bin; var cur := bins[b].runcur;
            AllOk(s, infos, bins[b := Lowered(bins[b], r, if cur.Some? then hdrs[cur.value].nfree else 0)], hdrs, ever, None)
  {
    var b := hdrs[r].bin;
    assert OwnAt(bins, hdrs, b) && FiledAt(bins, hdrs, Some(r), r) && HdrAt(infos, hdrs, ever, Some(r), r);
    var cur := bins[b].runcur;
    var bin := Lowered(bins[b], r, if cur.Some? then hdrs[cur.value].nfree else 0);
    forall q | q in hdrs && q != r ensures OtherFiled(bins[b := bin], hdrs, b, q) {
      assert FiledAt(bins, hdrs, Some(r), q);
    }
    assert hdrs[r := hdrs[r]] == hdrs && ever[r := ever[r]] == ever;
    FiledSet(bins, hdrs, Some(r), bin, hdrs[r], None, r);
    HdrSet(infos, hdrs, ever, Some(r), None, r, hdrs[r], ever[r]);
  }

  /** A region comes back to a run that is not wholly free afterwards. */
  lemma FreeKeeps(s: State, infos: seq<BinInfo>, bins: seq<Bin>, hdrs: map<Addr, Hdr>, ever: map<Addr, set<nat>>, r: Addr, k: nat)
    requires AllOk(s, infos, bins, hdrs, ever, None) && r in hdrs && k in hdrs[r].bits
    ensures hdrs[r].bin < |bins| && r in ever && 0 <= hdrs[r].nfree < infos[hdrs[r].bin].nregs
    ensures var b := hdrs[r].bin; var loose := if hdrs[r].nfree == 0 && bins[b].runcur != Some(r) then Some(r) else None;
            hdrs[r].nfree + 1 < infos[b].nregs ==> AllOk(s, infos, bins, hdrs[r := AfterFree(hdrs[r], k)], ever, loose) && AfterFree(hdrs[r], k).bits != {}
  {
    assert HdrAt(infos, hdrs, ever, None, r);
    var h, b := hdrs[r], hdrs[r].bin;
    FreeHdr(infos[b], h, ever[r], k);
    if h.nfree + 1 < infos[b].nregs {
      var loose := if h.nfree == 0 && bins[b].runcur != Some(r) then Some(r) else None;
      HdrSet(infos, hdrs, ever, None, loose, r, AfterFree(h, k), ever[r]);
      assert ever[r := ever[r]] == ever;
      FreeFiled(bins, hdrs, r, k);
      RunsSame(s, infos, hdrs, r, AfterFree(h, k));
    }
  }

  lemma PartKeeps(s: State, infos: seq<BinInfo>, bins: seq<Bin>, hdrs: map<Addr, Hdr>, ever: map<Addr, set<nat>>, r: Addr, k: nat)
    requires AllOk(s, infos, bins, hdrs, ever, None) && r in hdrs && k in hdrs[r].bits && hdrs[r].bin < |infos|
    requires hdrs[r].nfree + 1 < infos[hdrs[r].bin].nregs
    ensures var hdrs' := hdrs[r := AfterFree(hdrs[r], k)];
            AllOk(s, infos, Refiled(bins, hdrs', r), hdrs', ever, None)
    ensures bins[hdrs[r].bin].runcur.Some? ==> bins[hdrs[r].bin].runcur.value in hdrs
  {
    var hdrs' := hdrs[r := AfterFree(hdrs[r], k)];
    FreeKeeps(s, infos, bins, hdrs, ever, r, k);
    assert OwnAt(bins, hdrs, hdrs[r].bin);
    if hdrs'[r].nfree == 1 && bins[hdrs[r].bin].runcur != Some(r) {
      LowerKeeps(s, infos, bins, hdrs', ever, r);
    }
  }

  /** A run whose last region came back is out of its bin, and out of the arena. */
  lemma GoneKeeps(s: State, s': State, infos: seq<BinInfo>, bins: seq<Bin>, hdrs: map<Addr, Hdr>, ever: map<Addr, set<nat>>, r: Addr, k: nat)
    requires AllOk(s, infos, bins, hdrs, ever, None) && r in hdrs && k in hdrs[r].bits && hdrs[r].bin < |infos|
    requires hdrs[r].nfree + 1 == infos[hdrs[r].bin].nregs && OneLess(s, s', r.c, r.i) && s'.npages == s.npages
    ensures var b := hdrs[r].bin;
            AllOk(s', infos, bins[b := Dissociated(bins[b], r, infos[b].nregs)], hdrs - {r}, ever - {r}, None)
    ensures Live(hdrs - {r}) == Live(hdrs) - iset{(r, k)}
  {
    assert HdrAt(infos, hdrs, ever, None, r);
    var h, b := hdrs[r], hdrs[r].bin;
    FreeHdr(infos[b], h, ever[r], k);
    HdrSet(infos, hdrs, ever, None, Some(r), r, AfterFree(h, k), ever[r]);
    LastOfRun(infos, bins, hdrs, ever, r, k);
    LiveGone(hdrs, r, k);
    RunsLess(s, s', infos, hdrs, r);
  }

  lemma LastOfRun(infos: seq<BinInfo>, bins: seq<Bin>, hdrs: map<Addr, Hdr>, ever: map<Addr, set<nat>>, r: Addr, k: nat)
    requires Filed(bins, hdrs, None) && r in hdrs && r in ever && hdrs[r].bin < |bins| == |infos|
    requires hdrs[r].nfree + 1 == infos[hdrs[r].bin].nregs && HdrsOk(infos, hdrs[r := AfterFree(hdrs[r], k)], ever[r := ever[r]], Some(r))
    ensures var b := hdrs[r].bin;
            HdrsOk(infos, hdrs - {r}, ever - {r}, None) && Filed(bins[b := Dissociated(bins[b], r, infos[b].nregs)], hdrs - {r}, None)
  {
    var b := hdrs[r].bin;
    var hdrs' := hdrs[r := AfterFree(hdrs[r], k)];
    DissociateFiled(bins, hdrs, r, k, infos[b].nregs);
    HdrGone(infos, hdrs', ever[r := ever[r]], r);
    FiledGone(bins[b := Dissociated(bins[b], r, infos[b].nregs)], hdrs', r);
    assert hdrs' - {r} == hdrs - {r} && ever[r := ever[r]] - {r} == ever - {r};
  }

  // ----- the order of runs -----

  ghost predicate Least(r: Addr, runs: set<Addr>) {
    forall q :: q in runs && q != r ==> Lower(r, q)
  }

  /** The current run of a bin, if it has one, is below those in its tree. */
  ghost predicate LowestFirst(bin: Bin) {
    bin.runcur.Some? ==> Least(bin.runcur.value, bin.runs)
  }

  ghost predicate AllLowest(bins: seq<Bin>) {
    forall b :: 0 <= b < |bins| ==> LowestFirst(bins[b])
  }

  lemma LowestSet(bins: seq<Bin>, b: nat, bin: Bin)
    requires AllLowest(bins) && b < |bins|
    ensures AllLowest(bins[b := bin]) <==> LowestFirst(bin)
  {
    assert bins[b := bin][b] == bin;
  }

  /** arena_bin_lower_run keeps that order, except that a bin without a current
      run takes the run at hand, also if there are lower ones in its tree. */
  lemma LoweredLowest(bin: Bin, r: Addr, curFree: int)
    requires LowestFirst(bin) && r !in bin.runs && bin.runcur != Some(r)
    ensures LowestFirst(Lowered(bin, r, curFree)) <==> bin.runcur.Some? || Least(r, bin.runs)
  {
    if bin.runcur.Some? {
      assert bin.runcur.value == r || Lower(r, bin.runcur.value) || Lower(bin.runcur.value, r);
    }
  }

  /** The bins after a region of the run `r` came back, if the run is still in use. */
  function Refiled(bins: seq<Bin>, hdrs: map<Addr, Hdr>, r: Addr): seq<Bin>
    requires r in hdrs && hdrs[r].bin < |bins|
  {
    var b := hdrs[r].bin;
    var cur := bins[b].runcur;
    if hdrs[r].nfree == 1 && cur != Some(r) then
      bins[b := Lowered(bins[b], r, if cur.Some? && cur.value in hdrs then hdrs[cur.value].nfree else 0)]
    else bins
  }

  /** A run of a bin that has no current one, but a lower run in its tree. */
  ghost predicate Overtakes(bin: Bin, r: Addr) {
    bin.runcur == None && !Least(r, bin.runs)
  }

  lemma RefiledLowest(bins: seq<Bin>, hdrs: map<Addr, Hdr>, r: Addr)
    requires AllLowest(bins) && r in hdrs && hdrs[r].bin < |bins| && (hdrs[r].nfree == 1 ==> r !in bins[hdrs[r].bin].runs)
    ensures AllLowest(Refiled(bins, hdrs, r)) <==> !(hdrs[r].nfree == 1 && Overtakes(bins[hdrs[r].bin], r))
  {
    var b := hdrs[r].bin;
    var cur := bins[b].runcur;
    if hdrs[r].nfree == 1 && cur != Some(r) {
      var f := if cur.Some? && cur.value in hdrs then hdrs[cur.value].nfree else 0;
      LowestSet(bins, b, Lowered(bins[b], r, f));
      LoweredLowest(bins[b], r, f);
    }
  }

  /** The order can be lost: a bin without a current run has one of its two regions
      of a lower run in use, and both of a higher one.  When one of those comes
      back the higher run is the current one. */
  lemma OrderLost() returns (infos: seq<BinInfo>, bins: seq<Bin>, hdrs: map<Addr, Hdr>, ever: map<Addr, set<nat>>, r: Addr)
    ensures InfosOk(infos, 1) && HdrsOk(infos, hdrs, ever, None) && Filed(bins, hdrs, None) && AllLowest(bins)
    ensures r in hdrs && 0 in hdrs[r].bits && hdrs[r].bin < |bins|
    ensures !AllLowest(Refiled(bins, hdrs[r := AfterFree(hdrs[r], 0)], r))
  {
    var low := Addr(0, 0);
    r := Addr(0, 1);
    infos, bins := [BinInfo(1536, 1, 2, 1024)], [Bin(None, {low})];
    hdrs := map[low := Hdr(0, 2, 1, {0}), r := Hdr(0, 2, 0, {0, 1})];
    ever := map[low := {0, 1}, r := {0, 1}];
    assert HdrAt(infos, hdrs, ever, None, low) && HdrAt(infos, hdrs, ever, None, r);
    assert FiledAt(bins, hdrs, None, low) && FiledAt(bins, hdrs, None, r) && OwnAt(bins, hdrs, 0);
    RefiledLowest(bins, hdrs[r := AfterFree(hdrs[r], 0)], r);
    assert Lower(low, r) && !Lower(r, low) && low in bins[0].runs;
  }

  lemma DissociatedLowest(bins: seq<Bin>, b: nat, r: Addr, nregs: nat)
    requires AllLowest(bins) && b < |bins|
    ensures AllLowest(bins[b := Dissociated(bins[b], r, nregs)])
  {
    LowestSet(bins, b, Dissociated(bins[b], r, nregs));
  }

  /** The current run of a bin, or one that is not above its tree. */
  ghost predicate Foremost(bin: Bin, r: Addr) {
    bin.runcur == Some(r) || Least(r, bin.runs)
  }

  /** Only one bin has changed, and its tree has no run that it did not have. */
  ghost predicate Lessened(bins: seq<Bin>, bins': seq<Bin>, b: nat) {
    && b < |bins| == |bins'| && bins'[b].runs <= bins[b].runs
    && forall d :: 0 <= d < |bins| && d != b ==> bins'[d] == bins[d]
  }

  lemma TakenLowest(bins: seq<Bin>, mid: seq<Bin>, b: nat, r: Addr)
    requires AllLowest(bins) && Lessened(bins, mid, b) && Foremost(bins[b], r)
    ensures AllLowest(Headed(mid, b, r))
  {
    assert LowestFirst(bins[b]);
  }

  /** No run of the bin with a free region is below this one. */
  ghost predicate LowestNonfull(hdrs: map<Addr, Hdr>, b: nat, r: Addr) {
    forall q :: q in hdrs && hdrs[q].bin == b && hdrs[q].nfree > 0 && q != r ==> Lower(r, q)
  }

  /** The bin has no current run with a free region that a run of its tree is below. */
  ghost predicate CurrentLowest(bin: Bin, hdrs: map<Addr, Hdr>) {
    bin.runcur.Some? && bin.runcur.value in hdrs && hdrs[bin.runcur.value].nfree > 0 ==> Least(bin.runcur.value, bin.runs)
  }

  lemma TreeNonfull(bins: seq<Bin>, hdrs: map<Addr, Hdr>, b: nat, r: Addr)
    requires Filed(bins, hdrs, None) && b < |bins| && bins[b].runcur == None && Least(r, bins[b].runs)
    ensures LowestNonfull(hdrs, b, r)
  {
    forall q | q in hdrs && hdrs[q].bin == b && hdrs[q].nfree > 0 && q != r ensures Lower(r, q) {
      assert FiledAt(bins, hdrs, None, q);
    }
  }

  lemma CurrentNonfull(bins: seq<Bin>, hdrs: map<Addr, Hdr>, b: nat, r: Addr)
    requires Filed(bins, hdrs, None) && b < |bins| && bins[b].runcur == Some(r)
    ensures LowestNonfull(hdrs, b, r) <==> Least(r, bins[b].runs)
  {
    assert OwnAt(bins, hdrs, b);
    forall q | q in hdrs && hdrs[q].bin == b && q != r ensures hdrs[q].nfree > 0 <==> q in bins[b].runs {
      assert FiledAt(bins, hdrs, None, q);
    }
  }

  // ----- regions -----

  /** Some region is free below `nregs` if fewer are in use. */
  lemma {:induction false} SomeUnset(bits: set<nat>, n: nat) returns (k: nat)
    requires |bits| < n
    ensures k < n && k !in bits
    decreases n
  {
    if n - 1 in bits {
      k := SomeUnset(bits - {n - 1}, n - 1);
    } else {
      k := n - 1;
    }
  }

  /** First byte of a region, within its chunk. */
  function Start(mapBias: nat, info: BinInfo, r: Addr, k: nat): int {
    (mapBias + r.i) * 4096 + info.reg0 + k * info.regSize
  }

  /** A region lies within the pages of its run. */
  lemma WithinRun(mapBias: nat, npages: nat, info: BinInfo, r: Addr, k: nat)
    requires InfoOk(info, npages) && k < info.nregs
    ensures (mapBias + r.i) * 4096 < Start(mapBias, info, r, k)
    ensures Start(mapBias, info, r, k) + info.regSize <= (mapBias + r.i + info.runPages) * 4096
  {
    Division.Distributes(k, 1, info.regSize);
    Division.MulMonotone(k + 1, info.nregs, info.regSize);
  }

  /** The page that a region starts in is one of its run, and its entry in the
      page map leads back to the first one. */
  lemma PageOfRegion(s: State, infos: seq<BinInfo>, hdrs: map<Addr, Hdr>, mapBias: nat, r: Addr, k: nat)
    requires Sound(s) && InfosOk(infos, s.npages) && RunsOk(s, infos, hdrs) && r in hdrs && k < infos[hdrs[r].bin].nregs
    ensures r.c in s.chunks
    ensures var p := Start(mapBias, infos[hdrs[r].bin], r, k) / 4096 - mapBias;
            0 <= p < |s.chunks[r.c].pages| && p - s.chunks[r.c].pages[p].num == r.i
  {
    var info := infos[hdrs[r].bin];
    WithinRun(mapBias, s.npages, info, r, k);
    StartEntry(s.tiles[r.c], s.chunks[r.c].pages, r.i);
  }

  /** arena_run_regind on the pointer to a region. */
  function IndexOf(mapBias: nat, info: BinInfo, r: Addr, off: int): nat {
    var diff := off - (mapBias + r.i) * 4096 - info.reg0;
    if diff < 0 || info.regSize == 0 then 0 else Regind.Index(diff, info.regSize)
  }

  lemma IndexOfRegion(mapBias: nat, npages: nat, info: BinInfo, r: Addr, k: nat)
    requires InfoOk(info, npages) && k < info.nregs
    ensures IndexOf(mapBias, info, r, Start(mapBias, info, r, k)) == k
  {
    Regind.IndexExact(k, info.regSize);
  }

  lemma LiveIndex(s: State, infos: seq<BinInfo>, bins: seq<Bin>, hdrs: map<Addr, Hdr>, ever: map<Addr, set<nat>>, r: Addr, k: nat)
    requires AllOk(s, infos, bins, hdrs, ever, None) && (r, k) in Live(hdrs)
    ensures r in hdrs && hdrs[r].bin < |infos| && k < infos[hdrs[r].bin].nregs
  {
    assert HdrAt(infos, hdrs, ever, None, r);
  }

  lemma RegionsApart(mapBias: nat, info: BinInfo, r: Addr, j: nat, k: nat)
    requires j < k
    ensures Start(mapBias, info, r, j) + info.regSize <= Start(mapBias, info, r, k)
  {
    Division.Distributes(j, 1, info.regSize);
    Division.MulMonotone(j + 1, k, info.regSize);
  }

  /** Regions in use never overlap, whatever runs and bins they belong to. */
  lemma LiveApart(s: State, infos: seq<BinInfo>, hdrs: map<Addr, Hdr>, mapBias: nat, q: Addr, j: nat, r: Addr, k: nat)
    requires Sound(s) && InfosOk(infos, s.npages) && RunsOk(s, infos, hdrs)
    requires q in hdrs && r in hdrs && q.c == r.c && (q != r || j != k)
    requires j < infos[hdrs[q].bin].nregs && k < infos[hdrs[r].bin].nregs
    ensures var a, b := infos[hdrs[q].bin], infos[hdrs[r].bin];
            Start(mapBias, a, q, j) + a.regSize <= Start(mapBias, b, r, k) || Start(mapBias, b, r, k) + b.regSize <= Start(mapBias, a, q, j)
  {
    var a, b := infos[hdrs[q].bin], infos[hdrs[r].bin];
    if q == r {
      if j < k { RegionsApart(mapBias, a, r, j, k); } else { RegionsApart(mapBias, a, r, k, j); }
    } else {
      WithinRun(mapBias, s.npages, a, q, j);
      WithinRun(mapBias, s.npages, b, r, k);
      if q.i < r.i {
        AllocsApart(s, q.c, q.i, r.i);
      } else {
        AllocsApart(s, r.c, r.i, q.i);
      }
    }
  }

  /** The first `size` bytes of a region in use are its own: no other region in use
      reaches into them, and they lie behind the header of the chunk. */
  ghost predicate Own(infos: seq<BinInfo>, hdrs: map<Addr, Hdr>, mapBias: nat, npages: nat, r: Addr, k: nat, size: nat)
    requires r in hdrs && hdrs[r].bin < |infos|
  {
    var off := Start(mapBias, infos[hdrs[r].bin], r, k);
    && mapBias * 4096 <= off && off + size <= (mapBias + npages) * 4096
    && forall q, j :: (q, j) in Live(hdrs) && (q, j) != (r, k) && q.c == r.c ==> OwnBytes(infos, hdrs, mapBias, off, size, q, j)
  }

  ghost predicate OwnBytes(infos: seq<BinInfo>, hdrs: map<Addr, Hdr>, mapBias: nat, off: int, size: nat, q: Addr, j: nat) {
    q in hdrs && hdrs[q].bin < |infos| &&
    var other := Start(mapBias, infos[hdrs[q].bin], q, j);
    off + size <= other || other + infos[hdrs[q].bin].regSize <= off
  }

  lemma BlockIsOwn(s: State, infos: seq<BinInfo>, bins: seq<Bin>, hdrs: map<Addr, Hdr>, ever: map<Addr, set<nat>>, mapBias: nat, r: Addr, k: nat, size: nat)
    requires Sound(s) && AllOk(s, infos, bins, hdrs, ever, None) && (r, k) in Live(hdrs)
    requires hdrs[r].bin < |infos| && size <= infos[hdrs[r].bin].regSize
    ensures Own(infos, hdrs, mapBias, s.npages, r, k, size)
  {
    LiveIndex(s, infos, bins, hdrs, ever, r, k);
    WithinRun(mapBias, s.npages, infos[hdrs[r].bin], r, k);
    InChunk(s, r.c, r.i);
    forall q, j | (q, j) in Live(hdrs) && (q, j) != (r, k) && q.c == r.c
      ensures OwnBytes(infos, hdrs, mapBias, Start(mapBias, infos[hdrs[r].bin], r, k), size, q, j)
    {
      LiveIndex(s, infos, bins, hdrs, ever, q, j);
      LiveApart(s, infos, hdrs, mapBias, q, j, r, k);
    }
  }

  lemma InChunk(s: State, c: int, i: int)
    requires Sound(s) && AllocAt(s, c, i).Some?
    ensures 0 <= i && i + AllocAt(s, c, i).value.n <= s.npages
  {
    EncodesLengths(s.tiles[c], s.chunks[c].pages, 0);
    AtBounds(s.tiles[c], i);
  }

  /** Pages of a run up to the end of region `nextind` - 1, rounded up. */
  function Past(info: BinInfo, nextind: nat): nat {
    (info.reg0 + nextind * info.regSize + 4095) / 4096
  }

  /** The pages from there on were never touched: no region that was ever handed
      out, nor the header in front of them, reaches into them; and one page less
      would not do. */
  lemma NeverTouched(npages: nat, info: BinInfo, nextind: nat)
    requires InfoOk(info, npages) && nextind <= info.nregs
    ensures 1 <= Past(info, nextind) <= info.runPages && info.reg0 <= Past(info, nextind) * 4096
    ensures forall k :: 0 <= k < nextind ==> info.reg0 + k * info.regSize + info.regSize <= Past(info, nextind) * 4096
    ensures (Past(info, nextind) - 1) * 4096 < info.reg0 + nextind * info.regSize
  {
    Division.MulMonotone(nextind, info.nregs, info.regSize);
    forall k | 0 <= k < nextind ensures info.reg0 + k * info.regSize + info.regSize <= Past(info, nextind) * 4096 {
      Division.Distributes(k, 1, info.regSize);
      Division.MulMonotone(k + 1, nextind, info.regSize);
    }
  }
}
