/** Layout arithmetic at boot (arena.c): the pages of a chunk header, and the
    length of the runs of each bin. */
module RunLayout {
  import Bitmaps
  import Division
  import opened SizeClasses
  import opened SmallState

  // ----- the chunk header -----

  function Pages(bytes: nat): nat {
    bytes / 4096 + if bytes % 4096 != 0 then 1 else 0
  }

  /** The pages of a header whose page map leaves out the first `bias` pages. */
  function HeaderPages(n: nat, fixed: nat, elem: nat, bias: nat): nat
    requires bias <= n
  {
    Pages(fixed + Size(elem, n - bias))
  }

  function Size(elem: nat, count: nat): nat {
    elem * count
  }

  lemma PagesMonotone(x: nat, y: nat)
    requires x <= y
    ensures Pages(x) <= Pages(y)
  {
  }

  lemma HeaderShrinks(n: nat, fixed: nat, elem: nat, a: nat, b: nat)
    requires a <= b <= n
    ensures HeaderPages(n, fixed, elem, b) <= HeaderPages(n, fixed, elem, a)
  {
    Division.MulMonotone(n - b, n - a, elem);
    assert Size(elem, n - b) <= Size(elem, n - a);
    PagesMonotone(fixed + Size(elem, n - b), fixed + Size(elem, n - a));
  }

  /** A bias is large enough exactly if it is not below the header it leads to. */
  lemma Enough(n: nat, fixed: nat, elem: nat, b: nat)
    requires b <= n
    ensures fixed + elem * (n - b) <= b * 4096 <==> HeaderPages(n, fixed, elem, b) <= b
  {
    assert Size(elem, n - b) == elem * (n - b);
  }

  /** On 64-bit machines, for chunks of up to 2^34 bytes, no smaller bias than the
      third would do. */
  lemma ThirdIsLeast(n: nat, b2: nat, b3: nat, b: nat)
    requires n <= 0x40_0000 && HeaderPages(n, 40, 24, 0) <= n && b < b3
    requires var b1 := HeaderPages(n, 40, 24, 0); b2 == HeaderPages(n, 40, 24, b1) <= b1 && b3 == HeaderPages(n, 40, 24, b2) <= b1
    ensures !(40 + 24 * (n - b) <= b * 4096)
  {
    var b1 := HeaderPages(n, 40, 24, 0);
    assert b1 <= 24578;
    assert b1 - b2 <= 146 && b3 <= b2 + 1;
    HeaderShrinks(n, 40, 24, b, b1);
    Enough(n, 40, 24, b);
  }

  /** The loop of arena_boot: three rounds from zero, for a chunk of `n` pages, a
      header of `fixed` bytes and `elem` bytes per page-map entry.  The result is
      enough for the header it leads to. */
  method MapBias(n: nat, fixed: nat, elem: nat) returns (bias: nat)
    requires fixed > 0 && HeaderPages(n, fixed, elem, 0) <= n
    ensures 0 < bias <= n && fixed + elem * (n - bias) <= bias * 4096
    ensures bias <= HeaderPages(n, fixed, elem, 0)
    ensures fixed == 40 && elem == 24 && n <= 0x40_0000 ==> forall b: nat :: b < bias ==> !(40 + 24 * (n - b) <= b * 4096)
  {
    bias := 0;
    ghost var b1 := HeaderPages(n, fixed, elem, 0);
    HeaderShrinks(n, fixed, elem, 0, b1);
    ghost var b2 := HeaderPages(n, fixed, elem, b1);
    HeaderShrinks(n, fixed, elem, 0, b2);
    HeaderShrinks(n, fixed, elem, b2, b1);
    ghost var b3 := HeaderPages(n, fixed, elem, b2);
    var i := 0;
    while i < 3
      invariant 0 <= i <= 3 && bias == (if i == 0 then 0 else if i == 1 then b1 else if i == 2 then b2 else b3)
    {
      var header := fixed + Size(elem, n - bias);
      bias := Pages(header);
      i := i + 1;
    }
    HeaderShrinks(n, fixed, elem, b2, b3);
    if fixed == 40 && elem == 24 && n <= 0x40_0000 {
      forall b: nat | b < bias ensures !(40 + 24 * (n - b) <= b * 4096) {
        ThirdIsLeast(n, b2, b3, b);
      }
    }
  }

  /** On 64-bit machines the header takes 40 bytes and each entry 24; every legal
      chunk has two pages, and then one is left for runs. */
  lemma RoomForRuns(n: nat)
    requires n >= 2
    ensures HeaderPages(n, 40, 24, 0) < n
  {
  }

  // ----- the header of a run -----

  /** bitmap_size: the bytes of a bitmap with all its levels. */
  function BitmapGroups(nbits: nat): (g: nat)
    requires nbits >= 1
    ensures g >= 1
    decreases nbits
  {
    var n := Bitmaps.Groups(nbits);
    if nbits <= 64 then 1 else n + BitmapGroups(n)
  }

  function HdrSize(nregs: nat): nat
    requires nregs >= 1
  {
    16 + 8 * BitmapGroups(nregs)
  }

  lemma GroupsBound(nbits: nat)
    requires 1 <= nbits <= 0x800
    ensures BitmapGroups(nbits) <= 33 && (nbits == 1 ==> BitmapGroups(nbits) == 1)
  {
    if nbits > 64 {
      assert Bitmaps.Groups(nbits) <= 32;
    }
  }

  /** The bitmap's own layout needs exactly that many groups. */
  lemma {:induction false} GroupsOfInfo(info: Bitmaps.Info, i: nat)
    requires Bitmaps.Laid(info) && i < info.nlevels
    ensures Bitmaps.Bits(info.nbits, i) >= 1
    ensures info.offset[info.nlevels] == info.offset[i] + BitmapGroups(Bitmaps.Bits(info.nbits, i))
    decreases info.nlevels - i
  {
    Bitmaps.BitsPositive(info.nbits, i);
    assert Bitmaps.LevelEnds(info.offset, info.nbits, i + 1);
    var n := Bitmaps.Bits(info.nbits, i);
    assert Bitmaps.Bits(info.nbits, i + 1) == Bitmaps.Groups(n);
    if i + 1 < info.nlevels {
      GroupsOfInfo(info, i + 1);
      assert Bitmaps.Groups(n) > 1;
    } else {
      assert Bitmaps.Groups(n) == 1;
    }
  }

  // ----- the length of runs -----

  /** Run length, number of regions and offset of the first one that fit. */
  ghost predicate Fits(runSize: nat, nregs: nat, reg0: int, regSize: nat) {
    1 <= nregs <= 0x800 && reg0 == runSize - nregs * regSize && HdrSize(nregs) <= reg0
  }

  /** One more region would not fit. */
  ghost predicate Tight(runSize: nat, nregs: nat, regSize: nat) {
    nregs < 0x800 ==> runSize < (nregs + 1) * regSize + HdrSize(nregs + 1)
  }

  lemma MostRegions(runSize: nat, regSize: nat)
    requires 8 <= regSize <= 3840 && runSize >= 4096
    ensures var q := (runSize - 16) / regSize;
            q >= 1 && q * regSize <= runSize - 16 < (q + 1) * regSize
  {
    var q, r := (runSize - 16) / regSize, (runSize - 16) % regSize;
    assert q * regSize + r == runSize - 16;
    Division.Distributes(q, 1, regSize);
    if q <= 0 { Division.MulMonotone(q, 0, regSize); }
  }

  /** The inner loop: as many regions as leave room for the header.  One always
      does. */
  method FitRegions(runSize: nat, regSize: nat) returns (nregs: nat, reg0: nat)
    requires 8 <= regSize <= 3840 && runSize >= 4096
    ensures Fits(runSize, nregs, reg0, regSize) && Tight(runSize, nregs, regSize)
  {
    MostRegions(runSize, regSize);
    ghost var q := (runSize - 16) / regSize;
    nregs := (runSize - 16) / regSize + 1;
    if nregs > 0x800 {
      nregs := 0x801;
    }
    ghost var most := nregs;
    reg0 := 0;
    var hdr := 1;
    GroupsBound(1);
    while hdr > reg0
      invariant 1 <= nregs <= most <= q + 1 && most <= 0x801 && (most < 0x801 ==> most == q + 1) && (nregs == most ==> hdr > reg0)
      invariant nregs < most ==> reg0 == runSize - nregs * regSize && hdr == HdrSize(nregs) && Tight(runSize, nregs, regSize)
      decreases nregs
    {
      nregs := nregs - 1;
      hdr := HdrSize(nregs);
      Division.MulMonotone(nregs, q, regSize);
      reg0 := runSize - nregs * regSize;
    }
  }

  lemma {:induction false} GroupsMonotone(m: nat, n: nat)
    requires 1 <= m <= n
    ensures BitmapGroups(m) <= BitmapGroups(n)
    decreases n
  {
    var a, b := Bitmaps.Groups(m), Bitmaps.Groups(n);
    if n > 64 {
      assert 1 <= a <= b < n;
      if m > 64 { GroupsMonotone(a, b); }
    }
  }

  /** The number of regions is determined by the length of the run. */
  lemma OneLayout(runSize: nat, regSize: nat, n1: nat, r1: int, n2: nat, r2: int)
    requires Fits(runSize, n1, r1, regSize) && Tight(runSize, n1, regSize)
    requires Fits(runSize, n2, r2, regSize) && Tight(runSize, n2, regSize)
    ensures n1 == n2 && r1 == r2
  {
    if n1 < n2 {
      MoreWouldNotFit(runSize, regSize, n1, n2);
    } else if n2 < n1 {
      MoreWouldNotFit(runSize, regSize, n2, n1);
    }
  }

  lemma MoreWouldNotFit(runSize: nat, regSize: nat, n1: nat, n2: nat)
    requires n1 < n2 <= 0x800 && Tight(runSize, n1, regSize)
    ensures runSize < n2 * regSize + HdrSize(n2)
  {
    GroupsMonotone(n1 + 1, n2);
    Division.MulMonotone(n1 + 1, n2, regSize);
  }

  /** No run of a bin is longer than this, unless the least length asked for is. */
  const LONGEST: nat := 0x80_0000

  lemma TightBound(runSize: nat, nregs: nat, regSize: nat)
    requires 8 <= regSize <= 3840 && nregs < 0x800 && Tight(runSize, nregs, regSize)
    ensures runSize + 4096 <= LONGEST
  {
    GroupsBound(nregs + 1);
    Division.MulMonotone(nregs + 1, 0x800, regSize);
    Division.MulMonotone(regSize, 3840, 0x800);
  }

  /** bin_info_run_size_calc: the run grows while its header takes too large a
      part of it.  Overheads are 32-bit fixed-point numbers.  The loop tries the
      next length and keeps the one before it: the run stops a page short of the
      first length that would do, and if it has grown at all its own header takes
      too large a part. */
  method RunSizeCalc(regSize: nat, minRun: nat, maxclass: nat) returns (runSize: nat, nregs: nat, reg0: nat)
    requires 8 <= regSize <= 3840 && 4096 <= minRun <= maxclass && minRun % 4096 == 0
    ensures minRun <= runSize <= maxclass && runSize % 4096 == 0 && Fits(runSize, nregs, reg0, regSize)
    ensures runSize == minRun || runSize <= LONGEST
    ensures Tight(runSize, nregs, regSize) && (runSize > minRun ==> TooCostly(regSize, reg0, runSize))
    ensures forall p :: minRun / 4096 < p <= runSize / 4096 ==> Grows(p, regSize)
    ensures runSize + 4096 <= maxclass ==> !Grows(runSize / 4096 + 1, regSize)
  {
    var tryRun := minRun;
    ghost var pages := minRun / 4096;
    var tryNregs, tryReg0 := FitRegions(tryRun, regSize);
    runSize, nregs, reg0 := tryRun, tryNregs, tryReg0;
    var more := true;
    while more
      invariant minRun <= runSize <= maxclass && runSize % 4096 == 0 && Fits(runSize, nregs, reg0, regSize)
      invariant runSize == minRun || runSize <= LONGEST
      invariant Tight(runSize, nregs, regSize) && (tryRun > minRun && runSize > minRun ==> TooCostly(regSize, reg0, runSize))
      invariant tryRun > minRun && more ==> TooCostly(regSize, tryReg0, tryRun)
      invariant forall p :: minRun / 4096 < p <= (if more then tryRun else runSize) / 4096 ==> Grows(p, regSize)
      invariant more || (tryRun == runSize + 4096 && (tryRun <= maxclass ==> !Grows(tryRun / 4096, regSize)))
      invariant tryRun >= minRun && tryRun == 4096 * pages && Fits(tryRun, tryNregs, tryReg0, regSize) && Tight(tryRun, tryNregs, regSize)
      invariant more ==> tryRun <= maxclass && (tryRun == minRun || tryRun <= LONGEST)
      decreases more, maxclass - tryRun
    {
      runSize, nregs, reg0 := tryRun, tryNregs, tryReg0;
      Division.DivUnique(runSize, pages, 4096, 0);
      tryRun, pages := tryRun + 4096, pages + 1;
      tryNregs, tryReg0 := FitRegions(tryRun, regSize);
      more := tryRun <= maxclass && TooCostly(regSize, tryReg0, tryRun) && tryNregs < 0x800;
      Division.DivUnique(tryRun, pages, 4096, 0);
      GrowsIs(pages, regSize, tryNregs, tryReg0);
      if more { TightBound(tryRun, tryNregs, regSize); }
    }
  }

  /** The header still takes too large a part of the run; 32-bit fixed point. */
  predicate TooCostly(regSize: nat, reg0: nat, runSize: nat) {
    0x3d * (regSize * 8) > 0x1800 && (reg0 * 0x1000) % 0x1_0000_0000 > 0x3d * runSize
  }

  /** RUN_MAX_OVRHD: more than 61 of 4096 parts before the first region, when the
      regions are large enough for that to be asked (RUN_MAX_OVRHD_RELAX). */
  lemma CostlyIs(regSize: nat, reg0: nat, runSize: nat)
    requires runSize > 0 && reg0 < 0x10_0000
    ensures TooCostly(regSize, reg0, runSize) <==> regSize >= 13 && reg0 * 4096 > runSize * 61
  {
  }

  /** With a run of so many pages the loop goes on. */
  ghost predicate Grows(pages: int, regSize: nat) {
    pages >= 0 && forall nregs, reg0 :: Fits(4096 * pages, nregs, reg0, regSize) && Tight(4096 * pages, nregs, regSize) ==>
      TooCostly(regSize, reg0, 4096 * pages) && nregs < 0x800
  }

  lemma GrowsIs(pages: nat, regSize: nat, nregs: nat, reg0: int)
    requires Fits(4096 * pages, nregs, reg0, regSize) && Tight(4096 * pages, nregs, regSize)
    ensures Grows(pages, regSize) <==> TooCostly(regSize, reg0, 4096 * pages) && nregs < 0x800
  {
    forall n, r | Fits(4096 * pages, n, r, regSize) && Tight(4096 * pages, n, regSize) ensures n == nregs && r == reg0 {
      OneLayout(4096 * pages, regSize, n, r, nregs, reg0);
    }
  }

  /** The target is missed although it could be met: regions of 3840 bytes, from a
      page on.  A run of 16 pages would do, but the one chosen is shorter, and its
      header takes too large a part. */
  method TargetMissed(maxclass: nat) returns (runSize: nat, nregs: nat, reg0: nat)
    requires maxclass >= 0x1_0000
    ensures Fits(runSize, nregs, reg0, 3840) && TooCostly(3840, reg0, runSize) && runSize < 0x1_0000
    ensures Fits(0x1_0000, 17, 256, 3840) && Tight(0x1_0000, 17, 3840) && !TooCostly(3840, 256, 0x1_0000)
  {
    runSize, nregs, reg0 := RunSizeCalc(3840, 4096, maxclass);
    assert BitmapGroups(17) == 1 && BitmapGroups(18) == 1 && BitmapGroups(2) == 1 && BitmapGroups(3) == 1;
    GrowsIs(2, 3840, 2, 512);
    GrowsIs(16, 3840, 17, 256);
  }

  /** The runs of a bin are at least as long as those of the one before, and if
      they are longer the target is missed. */
  ghost predicate Follows(pages: nat, info: BinInfo) {
    && pages <= info.runPages
    && (pages < info.runPages ==> TooCostly(info.regSize, info.reg0, info.runPages * 4096))
  }

  /** The layouts of the first bins. */
  ghost predicate Laid(sp: Spaces, npages: nat, infos: seq<BinInfo>) {
    && SpacesOk(sp) && |infos| <= Nbins(sp) && InfosOk(infos, npages)
    && (forall b: nat :: b < |infos| ==> infos[b].regSize == RegSize(sp, b) && infos[b].runPages * 4096 <= LONGEST)
    && (forall b :: 1 <= b < |infos| ==> Follows(infos[b - 1].runPages, infos[b]))
  }

  lemma OneMoreLaid(sp: Spaces, npages: nat, infos: seq<BinInfo>, info: BinInfo)
    requires Laid(sp, npages, infos) && |infos| < Nbins(sp) && InfoOk(info, npages)
    requires info.regSize == RegSize(sp, |infos|) && info.runPages * 4096 <= LONGEST
    requires infos != [] ==> Follows(infos[|infos| - 1].runPages, info)
    ensures Laid(sp, npages, infos + [info])
  {
    var more := infos + [info];
    forall b | 1 <= b < |more| ensures Follows(more[b - 1].runPages, more[b]) {
      if b < |infos| { assert Follows(infos[b - 1].runPages, infos[b]); }
    }
  }

  /** bin_info_init: every bin gets runs as the small-region layer needs them,
      each at least as long as the one before. */
  method BinInfoInit(sp: Spaces, npages: nat) returns (infos: seq<BinInfo>)
    requires SpacesOk(sp) && npages >= 1
    ensures Laid(sp, npages, infos) && |infos| == Nbins(sp)
  {
    infos := [];
    var prev := 4096;
    while |infos| < Nbins(sp)
      invariant Laid(sp, npages, infos)
      invariant 4096 <= prev <= npages * 4096 && prev % 4096 == 0 && prev <= LONGEST
      invariant infos != [] ==> prev == infos[|infos| - 1].runPages * 4096
    {
      RegSizeBounds(sp, |infos|);
      var nregs, reg0;
      prev, nregs, reg0 := RunSizeCalc(RegSize(sp, |infos|), prev, npages * 4096);
      var info := BinInfo(RegSize(sp, |infos|), prev / 4096, nregs, reg0);
      OneMoreLaid(sp, npages, infos, info);
      infos := infos + [info];
    }
  }

  lemma RegSizeBounds(sp: Spaces, b: nat)
    requires SpacesOk(sp) && b < Nbins(sp)
    ensures 8 <= RegSize(sp, b) <= 3840
  {
  }
}
