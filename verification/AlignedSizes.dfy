/** Size and alignment arithmetic in 64-bit words (jemalloc_internal.h, huge.c). */
module AlignedSizes {
  import opened Wrappers
  import opened PowersOfTwo
  import Division
  import opened SizeClasses

  const WORD: nat := 0x1_0000_0000_0000_0000

  // ----- the next power of two -----

  /** The or-ing of pow2_ceil: all bits below the highest one are set. */
  function Spread(x: bv64): bv64 {
    var x1 := x | (x >> 1);
    var x2 := x1 | (x1 >> 2);
    var x3 := x2 | (x2 >> 4);
    var x4 := x3 | (x3 >> 8);
    var x5 := x4 | (x4 >> 16);
    x5 | (x5 >> 32)
  }

  predicate PowerOfTwo(x: bv64) {
    x != 0 && x & (x - 1) == 0
  }

  lemma SpreadOnes(x: bv64, s: bv64)
    requires s == Spread(x)
    ensures s & (s + 1) == 0
  {
  }

  lemma SpreadAbove(x: bv64, s: bv64)
    requires s == Spread(x)
    ensures x <= s
  {
  }

  lemma SpreadTop(x: bv64, s: bv64)
    requires s == Spread(x) && x != 0
    ensures x & (s ^ (s >> 1)) != 0
  {
  }

  lemma SpreadZero(x: bv64, s: bv64)
    requires s == Spread(x) && x == 0
    ensures Smeared(x, s)
  {
  }

  lemma SpreadSmall(x: bv64, s: bv64)
    requires s == Spread(x) && x < 0x8000_0000_0000_0000
    ensures s < 0x8000_0000_0000_0000
  {
  }

  lemma HalfAbove(s: bv64)
    requires s & (s + 1) == 0 && s < 0x8000_0000_0000_0000
    ensures s ^ (s >> 1) == (s + 1) >> 1
  {
  }

  lemma TopBit(x: bv64, s: bv64)
    requires s & (s + 1) == 0 && s < 0x8000_0000_0000_0000 && x & ((s + 1) >> 1) != 0
    ensures ((s + 1) >> 1) <= x
  {
  }

  lemma Below(x: bv64, h: bv64)
    requires x != 0 && h <= x - 1
    ensures h < x
  {
  }

  lemma NotBelow(x: bv64, s: bv64)
    requires x != 0 && x - 1 <= s < 0x8000_0000_0000_0000 && s & (s + 1) == 0
    ensures x <= s + 1 && PowerOfTwo(s + 1)
  {
  }

  /** `s` has all bits set up to the highest one of `y`. */
  predicate Smeared(y: bv64, s: bv64) {
    s & (s + 1) == 0 && y <= s < 0x8000_0000_0000_0000 && ((s + 1) >> 1) <= y
  }

  lemma SpreadSmears(y: bv64, s: bv64)
    requires 0 < y < 0x8000_0000_0000_0000 && s == Spread(y)
    ensures Smeared(y, s)
  {
    SpreadOnes(y, s);
    SpreadAbove(y, s);
    SpreadTop(y, s);
    SpreadSmall(y, s);
    HalfAbove(s);
    TopBit(y, s);
  }

  lemma SmearedPower(x: bv64, y: bv64, s: bv64)
    requires x != 0 && y == x - 1 && Smeared(y, s)
    ensures PowerOfTwo(s + 1) && x <= s + 1 && ((s + 1) >> 1) < x
  {
    Below(x, (s + 1) >> 1);
    NotBelow(x, s);
  }

  lemma SpreadAll(x: bv64, s: bv64)
    requires s == Spread(x) && x >= 0x8000_0000_0000_0000
    ensures s == 0xffff_ffff_ffff_ffff
  {
  }

  /** Whether a power of two is not below a number. */
  predicate InRange(x: bv64) {
    1 <= x <= 0x8000_0000_0000_0000
  }

  /** pow2_ceil: a power of two, not below x, and half of it is below x; zero if
      there is none in a word. */
  method Pow2Ceil(x: bv64) returns (r: bv64)
    ensures InRange(x) ==> PowerOfTwo(r) && x <= r && (r >> 1) < x
    ensures !InRange(x) ==> r == 0
  {
    var y := x - 1;
    var s := Spread(y);
    r := s + 1;
    if InRange(x) {
      Less(x, y);
      Smears(y, s);
      CeilIs(x, y, s, r);
    } else {
      NoCeil(x, y, s, r);
    }
  }

  lemma Smears(y: bv64, s: bv64)
    requires y < 0x8000_0000_0000_0000 && s == Spread(y)
    ensures Smeared(y, s)
  {
    if y == 0 { SpreadZero(y, s); } else { SpreadSmears(y, s); }
  }

  lemma CeilIs(x: bv64, y: bv64, s: bv64, r: bv64)
    requires x != 0 && y == x - 1 && Smeared(y, s) && r == s + 1
    ensures PowerOfTwo(r) && x <= r && (r >> 1) < x
  {
    SmearedPower(x, y, s);
  }

  lemma NoCeil(x: bv64, y: bv64, s: bv64, r: bv64)
    requires !InRange(x) && y == x - 1 && s == Spread(y) && r == s + 1
    ensures r == 0
  {
    NotLess(x, y);
    SpreadAll(y, s);
  }

  lemma Less(x: bv64, y: bv64)
    requires InRange(x) && y == x - 1
    ensures x != 0 && y < 0x8000_0000_0000_0000
  {
  }

  lemma NotLess(x: bv64, y: bv64)
    requires !InRange(x) && y == x - 1
    ensures y >= 0x8000_0000_0000_0000
  {
  }

  // ----- rounding in words -----

  /** (x + (a - 1)) & -a, modulo 2^64, for a power of two `a`. */
  function RoundUp(x: nat, a: nat): (r: nat)
    requires a > 0
  {
    var w := (x + (a - 1)) % 0x1_0000_0000_0000_0000;
    w - w % a
  }

  lemma PowersDivide(j: nat, k: nat)
    requires j <= k
    ensures Pow2(k) == Pow2(j) * Pow2(k - j)
  {
    if j > 0 { PowersDivide(j - 1, k - 1); }
  }

  lemma {:induction false} PowGrows(j: nat, k: nat)
    requires j < k
    ensures 2 * Pow2(j) <= Pow2(k)
    decreases k
  {
    if j < k - 1 { PowGrows(j, k - 1); }
  }

  lemma WordIs()
    ensures Pow2(12) == 4096 && Pow2(64) == WORD
  {
    assert Pow2(4) == 16;
    assert Pow2(8) == 16 * Pow2(4);
    assert Pow2(12) == 16 * Pow2(8);
    assert Pow2(16) == 16 * Pow2(12);
    PowersDivide(16, 32);
    PowersDivide(32, 64);
  }

  /** What rounding up to a power of two gives: the next multiple, or zero if that
      is past the largest word. */
  lemma RoundUpIs(x: nat, k: nat)
    requires k < 64 && x < WORD
    ensures var a := Pow2(k);
            && a > 0 && RoundUp(x, a) % a == 0 && RoundUp(x, a) < WORD
            && (x + (a - 1) < WORD ==> x <= RoundUp(x, a) < x + a)
            && (x + (a - 1) >= WORD ==> RoundUp(x, a) == 0)
  {
    PowGrows(k, 64);
    WordIs();
    RoundUpBy(x, Pow2(k));
  }

  lemma RoundUpBy(x: nat, a: nat)
    requires 0 < a < WORD && x < WORD
    ensures RoundUp(x, a) % a == 0 && RoundUp(x, a) < WORD
    ensures x + (a - 1) < WORD ==> x <= RoundUp(x, a) < x + a
    ensures x + (a - 1) >= WORD ==> RoundUp(x, a) == 0
  {
    var w := (x + (a - 1)) % 0x1_0000_0000_0000_0000;
    RoundDown(w, a);
    if x + (a - 1) >= WORD {
      assert w == x + (a - 1) - WORD < a;
    }
  }

  lemma RoundDown(w: nat, a: nat)
    requires a > 0
    ensures 0 <= w - w % a <= w < w - w % a + a && (w - w % a) % a == 0
    ensures w < a ==> w % a == w
  {
    var q := w / a;
    assert w == q * a + w % a;
    Division.DivUnique(w - w % a, q, a, 0);
    if w < a { Division.DivUnique(w, 0, a, w); }
  }

  /** Multiples stay multiples of smaller powers of two. */
  lemma MultipleOfSmaller(x: nat, j: nat, k: nat)
    requires j <= k && x % Pow2(k) == 0
    ensures x % Pow2(j) == 0
  {
    PowersDivide(j, k);
    MultipleOfFactor(x, Pow2(j), Pow2(k - j));
  }

  lemma MultipleOfFactor(x: nat, a: nat, b: nat)
    requires a > 0 && b > 0 && a * b > 0 && x % (a * b) == 0
    ensures x % a == 0
  {
    var q := x / (a * b);
    assert x == q * (a * b) == (q * b) * a;
    Division.DivUnique(x, q * b, a, 0);
  }

  /** Two different multiples are apart by at least the divisor. */
  lemma MultiplesApart(x: int, y: int, a: nat)
    requires a > 0 && x % a == 0 && y % a == 0 && x < y
    ensures x + a <= y
  {
    var p, q := x / a, y / a;
    assert x == p * a && y == q * a;
    if p >= q { Division.MulMonotone(q, p, a); }
    Division.Distributes(p, 1, a);
    Division.MulMonotone(p + 1, q, a);
  }

  lemma WordMultiple(k: nat)
    requires k < 64
    ensures 0 < Pow2(k) < WORD && WORD % Pow2(k) == 0
  {
    PowersDivide(k, 64);
    PowGrows(k, 64);
    Factor(Pow2(64), Pow2(k), Pow2(64 - k));
    WordIs();
  }

  lemma Factor(w: nat, a: nat, b: nat)
    requires a > 0 && w == a * b
    ensures w % a == 0
  {
    Division.DivUnique(w, b, a, 0);
  }

  lemma RoundUpMultiple(x: nat, a: nat)
    requires 0 < a < WORD && x + a <= WORD && x % a == 0
    ensures RoundUp(x, a) == x
  {
    RoundUpBy(x, a);
    if x < RoundUp(x, a) { MultiplesApart(x, RoundUp(x, a), a); }
  }

  /** A multiple is where rounding up leads to itself. */
  lemma RoundUpSame(x: nat, k: nat)
    requires k < 64 && x < WORD && x % Pow2(k) == 0
    ensures RoundUp(x, Pow2(k)) == x
  {
    WordMultiple(k);
    MultiplesApart(x, WORD, Pow2(k));
    RoundUpMultiple(x, Pow2(k));
  }

  // ----- sizes of aligned allocations -----

  /** Settings fixed at boot: size classes, chunk size, and the largest run. */
  datatype Config = Config(sp: Spaces, lgChunk: nat, maxclass: nat)

  ghost predicate ConfigOk(cfg: Config) {
    SpacesOk(cfg.sp) && 13 <= cfg.lgChunk < 64 && cfg.maxclass % 4096 == 0 && 4096 <= cfg.maxclass < Pow2(cfg.lgChunk)
  }

  /** sa2u: the usable size, or zero on overflow; and the run size, if it was
      computed. */
  function Sa2u(cfg: Config, size: nat, alignment: nat): (nat, Option<nat>)
    requires ConfigOk(cfg) && 1 <= size < WORD && 0 < alignment < WORD
  {
    var usize := RoundUp(size, alignment);
    if usize < size then (0, None)
    else if usize <= cfg.maxclass && alignment <= 4096 then
      if usize <= 3840 then (Class(cfg.sp, usize), None) else (RoundUp(usize, 4096), None)
    else InPages(cfg, size, RoundUp(size, 4096), RoundUp(alignment, 4096))
  }

  predicate Overflows(u: nat, a: nat) {
    (u + a) % 0x1_0000_0000_0000_0000 < u
  }

  function RunSize(u: nat, a: nat): nat {
    if u >= a then (u + a - 4096) % 0x1_0000_0000_0000_0000 else (2 * a - 4096) % 0x1_0000_0000_0000_0000
  }

  /** The second half of sa2u, with size and alignment in whole pages. */
  function InPages(cfg: Config, size: nat, u: nat, a: nat): (nat, Option<nat>)
    requires ConfigOk(cfg)
  {
    if u < size || Overflows(u, a) then (0, None)
    else
      var run := RunSize(u, a);
      if run <= cfg.maxclass then (RoundUp(u, 4096), Some(run)) else (RoundUp(u, Pow2(cfg.lgChunk)), Some(run))
  }

  lemma InWord(x: int)
    requires 0 <= x < WORD
    ensures x % 0x1_0000_0000_0000_0000 == x
  {
  }

  lemma Wraps(x: int)
    requires WORD <= x < 2 * WORD
    ensures x % 0x1_0000_0000_0000_0000 == x - WORD
  {
  }

  lemma InPagesIs(cfg: Config, size: nat, u: nat, a: nat)
    requires ConfigOk(cfg) && u < WORD && u % 4096 == 0 && 4096 <= a <= 0x8000_0000_0000_0000
    ensures u < size || u + a >= WORD ==> InPages(cfg, size, u, a) == (0, None)
    ensures u >= size && u + a < WORD ==>
              && OverSize(u, a) >= 0
              && InPages(cfg, size, u, a).0 == (if OverSize(u, a) <= cfg.maxclass then u else RoundUp(u, Pow2(cfg.lgChunk)))
              && InPages(cfg, size, u, a).1.Some? && InPages(cfg, size, u, a).1.value == OverSize(u, a)
  {
    SumInWord(u, a);
    if u + a < WORD {
      RunInWord(u, a);
      RoundUpMultiple(u, 4096);
    }
  }

  lemma RunInWord(u: nat, a: nat)
    requires u + a < WORD && 4096 <= a <= 0x8000_0000_0000_0000
    ensures 0 <= OverSize(u, a) < WORD
    ensures RunSize(u, a) == OverSize(u, a)
  {
    InWord(OverSize(u, a));
  }

  lemma SumInWord(u: nat, a: nat)
    requires u < WORD && a <= 0x8000_0000_0000_0000
    ensures Overflows(u, a) <==> u + a >= WORD
  {
    if u + a >= WORD { Wraps(u + a); } else { InWord(u + a); }
  }

  /** The small size class of a size. */
  function Class(sp: Spaces, s: nat): (c: nat)
    requires SpacesOk(sp) && 1 <= s <= 3840
    ensures c >= s
  {
    SmallestClass(sp, s);
    RegSize(sp, Size2Bin(sp, s))
  }

  lemma SmallPowerIs(k: nat)
    requires k <= 12
    ensures SmallPower(Pow2(k))
  {
    if k == 0 {
    } else if k == 1 {
      assert Pow2(1) == 2 * Pow2(0);
    } else if k == 2 {
      assert Pow2(2) == 2 * Pow2(1);
    } else if k == 3 {
      assert Pow2(3) == 2 * Pow2(2);
    } else if k == 12 {
      WordIs();
    } else {
      Powers(k);
    }
  }

  /** An alignment up to a page is one of thirteen numbers. */
  lemma UpToPage(k: nat)
    requires k < 64 && Pow2(k) <= 4096
    ensures k <= 12 && SmallPower(Pow2(k))
  {
    WordIs();
    if k > 12 { PowGrows(12, k); }
    SmallPowerIs(k);
  }

  lemma AbovePage(k: nat)
    requires k < 64 && Pow2(k) > 4096
    ensures k >= 13 && Pow2(k) % 4096 == 0 && Pow2(k) >= 8192 && RoundUp(Pow2(k), 4096) == Pow2(k) < WORD
  {
    WordIs();
    if k < 12 { PowGrows(k, 12); }
    PowGrows(12, k);
    PowGrows(k, 64);
    PowersDivide(12, k);
    Division.DivUnique(Pow2(k), Pow2(k - 12), 4096, 0);
    RoundUpSame(Pow2(k), 12);
  }

  /** The size is a region size, and no smaller one would do. */
  ghost predicate LeastRegion(sp: Spaces, s: nat, r: nat) {
    && (exists b: nat :: b < Nbins(sp) && r == RegSize(sp, b))
    && (forall d: nat :: d < Nbins(sp) && s <= RegSize(sp, d) ==> r <= RegSize(sp, d))
  }

  lemma ClassLeast(sp: Spaces, s: nat)
    requires SpacesOk(sp) && 1 <= s <= 3840
    ensures LeastRegion(sp, s, Class(sp, s))
  {
    SmallestClass(sp, s);
    var b: nat := Size2Bin(sp, s);
    forall d: nat | d < Nbins(sp) && s <= RegSize(sp, d) ensures RegSize(sp, b) <= RegSize(sp, d) {
      if b < d { Increasing(sp, b, d); }
    }
  }

  /** A sum that overflows is noticed, whatever the alignment. */
  lemma Sa2uOverflows(cfg: Config, size: nat, k: nat)
    requires ConfigOk(cfg) && 1 <= size < WORD && k < 64 && Pow2(k) < WORD
    ensures size > WORD - Pow2(k) ==> Sa2u(cfg, size, Pow2(k)) == (0, None)
  {
    RoundUpIs(size, k);
    WordMultiple(k);
  }

  /** Up to the page size: the size rounded up to the alignment, and from there
      to the next region size, or, where the regions end, to the next page.  It is
      aligned. */
  lemma Sa2uSmall(cfg: Config, size: nat, k: nat)
    requires ConfigOk(cfg) && 1 <= size < WORD && k < 64 && Pow2(k) < WORD && Pow2(k) <= 4096
    requires size <= RoundUp(size, Pow2(k)) <= cfg.maxclass
    ensures var (r, run) := Sa2u(cfg, size, Pow2(k));
            size <= r <= cfg.maxclass && r % Pow2(k) == 0 && run == None
    ensures var r, u := Sa2u(cfg, size, Pow2(k)).0, RoundUp(size, Pow2(k));
            if u <= 3840 then LeastRegion(cfg.sp, u, r) else r % 4096 == 0 && u <= r < u + 4096
  {
    var a := Pow2(k);
    UpToPage(k);
    RoundUpIs(size, k);
    var usize := RoundUp(size, a);
    if usize <= 3840 {
      ClassAligned(cfg.sp, usize, a);
      ClassBound(cfg.sp, usize);
      ClassLeast(cfg.sp, usize);
    } else {
      RoundUpBy(usize, 4096);
      PageMultiple(RoundUp(usize, 4096), a);
      BelowWord(cfg);
      if cfg.maxclass < RoundUp(usize, 4096) { MultiplesApart(cfg.maxclass, RoundUp(usize, 4096), 4096); }
    }
  }

  lemma ClassBound(sp: Spaces, s: nat)
    requires SpacesOk(sp) && 1 <= s <= 3840
    ensures Class(sp, s) <= 3840
  {
    ClassIs(sp, s);
  }

  lemma BelowWord(cfg: Config)
    requires ConfigOk(cfg)
    ensures cfg.maxclass + 4096 < WORD && 8192 <= Pow2(cfg.lgChunk) && Pow2(cfg.lgChunk) % 4096 == 0 && 2 * Pow2(cfg.lgChunk) <= WORD
  {
    WordIs();
    PowGrows(cfg.lgChunk, 64);
    PowGrows(12, cfg.lgChunk);
    AbovePage(cfg.lgChunk);
  }

  /** The request is for more than a page, or needs more than page alignment. */
  ghost predicate LargePath(cfg: Config, size: nat, alignment: nat)
    requires 0 < alignment
  {
    1 <= size <= RoundUp(size, alignment) && size < WORD && (RoundUp(size, alignment) > cfg.maxclass || alignment > 4096)
  }

  /** The pages of the over-size run, without overflow. */
  function OverSize(u: nat, a: nat): int {
    if u >= a then u + a - 4096 else 2 * a - 4096
  }

  lemma PageAlignment(k: nat)
    requires k < 64
    ensures 0 < Pow2(k) < WORD
    ensures var a := RoundUp(Pow2(k), 4096);
            4096 <= a <= 0x8000_0000_0000_0000 && a % 4096 == 0 && (if Pow2(k) <= 4096 then a == 4096 else a == Pow2(k) >= 8192)
  {
    WordMultiple(k);
    if Pow2(k) > 4096 {
      AbovePage(k);
      BelowHalf(k);
    } else {
      UpToOnePage(Pow2(k));
    }
  }

  lemma BelowHalf(k: nat)
    requires k < 64
    ensures Pow2(k) <= 0x8000_0000_0000_0000
  {
    Half();
    if k < 63 { PowGrows(k, 63); }
  }

  lemma UpToOnePage(x: nat)
    requires 1 <= x <= 4096
    ensures RoundUp(x, 4096) == 4096
  {
    var w := (x + (4096 - 1)) % 0x1_0000_0000_0000_0000;
    assert w == x + 4095;
    Division.DivUnique(w, 1, 4096, x - 1);
  }

  lemma Half()
    ensures Pow2(63) == 0x8000_0000_0000_0000
  {
    WordIs();
    assert Pow2(64) == 2 * Pow2(63);
  }

  /** Beyond a page: zero exactly on overflow; otherwise the over-size run, and
      the size in pages if that run fits in a chunk, in chunks if not. */
  lemma Sa2uLarge(cfg: Config, size: nat, k: nat)
    requires ConfigOk(cfg) && k < 64 && Pow2(k) < WORD && LargePath(cfg, size, Pow2(k))
    ensures var (r, run) := Sa2u(cfg, size, Pow2(k)); var u, a := RoundUp(size, 4096), RoundUp(Pow2(k), 4096);
            && (u < size || u + a >= WORD ==> r == 0 && run == None)
            && (u >= size && u + a < WORD ==>
                  && OverSize(u, a) >= 0 && run.Some? && run.value == OverSize(u, a) == (if u >= a then u + a - 4096 else 2 * a - 4096)
                  && r == if OverSize(u, a) <= cfg.maxclass then u else RoundUp(u, Pow2(cfg.lgChunk)))
  {
    var u, a := RoundUp(size, 4096), RoundUp(Pow2(k), 4096);
    PageAlignment(k);
    RoundUpBy(size, 4096);
    InPagesIs(cfg, size, u, a);
  }

  /** A run that fits in a chunk always has room for an aligned block of the
      size: what arena_palloc asks for. */
  lemma RunHasRoom(cfg: Config, size: nat, k: nat)
    requires ConfigOk(cfg) && k < 64 && Pow2(k) < WORD && LargePath(cfg, size, Pow2(k))
    requires Sa2u(cfg, size, Pow2(k)).1.Some? && Sa2u(cfg, size, Pow2(k)).1.value <= cfg.maxclass
    ensures var (r, run) := Sa2u(cfg, size, Pow2(k)); var need, align, total := r / 4096, Pow2(k) / 4096, run.value / 4096;
            && size <= r && r % 4096 == 0 && Pow2(k) % 4096 == 0 && run.value % 4096 == 0
            && need >= 1 && align >= 2 && need + align - 1 <= total && total * 4096 <= cfg.maxclass
  {
    Sa2uLarge(cfg, size, k);
    PageAlignment(k);
    RoundUpBy(size, 4096);
    var u := RoundUp(size, 4096);
    if Pow2(k) <= 4096 {
      MultipleOfPage(size, k);
      WordMultiple(k);
      if u < RoundUp(size, Pow2(k)) { RoundUpLeast(size, u, k); }
    }
    InWholePages(u, Pow2(k));
  }

  lemma InWholePages(u: nat, a: nat)
    requires u % 4096 == 0 && a % 4096 == 0 && u > 0 && a >= 8192
    ensures OverSize(u, a) >= 0 && OverSize(u, a) % 4096 == 0 && u / 4096 >= 1 && a / 4096 >= 2
    ensures u / 4096 + a / 4096 - 1 <= OverSize(u, a) / 4096 && OverSize(u, a) / 4096 * 4096 == OverSize(u, a)
  {
    var p, q := u / 4096, a / 4096;
    assert u == 4096 * p && a == 4096 * q;
    var n := if u >= a then p + q - 1 else 2 * q - 1;
    assert OverSize(u, a) == n * 4096;
    Division.DivUnique(OverSize(u, a), n, 4096, 0);
  }

  /** Rounding up gives the least multiple. */
  lemma RoundUpLeast(x: nat, y: nat, k: nat)
    requires k < 64 && x <= y < WORD && y % Pow2(k) == 0
    ensures RoundUp(x, Pow2(k)) <= y
  {
    var a := Pow2(k);
    RoundUpIs(x, k);
    if y < RoundUp(x, a) { MultiplesApart(y, RoundUp(x, a), a); }
  }

  lemma MultipleOfPage(x: nat, k: nat)
    requires k < 64 && Pow2(k) <= 4096 && x < WORD
    ensures RoundUp(x, 4096) % Pow2(k) == 0
  {
    UpToPage(k);
    RoundUpBy(x, 4096);
    PageMultiple(RoundUp(x, 4096), Pow2(k));
  }

  // ----- the second call, in ipalloc -----

  /** ipalloc calls sa2u again on its result to learn the run size.  It gets the
      same result, with a run size, if and only if the result and the alignment
      add up to less than 2^64; otherwise no run size is computed. */
  lemma SecondCall(cfg: Config, size: nat, k: nat)
    requires ConfigOk(cfg) && k < 64 && Pow2(k) < WORD && LargePath(cfg, size, Pow2(k)) && Sa2u(cfg, size, Pow2(k)).0 != 0
    ensures var (r, run) := Sa2u(cfg, size, Pow2(k));
            && size <= r < WORD && run.Some?
            && (if r + RoundUp(Pow2(k), 4096) < WORD
                then Sa2u(cfg, r, Pow2(k)).0 == r && Sa2u(cfg, r, Pow2(k)).1.Some?
                     && (run.value <= cfg.maxclass ==> Sa2u(cfg, r, Pow2(k)).1 == run)
                     && (run.value > cfg.maxclass ==> Sa2u(cfg, r, Pow2(k)).1.value > cfg.maxclass)
                else Sa2u(cfg, r, Pow2(k)) == (0, None))
  {
    var u, a := RoundUp(size, 4096), RoundUp(Pow2(k), 4096);
    Sa2uLarge(cfg, size, k);
    PageAlignment(k);
    RoundUpBy(size, 4096);
    if OverSize(u, a) <= cfg.maxclass {
      RunHasRoom(cfg, size, k);
      SecondOfRun(cfg, u, k);
    } else {
      ChunkRounded(cfg, u);
      SecondOfChunks(cfg, RoundUp(u, Pow2(cfg.lgChunk)), k);
    }
  }

  lemma ChunkRounded(cfg: Config, u: nat)
    requires ConfigOk(cfg) && 1 <= u < WORD && RoundUp(u, Pow2(cfg.lgChunk)) != 0
    ensures var r := RoundUp(u, Pow2(cfg.lgChunk));
            u <= r < WORD && r % 4096 == 0 && r % Pow2(cfg.lgChunk) == 0 && cfg.maxclass < r
  {
    RoundUpIs(u, cfg.lgChunk);
    var r := RoundUp(u, Pow2(cfg.lgChunk));
    WordIs();
    MultipleOfSmaller(r, 12, cfg.lgChunk);
    MultiplesApart(0, r, Pow2(cfg.lgChunk));
  }

  lemma SecondOfRun(cfg: Config, u: nat, k: nat)
    requires ConfigOk(cfg) && k < 64 && 4096 < Pow2(k) < WORD && 1 <= u && u % 4096 == 0
    requires u + Pow2(k) < WORD && OverSize(u, Pow2(k)) <= cfg.maxclass
    ensures Sa2u(cfg, u, Pow2(k)).0 == u && Sa2u(cfg, u, Pow2(k)).1.Some? && Sa2u(cfg, u, Pow2(k)).1.value == OverSize(u, Pow2(k))
  {
    RoundUpIs(u, k);
    PageAlignment(k);
    RoundUpMultiple(u, 4096);
    Sa2uLarge(cfg, u, k);
  }

  lemma SecondOfChunks(cfg: Config, r: nat, k: nat)
    requires ConfigOk(cfg) && k < 64 && Pow2(k) < WORD && cfg.maxclass < r < WORD && r % 4096 == 0
    requires r % Pow2(cfg.lgChunk) == 0
    ensures var a := RoundUp(Pow2(k), 4096);
            && (r + a < WORD ==> Sa2u(cfg, r, Pow2(k)).0 == r && Sa2u(cfg, r, Pow2(k)).1.Some? && Sa2u(cfg, r, Pow2(k)).1.value > cfg.maxclass)
            && (r + a >= WORD ==> Sa2u(cfg, r, Pow2(k)) == (0, None))
  {
    var a := RoundUp(Pow2(k), 4096);
    PageAlignment(k);
    if RoundUp(r, Pow2(k)) < r {
      FirstCheck(cfg, r, k);
    } else {
      PageOfWord(r);
      RoundUpSame(r, cfg.lgChunk);
      SecondCheck(cfg, r, k, a);
    }
  }

  lemma SecondCheck(cfg: Config, r: nat, k: nat, a: nat)
    requires ConfigOk(cfg) && k < 64 && Pow2(k) < WORD && cfg.maxclass < r <= RoundUp(r, Pow2(k)) && r < WORD && a == RoundUp(Pow2(k), 4096) >= 4096
    requires RoundUp(r, 4096) == r && RoundUp(r, Pow2(cfg.lgChunk)) == r
    ensures r + a < WORD ==> Sa2u(cfg, r, Pow2(k)).0 == r && Sa2u(cfg, r, Pow2(k)).1.Some? && Sa2u(cfg, r, Pow2(k)).1.value > cfg.maxclass
    ensures r + a >= WORD ==> Sa2u(cfg, r, Pow2(k)) == (0, None)
  {
    Sa2uLarge(cfg, r, k);
  }

  lemma FirstCheck(cfg: Config, size: nat, k: nat)
    requires ConfigOk(cfg) && k < 64 && Pow2(k) < WORD && 1 <= size < WORD && RoundUp(size, Pow2(k)) < size
    ensures Sa2u(cfg, size, Pow2(k)) == (0, None) && size + Pow2(k) > WORD
  {
    RoundUpIs(size, k);
  }

  lemma PageOfWord(r: nat)
    requires r < WORD && r % 4096 == 0
    ensures RoundUp(r, 4096) == r
  {
    WordMultiple(12);
    WordIs();
    MultiplesApart(r, WORD, 4096);
    RoundUpMultiple(r, 4096);
  }

  /** It does happen: with chunks of 4 MB and an alignment of 8 MB, the second
      call fails on the result of the first for the size 2^64 - 8 MB - 4 KB. */
  lemma SecondCallFails(cfg: Config)
    requires ConfigOk(cfg) && cfg.lgChunk == 22
    ensures Pow2(23) == 0x80_0000
    ensures var size := WORD - 0x80_0000 - 4096;
            && Sa2u(cfg, size, 0x80_0000).0 == WORD - 0x80_0000
            && Sa2u(cfg, WORD - 0x80_0000, 0x80_0000) == (0, None)
  {
    WordIs();
    assert Pow2(16) == 16 * Pow2(12);
    assert Pow2(20) == 16 * Pow2(16);
    assert Pow2(22) == 4 * Pow2(20);
    var size := WORD - 0x80_0000 - 4096;
    assert RoundUp(size, 0x80_0000) == WORD - 0x80_0000;
    assert RoundUp(size, 4096) == size;
    assert RoundUp(size, 0x40_0000) == WORD - 0x80_0000;
    Sa2uLarge(cfg, size, 23);
    SecondCall(cfg, size, 23);
  }

  // ----- alignment beyond a chunk -----

  /** alloc_size in huge_palloc. */
  function HugeSize(size: nat, chunkSize: nat, a: nat, chunk: nat): nat {
    if size >= a then (chunkSize + a - chunk) % 0x1_0000_0000_0000_0000 else (2 * a - chunk) % 0x1_0000_0000_0000_0000
  }

  lemma HugeSizeIs(size: nat, chunkSize: nat, a: nat, chunk: nat)
    requires 1 <= size <= chunkSize && chunkSize + a <= WORD && 0 < chunk < a <= 0x8000_0000_0000_0000
    requires chunkSize % chunk == 0 && a % chunk == 0 && chunkSize < size + chunk
    ensures HugeSize(size, chunkSize, a, chunk) == (if size >= a then chunkSize + a - chunk else 2 * a - chunk)
    ensures HugeSize(size, chunkSize, a, chunk) >= chunkSize + (a - chunk)
  {
    InWord(if size >= a then chunkSize + a - chunk else 2 * a - chunk);
    if size < a < chunkSize { MultiplesApart(a, chunkSize, chunk); }
  }

  /** Rounding up to chunks does not use up the room that sa2u has checked: what
      is left below 2^64 beside the alignment is a whole number of chunks. */
  lemma ChunksFit(u: nat, j: nat, k: nat)
    requires j < k < 64 && 1 <= u && u + Pow2(k) < WORD
    ensures u <= RoundUp(u, Pow2(j)) && RoundUp(u, Pow2(j)) + Pow2(k) <= WORD && RoundUp(u, Pow2(j)) % Pow2(j) == 0
  {
    WordMultiple(j);
    WordMultiple(k);
    PowerMultiple(j, k);
    PowGrows(j, k);
    Difference(WORD, Pow2(k), Pow2(j));
    RoundUpIs(u, j);
    RoundUpLeast(u, WORD - Pow2(k), j);
  }

  /** The same for chunks: whenever sa2u gives a size for an alignment beyond the
      chunk size, that size meets what huge_palloc asks for. */
  lemma HugeHasRoom(cfg: Config, size: nat, k: nat)
    requires ConfigOk(cfg) && cfg.lgChunk < k < 64 && Pow2(k) < WORD && 1 <= size < WORD && Sa2u(cfg, size, Pow2(k)).0 != 0
    ensures var (r, run) := Sa2u(cfg, size, Pow2(k));
            && size <= r < WORD && run.Some? && run.value > cfg.maxclass
            && RoundUp(r, Pow2(cfg.lgChunk)) == r && r + Pow2(k) <= WORD
  {
    HugePath(cfg, size, k);
    Sa2uLarge(cfg, size, k);
    var u := RoundUp(size, 4096);
    ChunksFit(u, cfg.lgChunk, k);
    PowGrows(cfg.lgChunk, k);
    RoundUpSame(RoundUp(u, Pow2(cfg.lgChunk)), cfg.lgChunk);
  }

  lemma HugePath(cfg: Config, size: nat, k: nat)
    requires ConfigOk(cfg) && cfg.lgChunk < k < 64 && Pow2(k) < WORD && 1 <= size < WORD && Sa2u(cfg, size, Pow2(k)).0 != 0
    ensures LargePath(cfg, size, Pow2(k)) && RoundUp(Pow2(k), 4096) == Pow2(k) > 4096
  {
    WordIs();
    PowGrows(12, k);
    PageAlignment(k);
  }

  /** Both together: an aligned block of the size that sa2u gave. */
  method HugePalloc(cfg: Config, size: nat, k: nat, ret: nat) returns (addr: nat, lead: nat, block: nat, trail: nat)
    requires ConfigOk(cfg) && cfg.lgChunk < k < 64 && Pow2(k) < WORD && 1 <= size < WORD && ret % Pow2(cfg.lgChunk) == 0
    ensures Sa2u(cfg, size, Pow2(k)).0 == 0 <==> block == 0
    ensures block != 0 ==> addr % Pow2(k) == 0 && addr == ret + lead && block == Sa2u(cfg, size, Pow2(k)).0 >= size
    ensures block != 0 ==> lead + block + trail == HugeSize(block, block, Pow2(k), Pow2(cfg.lgChunk))
    ensures block != 0 ==> lead % Pow2(cfg.lgChunk) == 0 && trail % Pow2(cfg.lgChunk) == 0
  {
    var r := Sa2u(cfg, size, Pow2(k)).0;
    if r == 0 {
      return 0, 0, 0, 0;
    }
    HugeHasRoom(cfg, size, k);
    addr, lead, block, trail := HugeTrim(ret, r, k, cfg.lgChunk);
  }

  /** huge_palloc: from the range that the system gave, whole chunks in front of
      the aligned block and behind it are given back.  Head, block and tail make
      up the range, and no subtraction underflows. */
  method HugeTrim(ret: nat, size: nat, k: nat, lgChunk: nat) returns (addr: nat, lead: nat, block: nat, trail: nat)
    requires 13 <= lgChunk < k < 64 && 1 <= size < WORD && ret % Pow2(lgChunk) == 0
    requires size <= RoundUp(size, Pow2(lgChunk)) && RoundUp(size, Pow2(lgChunk)) + Pow2(k) <= WORD
    ensures addr % Pow2(k) == 0 && addr == ret + lead && block == RoundUp(size, Pow2(lgChunk)) >= size
    ensures lead + block + trail == HugeSize(size, block, Pow2(k), Pow2(lgChunk))
    ensures lead % Pow2(lgChunk) == 0 && trail % Pow2(lgChunk) == 0
  {
    var chunk, a := Pow2(lgChunk), Pow2(k);
    HugeFacts(size, k, lgChunk);
    block := RoundUp(size, chunk);
    var total := HugeSize(size, block, a, chunk);
    HugeSizeIs(size, block, a, chunk);
    Division.Aligned(ret, a);
    HugeOffset(ret, k, lgChunk);
    var offset := ret % a;
    lead := if offset == 0 then 0 else a - offset;
    addr := ret + lead;
    trail := total - lead - block;
    HugeTrail(size, block, a, chunk, lead);
  }

  lemma HugeFacts(size: nat, k: nat, lgChunk: nat)
    requires 13 <= lgChunk < k < 64 && 1 <= size < WORD
    ensures 0 < Pow2(lgChunk) < Pow2(k) <= 0x8000_0000_0000_0000 && Pow2(k) % Pow2(lgChunk) == 0
    ensures RoundUp(size, Pow2(lgChunk)) % Pow2(lgChunk) == 0 && RoundUp(size, Pow2(lgChunk)) < size + Pow2(lgChunk)
  {
    RoundUpIs(size, lgChunk);
    PowGrows(lgChunk, k);
    PowerMultiple(lgChunk, k);
    BelowHalf(k);
  }

  lemma PowerMultiple(j: nat, k: nat)
    requires j <= k
    ensures Pow2(k) % Pow2(j) == 0
  {
    PowersDivide(j, k);
    Division.DivUnique(Pow2(k), Pow2(k - j), Pow2(j), 0);
  }

  lemma HugeOffset(ret: nat, k: nat, lgChunk: nat)
    requires lgChunk < k < 64 && ret % Pow2(lgChunk) == 0 && Pow2(k) % Pow2(lgChunk) == 0
    ensures (ret % Pow2(k)) % Pow2(lgChunk) == 0 && (Pow2(k) - ret % Pow2(k)) % Pow2(lgChunk) == 0
    ensures ret % Pow2(k) != 0 ==> Pow2(lgChunk) <= ret % Pow2(k)
  {
    var chunk, a := Pow2(lgChunk), Pow2(k);
    var down := ret - ret % a;
    RoundDown(ret, a);
    MultipleOfSmaller(down, lgChunk, k);
    Difference(ret, down, chunk);
    Difference(a, ret % a, chunk);
    if ret % a != 0 { MultiplesApart(0, ret % a, chunk); }
  }

  lemma HugeTrail(size: nat, block: nat, a: nat, chunk: nat, lead: nat)
    requires 1 <= size <= block && block + a <= WORD && 0 < chunk < a <= 0x8000_0000_0000_0000
    requires block % chunk == 0 && a % chunk == 0 && block < size + chunk && lead % chunk == 0 && lead <= a - chunk
    ensures lead + block <= HugeSize(size, block, a, chunk)
    ensures (HugeSize(size, block, a, chunk) - lead - block) % chunk == 0
  {
    HugeSizeIs(size, block, a, chunk);
    Difference(a, chunk, chunk);
    Difference(a - chunk, lead, chunk);
    if size < a {
      Difference(a, block, chunk);
      Sum(a - block, a - chunk - lead, chunk);
    }
  }

  lemma Sum(x: int, y: int, a: nat)
    requires a > 0 && x % a == 0 && y % a == 0
    ensures (x + y) % a == 0
  {
    var p, q := x / a, y / a;
    assert x == p * a && y == q * a;
    Division.Distributes(p, q, a);
    Division.DivUnique(x + y, p + q, a, 0);
  }
}
