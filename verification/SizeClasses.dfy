/** Small size classes (arena.c): which sizes the bins have, and the table that
    sends a request to its bin. */
module SizeClasses {
  import opened PowersOfTwo
  import Division

  /** The four spacings: powers of two below 16, multiples of 16 up to `qmax`,
      of 64 from `cmin` up to `cmax`, of 256 from `smin` up to 3840. */
  datatype Spaces = Spaces(qmax: nat, cmin: nat, cmax: nat, smin: nat)

  /** QUANTUM_CEILING, CACHELINE_CEILING, SUBPAGE_CEILING. */
  function Ceil16(s: nat): nat { (s + 15) / 16 * 16 }

  function Ceil64(s: nat): nat { (s + 63) / 64 * 64 }

  function Ceil256(s: nat): nat { (s + 255) / 256 * 256 }

  /** Settings that malloc_conf_init lets pass. */
  predicate Legal(lgQspaceMax: nat, lgCspaceMax: nat) {
    4 <= lgQspaceMax && lgCspaceMax <= 11 && lgQspaceMax + 1 < lgCspaceMax
  }

  predicate QuantumMax(n: nat) {
    n == 16 || n == 32 || n == 64 || n == 128 || n == 256 || n == 512
  }

  predicate LineMax(n: nat) {
    n == 64 || n == 128 || n == 256 || n == 512 || n == 1024 || n == 2048
  }

  ghost predicate SpacesOk(sp: Spaces) {
    && QuantumMax(sp.qmax) && LineMax(sp.cmax) && 4 * sp.qmax <= sp.cmax
    && sp.cmin % 64 == 0 && sp.qmax < sp.cmin <= sp.cmax && sp.cmin < sp.qmax + 65
    && sp.smin % 256 == 0 && sp.cmax < sp.smin <= 2304 && sp.smin < sp.cmax + 257
  }

  /** The first lines of arena_boot. */
  method SpaceBoot(lgQspaceMax: nat, lgCspaceMax: nat) returns (sp: Spaces)
    requires Legal(lgQspaceMax, lgCspaceMax)
    ensures SpacesOk(sp) && sp.qmax == Pow2(lgQspaceMax) && sp.cmax == Pow2(lgCspaceMax)
  {
    Powers(lgQspaceMax);
    Powers(lgCspaceMax);
    FourTimes(lgQspaceMax, lgCspaceMax);
    var qmax := Pow2(lgQspaceMax);
    assert QuantumMax(qmax);
    var cmin := Ceil64(qmax);
    if cmin == qmax {
      cmin := cmin + 64;
    }
    var cmax := Pow2(lgCspaceMax);
    assert LineMax(cmax);
    var smin := Ceil256(cmax);
    if smin == cmax {
      smin := smin + 256;
    }
    sp := Spaces(qmax, cmin, cmax, smin);
  }

  lemma Powers(k: nat)
    requires 4 <= k <= 11
    ensures Pow2(k) == (match k case 4 => 16 case 5 => 32 case 6 => 64 case 7 => 128 case 8 => 256 case 9 => 512 case 10 => 1024 case _ => 2048)
  {
    assert Pow2(4) == 16 && Pow2(5) == 2 * Pow2(4) && Pow2(6) == 2 * Pow2(5) && Pow2(7) == 2 * Pow2(6);
    assert Pow2(8) == 2 * Pow2(7) && Pow2(9) == 2 * Pow2(8) && Pow2(10) == 2 * Pow2(9) && Pow2(11) == 2 * Pow2(10);
  }

  lemma FourTimes(q: nat, c: nat)
    requires Legal(q, c)
    ensures 4 * Pow2(q) <= Pow2(c)
  {
    Powers(q);
    Powers(c);
  }

  // ----- bins and their sizes -----

  function Nq(sp: Spaces): nat {
    sp.qmax / 16
  }

  function Nc(sp: Spaces): int {
    (sp.cmax - sp.cmin) / 64 + 1
  }

  function Ns(sp: Spaces): int {
    (3840 - sp.smin) / 256 + 1
  }

  /** nbins, with the one tiny bin. */
  function Nbins(sp: Spaces): int {
    1 + Nq(sp) + Nc(sp) + Ns(sp)
  }

  /** reg_size of a bin (bin_info_init). */
  function RegSize(sp: Spaces, b: nat): int {
    if b < 1 then 8
    else if b < 1 + Nq(sp) then 16 * b
    else if b < 1 + Nq(sp) + Nc(sp) then sp.cmin + (b - 1 - Nq(sp)) * 64
    else sp.smin + (b - 1 - Nq(sp) - Nc(sp)) * 256
  }

  /** The bin that the loops of small_size2bin_init_hard compute for a size. */
  function BinOf(sp: Spaces, s: nat): int {
    if s < 9 then 0
    else if s < 16 then 1
    else if s <= sp.qmax then 1 + Ceil16(s) / 16 - 1
    else if s <= sp.cmax then 1 + Nq(sp) + (Ceil64(s) - sp.cmin) / 64
    else 1 + Nq(sp) + Nc(sp) + (Ceil256(s) - sp.smin) / 256
  }

  /** The first `n` entries, each for eight sizes, are set. */
  ghost predicate Filled(table: array<int>, sp: Spaces, n: nat)
    reads table
  {
    table.Length == 480 && n <= 480 && forall k :: 0 <= k < n ==> table[k] == BinOf(sp, 8 * k + 1)
  }

  method SetEntry(table: array<int>, ghost sp: Spaces, i: nat, ghost n: nat, binind: int)
    requires Filled(table, sp, n) && n < 480 && i == 8 * n + 1 && binind == BinOf(sp, i)
    modifies table
    ensures Filled(table, sp, n + 1)
  {
    var k := (i - 1) / 8;
    assert k == n;
    table[k] := binind;
  }

  /** The two larger spacings of small_size2bin_init_hard. */
  method FillLines(table: array<int>, sp: Spaces, from: nat, ghost n0: nat)
    requires SpacesOk(sp) && Filled(table, sp, n0) && from == 8 * n0 + 1 == sp.qmax + 1
    modifies table
    ensures Filled(table, sp, 480)
  {
    var i := from;
    ghost var n := n0;
    while i <= sp.cmax
      invariant sp.qmax < i <= sp.cmax + 1 && i == 8 * n + 1 && Filled(table, sp, n)
    {
      var b := 1 + Nq(sp) + (Ceil64(i) - sp.cmin) / 64;
      SetEntry(table, sp, i, n, b);
      i, n := i + 8, n + 1;
    }
    while i <= 3840
      invariant sp.cmax < i <= 3841 && i == 8 * n + 1 && Filled(table, sp, n)
    {
      var b := 1 + Nq(sp) + Nc(sp) + (Ceil256(i) - sp.smin) / 256;
      SetEntry(table, sp, i, n, b);
      i, n := i + 8, n + 1;
    }
  }

  /** small_size2bin_init_hard. */
  method Size2BinInit(sp: Spaces) returns (table: array<int>)
    requires SpacesOk(sp)
    ensures fresh(table) && Filled(table, sp, 480)
  {
    table := new int[480];
    var i := 1;
    ghost var n := 0;
    while i < 8
      invariant 1 <= i <= 9 && i == 8 * n + 1 && Filled(table, sp, n)
    {
      SetEntry(table, sp, i, n, 0);
      i, n := i + 8, n + 1;
    }
    while i < 16
      invariant 9 <= i <= 17 && i == 8 * n + 1 && Filled(table, sp, n)
    {
      SetEntry(table, sp, i, n, 1);
      i, n := i + 8, n + 1;
    }
    while i <= sp.qmax
      invariant 17 <= i <= sp.qmax + 1 && i == 8 * n + 1 && Filled(table, sp, n)
    {
      var b := 1 + Ceil16(i) / 16 - 1;
      SetEntry(table, sp, i, n, b);
      i, n := i + 8, n + 1;
    }
    FillLines(table, sp, i, n);
  }

  /** SMALL_SIZE2BIN, through the table. */
  function Size2Bin(sp: Spaces, s: nat): int
    requires s >= 1
  {
    BinOf(sp, 8 * ((s - 1) / 8) + 1)
  }

  // ----- the class of a size is the smallest that fits -----

  lemma Increasing(sp: Spaces, b: nat, d: nat)
    requires SpacesOk(sp) && b < d < Nbins(sp)
    ensures RegSize(sp, b) < RegSize(sp, d)
  {
  }

  /** One entry serves eight sizes, which no rounding tells apart. */
  lemma EntryOf(s: nat)
    requires s >= 1
    ensures var i := 8 * ((s - 1) / 8) + 1;
            i <= s < i + 8 && Ceil16(i) == Ceil16(s) && Ceil64(i) == Ceil64(s) && Ceil256(i) == Ceil256(s)
  {
    var q := (s - 1) / 8;
    SameRounding(q, s - 8 * q);
  }

  lemma SameRounding(q: nat, r: nat)
    requires 1 <= r <= 8
    ensures (8 * q + r + 15) / 16 == (8 * q + 16) / 16 && (8 * q + r + 63) / 64 == (8 * q + 64) / 64 && (8 * q + r + 255) / 256 == (8 * q + 256) / 256
  {
    SameQuotient(q + 1, r - 1, 2);
    SameQuotient(q + 7, r - 1, 8);
    SameQuotient(q + 31, r - 1, 32);
  }

  /** What is below 8 does not change a quotient by a multiple of 8. */
  lemma SameQuotient(x: nat, r: nat, w: nat)
    requires r < 8 && w > 0
    ensures 8 * w > 0 && (8 * x + r + 8) / (8 * w) == (8 * x + 8) / (8 * w)
  {
    var t, m := (x + 1) / w, (x + 1) % w;
    assert x + 1 == t * w + m;
    assert 8 * x + 8 == t * (8 * w) + 8 * m;
    Division.DivUnique(8 * x + 8, t, 8 * w, 8 * m);
    Division.DivUnique(8 * x + 8 + r, t, 8 * w, 8 * m + r);
  }

  lemma EntryBelow(s: nat, n: nat)
    requires s >= 1 && n % 16 == 0
    ensures 8 * ((s - 1) / 8) + 1 <= n <==> s <= n
  {
    var q, m := (s - 1) / 8, n / 16;
    EntryBelowBy(q, s - 8 * q, m);
  }

  lemma EntryBelowBy(q: int, r: int, m: int)
    requires 1 <= r <= 8
    ensures 8 * q + 1 <= 16 * m <==> 8 * q + r <= 16 * m
  {
  }

  /** What the class of a size is: the size rounded up to the spacing in force. */
  lemma ClassIs(sp: Spaces, s: nat)
    requires SpacesOk(sp) && 1 <= s <= 3840
    ensures var b := Size2Bin(sp, s);
            && 0 <= b < Nbins(sp)
            && RegSize(sp, b) == if s <= 8 then 8
                                 else if s <= sp.qmax then Ceil16(s)
                                 else if s <= sp.cmax then Ceil64(s)
                                 else Ceil256(s)
  {
    EntryOf(s);
    EntryBelow(s, sp.qmax);
    EntryBelow(s, sp.cmax);
    BinIs(sp, 8 * ((s - 1) / 8) + 1);
  }

  lemma BinIs(sp: Spaces, i: nat)
    requires SpacesOk(sp) && 1 <= i <= 3840
    ensures 0 <= BinOf(sp, i) < Nbins(sp)
    ensures RegSize(sp, BinOf(sp, i)) == if i < 9 then 8 else if i <= sp.qmax then Ceil16(i)
                                         else if i <= sp.cmax then Ceil64(i) else Ceil256(i)
  {
    if i <= sp.qmax {
      var u, q := (i + 15) / 16, sp.qmax / 16;
      assert sp.qmax == 16 * q;
      Rounded(i, 15, 16 * q, u, q);
    } else if i <= sp.cmax {
      var u, v, q := (i + 63) / 64, sp.cmin / 64, sp.cmax / 64;
      assert sp.cmin == 64 * v && sp.cmax == 64 * q;
      assert v <= u <= q;
      assert (64 * u - 64 * v) / 64 == u - v;
      assert Nc(sp) == q - v + 1;
    } else {
      var u, v := (i + 255) / 256, sp.smin / 256;
      assert sp.smin == 256 * v;
      assert v <= u <= 15;
      assert (256 * u - 256 * v) / 256 == u - v;
      assert Ns(sp) == 15 - v + 1;
    }
  }

  lemma Rounded(i: nat, d: nat, n: nat, u: nat, q: nat)
    requires d == 15 && u == (i + 15) / 16 && i <= n == 16 * q
    ensures u <= q && u * 16 / 16 == u
  {
  }

  lemma BelowClass(sp: Spaces, s: nat)
    requires SpacesOk(sp) && 1 <= s <= 3840 && Size2Bin(sp, s) >= 1
    ensures RegSize(sp, Size2Bin(sp, s) - 1) < s
  {
  }

  /** Every size goes to the smallest class that is not below it. */
  lemma SmallestClass(sp: Spaces, s: nat)
    requires SpacesOk(sp) && 1 <= s <= 3840
    ensures var b := Size2Bin(sp, s);
            && 0 <= b < Nbins(sp) && s <= RegSize(sp, b)
            && forall d: nat :: d < Nbins(sp) ==> (s <= RegSize(sp, d) <==> b <= d)
  {
    ClassIs(sp, s);
    var b := Size2Bin(sp, s);
    forall d: nat | d < Nbins(sp) ensures s <= RegSize(sp, d) <==> b <= d {
      if b < d {
        Increasing(sp, b, d);
      } else if d < b {
        BelowClass(sp, s);
        if d < b - 1 { Increasing(sp, d, b - 1); }
      }
    }
  }

  /** Powers of two up to the page size. */
  predicate SmallPower(a: nat) {
    a == 1 || a == 2 || a == 4 || a == 8 || a == 16 || a == 32 || a == 64 || a == 128 || a == 256 || a == 512 || a == 1024 || a == 2048 || a == 4096
  }

  /** Rounding a multiple of an alignment up to its class keeps it a multiple. */
  lemma ClassAligned(sp: Spaces, s: nat, a: nat)
    requires SpacesOk(sp) && 1 <= s <= 3840 && SmallPower(a) && s % a == 0
    ensures RegSize(sp, Size2Bin(sp, s)) % a == 0
  {
    ClassIs(sp, s);
    CeilAligned(s, a);
    if s <= 8 { Eight(s, a); }
  }

  lemma Eight(s: nat, a: nat)
    requires 1 <= s <= 8 && SmallPower(a) && s % a == 0
    ensures 8 % a == 0
  {
    if a > 8 { Division.DivUnique(s, 0, a, s); }
    PowerDivides(a, 8);
  }

  lemma {:induction false} PowerDivides(a: nat, b: nat)
    requires SmallPower(a) && SmallPower(b) && a <= b
    ensures b % a == 0
    decreases b - a
  {
    if a == b {
      Division.DivUnique(b, 1, a, 0);
    } else {
      PowerDivides(2 * a, b);
      Divides(b, 2 * a, a);
    }
  }

  /** A multiple of a multiple. */
  lemma Divides(n: nat, b: nat, a: nat)
    requires a > 0 && b > 0 && n % b == 0 && (b % a == 0 || b == 2 * a)
    ensures n % a == 0
  {
    if b == 2 * a { Division.DivUnique(b, 2, a, 0); }
    var q := n / b;
    assert n == q * b;
    Multiple(q, b, a);
  }

  lemma CeilAligned(s: nat, a: nat)
    requires SmallPower(a) && s % a == 0
    ensures Ceil16(s) % a == 0 && Ceil64(s) % a == 0 && Ceil256(s) % a == 0
  {
    CeilMultiple(s);
    AlignedBy(s, Ceil16(s), 16, a);
    AlignedBy(s, Ceil64(s), 64, a);
    AlignedBy(s, Ceil256(s), 256, a);
  }

  lemma CeilMultiple(s: nat)
    ensures Ceil16(s) % 16 == 0 && (s % 16 == 0 ==> Ceil16(s) == s)
    ensures Ceil64(s) % 64 == 0 && (s % 64 == 0 ==> Ceil64(s) == s)
    ensures Ceil256(s) % 256 == 0 && (s % 256 == 0 ==> Ceil256(s) == s)
  {
    Ceil16Multiple(s);
    Ceil64Multiple(s);
    Ceil256Multiple(s);
  }

  lemma Ceil16Multiple(s: nat)
    ensures Ceil16(s) % 16 == 0 && (s % 16 == 0 ==> Ceil16(s) == s)
  {
    var u, m := (s + 15) / 16, s / 16;
    Division.DivUnique(u * 16, u, 16, 0);
    if s % 16 == 0 { Division.DivUnique(s + 15, m, 16, 15); }
  }

  lemma Ceil64Multiple(s: nat)
    ensures Ceil64(s) % 64 == 0 && (s % 64 == 0 ==> Ceil64(s) == s)
  {
    var u, m := (s + 63) / 64, s / 64;
    Division.DivUnique(u * 64, u, 64, 0);
    if s % 64 == 0 { Division.DivUnique(s + 63, m, 64, 63); }
  }

  lemma Ceil256Multiple(s: nat)
    ensures Ceil256(s) % 256 == 0 && (s % 256 == 0 ==> Ceil256(s) == s)
  {
    var u, m := (s + 255) / 256, s / 256;
    Division.DivUnique(u * 256, u, 256, 0);
    if s % 256 == 0 { Division.DivUnique(s + 255, m, 256, 255); }
  }

  lemma AlignedBy(s: nat, r: nat, w: nat, a: nat)
    requires SmallPower(a) && SmallPower(w) && s % a == 0 && r % w == 0 && (s % w == 0 ==> r == s)
    ensures r % a == 0
  {
    if a <= w {
      PowerDivides(a, w);
      Divides(r, w, a);
    } else {
      PowerDivides(w, a);
      Divides(s, a, w);
    }
  }

  /** Regions are packed against the end of their run, which is a multiple of
      the page size; so all regions of a class that is a multiple of an alignment
      are aligned. */
  lemma RegionAligned(start: nat, reg0: nat, regSize: nat, nregs: nat, runSize: nat, k: nat, a: nat)
    requires SmallPower(a) && start % 4096 == 0 && runSize % 4096 == 0 && reg0 + nregs * regSize == runSize && k < nregs && regSize % a == 0
    ensures (start + reg0 + k * regSize) % a == 0
  {
    Division.Distributes(nregs, k, regSize);
    assert start + reg0 + k * regSize == start + runSize - (nregs - k) * regSize;
    Multiple(nregs - k, regSize, a);
    PageMultiple(start + runSize, a);
    Difference(start + runSize, (nregs - k) * regSize, a);
  }

  lemma PageMultiple(n: nat, a: nat)
    requires SmallPower(a) && n % 4096 == 0
    ensures n % a == 0
  {
    PowerDivides(a, 4096);
    Divides(n, 4096, a);
  }

  lemma Multiple(x: nat, y: nat, a: nat)
    requires a > 0 && y % a == 0
    ensures (x * y) % a == 0
  {
    var q := y / a;
    assert y == q * a;
    assert x * y == (x * q) * a;
    Division.DivUnique(x * y, x * q, a, 0);
  }

  lemma Difference(x: int, y: int, a: nat)
    requires a > 0 && x % a == 0 && y % a == 0
    ensures (x - y) % a == 0
  {
    var p, q := x / a, y / a;
    assert x == p * a && y == q * a;
    Division.Distributes(p, q, a);
    Division.DivUnique(x - y, p - q, a, 0);
  }
}
