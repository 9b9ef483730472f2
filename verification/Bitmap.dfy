/** Multi-level bitmaps (bitmap.h, bitmap.c), 64 bits to a group: the bits of each level say which
    groups of the level below are nonzero, up to a single root group. */
module Bitmaps {

  /** A word, as the set of the positions of its one bits.  At the bottom level
      a one stands for a logical bit that is not set. */
  type Group = g: set<nat> | forall k :: k in g ==> k < 64

  /** Number of bits, of levels, and where the groups of each level start. */
  datatype Info = Info(nbits: nat, nlevels: nat, offset: seq<nat>)

  function Groups(nbits: nat): nat {
    nbits / 64 + if nbits % 64 != 0 then 1 else 0
  }

  /** The bits of level `i`, which are the groups of the level below. */
  function Bits(nbits: nat, i: nat): nat {
    if i == 0 then nbits else Groups(Bits(nbits, i - 1))
  }

  ghost predicate Laid(info: Info) {
    && info.nbits > 0 && info.nlevels >= 1 && |info.offset| == info.nlevels + 1 && info.offset[0] == 0
    && (forall i :: 1 <= i <= info.nlevels ==> LevelEnds(info.offset, info.nbits, i))
    && Bits(info.nbits, info.nlevels) == 1
    && (forall i :: 1 <= i < info.nlevels ==> Bits(info.nbits, i) > 1)
  }

  ghost predicate LevelEnds(offset: seq<nat>, nbits: nat, i: nat)
    requires 1 <= i < |offset|
  {
    offset[i] == offset[i - 1] + Bits(nbits, i)
  }

  /** bitmap_info_init. */
  method InfoInit(nbits: nat) returns (info: Info)
    requires nbits > 0
    ensures Laid(info) && info.nbits == nbits
    ensures nbits <= 2048 ==> info.nlevels <= 2
  {
    var offset := [0];
    var count := Groups(nbits);
    var i := 1;
    assert Bits(nbits, 1) == Groups(Bits(nbits, 0));
    while count > 1
      invariant i >= 1 && count >= 1 && count == Bits(nbits, i) && |offset| == i && offset[0] == 0
      invariant forall j :: 1 <= j < i ==> LevelEnds(offset, nbits, j)
      invariant forall j :: 1 <= j < i ==> Bits(nbits, j) > 1
      invariant nbits <= 2048 ==> i <= 2 && (i == 1 ==> count <= 32) && (i == 2 ==> count <= 1)
      decreases count
    {
      ghost var before := offset;
      offset := offset + [offset[i - 1] + count];
      assert forall j :: 1 <= j < i ==> LevelEnds(before, nbits, j) ==> LevelEnds(offset, nbits, j);
      count := Groups(count);
      i := i + 1;
    }
    ghost var before := offset;
    offset := offset + [offset[i - 1] + count];
    assert forall j :: 1 <= j < i ==> LevelEnds(before, nbits, j) ==> LevelEnds(offset, nbits, j);
    info := Info(nbits, i, offset);
  }

  // ----- where groups are -----

  lemma BitsPositive(nbits: nat, i: nat)
    requires nbits > 0
    ensures Bits(nbits, i) >= 1
  {
  }

  /** The group that holds bit `b` of level `i`. */
  function At(info: Info, i: nat, g: nat): nat
    requires i < |info.offset|
  {
    info.offset[i] + g
  }

  lemma {:induction false} OffsetsGrow(info: Info, i: nat, j: nat)
    requires Laid(info) && i <= j <= info.nlevels
    ensures info.offset[i] <= info.offset[j]
    decreases j
  {
    if i < j {
      assert LevelEnds(info.offset, info.nbits, j);
      OffsetsGrow(info, i, j - 1);
    }
  }

  lemma InRange(info: Info, i: nat, g: nat)
    requires Laid(info) && i < info.nlevels && g < Bits(info.nbits, i + 1)
    ensures At(info, i, g) < info.offset[i + 1] <= info.offset[info.nlevels]
  {
    assert LevelEnds(info.offset, info.nbits, i + 1);
    OffsetsGrow(info, i + 1, info.nlevels);
  }

  /** Groups of different levels, or different groups of one level, are apart. */
  lemma Distinct(info: Info, i: nat, g: nat, j: nat, h: nat)
    requires Laid(info) && i < info.nlevels && g < Bits(info.nbits, i + 1)
    requires j < info.nlevels && h < Bits(info.nbits, j + 1)
    ensures At(info, i, g) == At(info, j, h) <==> i == j && g == h
  {
    if i < j {
      InRange(info, i, g);
      OffsetsGrow(info, i + 1, j);
    } else if j < i {
      InRange(info, j, h);
      OffsetsGrow(info, j + 1, i);
    }
  }

  lemma GroupOf(info: Info, i: nat, b: nat)
    requires b < Bits(info.nbits, i)
    ensures b / 64 < Bits(info.nbits, i + 1)
  {
  }

  ghost predicate Sized(s: seq<Group>, info: Info) {
    Laid(info) && |s| == info.offset[info.nlevels]
  }

  // ----- what the groups mean -----

  /** Bit `b` of level `i` says whether that group of the level below is nonzero. */
  ghost predicate Summary(s: seq<Group>, info: Info, i: nat, b: nat)
    requires Sized(s, info) && 1 <= i < info.nlevels && b < Bits(info.nbits, i)
  {
    InRange(info, i - 1, b);
    GroupOf(info, i, b);
    InRange(info, i, b / 64);
    b % 64 in s[At(info, i, b / 64)] <==> s[At(info, i - 1, b)] != {}
  }

  /** All summaries are right, but for one. */
  ghost predicate SummedBut(s: seq<Group>, info: Info, i: nat, b: nat)
    requires Sized(s, info)
  {
    forall j, c :: 1 <= j < info.nlevels && 0 <= c < Bits(info.nbits, j) && !(j == i && c == b) ==> Summary(s, info, j, c)
  }

  ghost predicate Summed(s: seq<Group>, info: Info)
    requires Sized(s, info)
  {
    forall j, c :: 1 <= j < info.nlevels && 0 <= c < Bits(info.nbits, j) ==> Summary(s, info, j, c)
  }

  /** The bits past the end of a level are zero. */
  ghost predicate Padded(s: seq<Group>, info: Info)
    requires Sized(s, info)
  {
    forall i, g :: 0 <= i < info.nlevels && 0 <= g < Bits(info.nbits, i + 1) ==> PaddedAt(s, info, i, g)
  }

  ghost predicate PaddedAt(s: seq<Group>, info: Info, i: nat, g: nat)
    requires Sized(s, info) && i < info.nlevels && g < Bits(info.nbits, i + 1)
  {
    InRange(info, i, g);
    forall k :: k in s[At(info, i, g)] ==> 64 * g + k < Bits(info.nbits, i)
  }

  ghost predicate Good(s: seq<Group>, info: Info) {
    Sized(s, info) && Summed(s, info) && Padded(s, info)
  }

  /** Whether logical bit `b` is unset. */
  predicate Unset(s: seq<Group>, b: nat)
    requires b / 64 < |s|
  {
    b % 64 in s[b / 64]
  }

  lemma BottomInRange(info: Info, b: nat)
    requires Laid(info) && b < info.nbits
    ensures b / 64 == At(info, 0, b / 64) < info.offset[info.nlevels]
  {
    GroupOf(info, 0, b);
    InRange(info, 0, b / 64);
  }

  /** The logical content: the bits that are unset. */
  ghost function Free(s: seq<Group>, info: Info): set<nat>
    requires Sized(s, info)
  {
    set b: nat | 0 <= b < info.nbits && (BottomInRange(info, b); Unset(s, b))
  }

  /** Group `g` of level `i` is nonzero. */
  ghost predicate Nonzero(s: seq<Group>, info: Info, i: nat, g: nat)
    requires Sized(s, info) && i < info.nlevels && g < Bits(info.nbits, i + 1)
  {
    InRange(info, i, g);
    s[At(info, i, g)] != {}
  }

  /** Below a zero group everything is set. */
  lemma {:induction false} ZeroBelow(s: seq<Group>, info: Info, i: nat, g: nat, b: nat)
    requires Good(s, info) && i < info.nlevels && g < Bits(info.nbits, i + 1)
    requires b < info.nbits && Covers(i, g, b) && !Nonzero(s, info, i, g)
    ensures b !in Free(s, info)
    decreases i
  {
    if i == 0 {
      BottomInRange(info, b);
    } else {
      var h := Ancestor(b, i);
      AncestorInRange(info, i, b);
      assert Summary(s, info, i, h);
      ZeroBelow(s, info, i - 1, h, b);
    }
  }

  /** The bit of level `i` above which bit `b` lies. */
  function Ancestor(b: nat, i: nat): nat {
    if i == 0 then b else Ancestor(b, i - 1) / 64
  }

  predicate Covers(i: nat, g: nat, b: nat) {
    Ancestor(b, i + 1) == g
  }

  lemma {:induction false} AncestorInRange(info: Info, i: nat, b: nat)
    requires b < info.nbits
    ensures Ancestor(b, i) < Bits(info.nbits, i)
  {
    if i > 0 { AncestorInRange(info, i - 1, b); }
  }

  lemma {:induction false} AncestorsOrdered(b: nat, c: nat, i: nat)
    requires b <= c
    ensures Ancestor(b, i) <= Ancestor(c, i)
  {
    if i > 0 { AncestorsOrdered(b, c, i - 1); }
  }

  /** The bitmap is full iff its root group is zero: one direction. */
  lemma RootZero(s: seq<Group>, info: Info)
    requires Good(s, info) && !Nonzero(s, info, info.nlevels - 1, 0)
    ensures Free(s, info) == {}
  {
    forall b | b in Free(s, info) ensures false {
      AncestorInRange(info, info.nlevels, b);
      ZeroBelow(s, info, info.nlevels - 1, 0, b);
    }
  }

  // ----- flipping bits -----

  /** g ^= 1 << k. */
  function Flip(g: Group, k: nat): Group
    requires k < 64
  {
    if k in g then g - {k} else g + {k}
  }

  ghost function Flipped(s: seq<Group>, info: Info, i: nat, b: nat): (r: seq<Group>)
    requires Sized(s, info) && i < info.nlevels && b < Bits(info.nbits, i)
    ensures Sized(r, info)
  {
    GroupOf(info, i, b);
    InRange(info, i, b / 64);
    s[At(info, i, b / 64) := Flip(s[At(info, i, b / 64)], b % 64)]
  }

  lemma FlippedSummary(s: seq<Group>, info: Info, i: nat, b: nat, j: nat, c: nat)
    requires Sized(s, info) && i < info.nlevels && b < Bits(info.nbits, i) && 1 <= j < info.nlevels && c < Bits(info.nbits, j)
    requires !(j == i + 1 && c == b / 64)
    ensures Summary(Flipped(s, info, i, b), info, j, c) <==> if j == i && c == b then !Summary(s, info, j, c) else Summary(s, info, j, c)
  {
    GroupOf(info, i, b);
    InRange(info, i, b / 64);
    GroupOf(info, j, c);
    InRange(info, j, c / 64);
    InRange(info, j - 1, c);
    Distinct(info, i, b / 64, j, c / 64);
    Distinct(info, i, b / 64, j - 1, c);
  }

  /** The summary of a flipped group is right iff the flip did not change
      whether the group is zero. */
  lemma FlippedAbove(s: seq<Group>, info: Info, i: nat, b: nat)
    requires Sized(s, info) && i + 1 < info.nlevels && b < Bits(info.nbits, i)
    requires b / 64 < Bits(info.nbits, i + 1) && Summary(s, info, i + 1, b / 64)
    ensures Summary(Flipped(s, info, i, b), info, i + 1, b / 64) <==>
            (Nonzero(Flipped(s, info, i, b), info, i, b / 64) <==> Nonzero(s, info, i, b / 64))
  {
    InRange(info, i, b / 64);
    GroupOf(info, i + 1, b / 64);
    InRange(info, i + 1, b / 64 / 64);
    Distinct(info, i, b / 64, i + 1, b / 64 / 64);
  }

  lemma FlippedPadded(s: seq<Group>, info: Info, i: nat, b: nat)
    requires Sized(s, info) && i < info.nlevels && b < Bits(info.nbits, i) && Padded(s, info)
    ensures Padded(Flipped(s, info, i, b), info)
  {
    GroupOf(info, i, b);
    InRange(info, i, b / 64);
    var r := Flipped(s, info, i, b);
    forall j, h | 0 <= j < info.nlevels && 0 <= h < Bits(info.nbits, j + 1) ensures PaddedAt(r, info, j, h) {
      assert PaddedAt(s, info, j, h);
      InRange(info, j, h);
      Distinct(info, i, b / 64, j, h);
    }
  }

  /** Flipping the one wrong summary moves the fault one level up. */
  lemma FlipStep(s: seq<Group>, info: Info, i: nat, b: nat)
    requires Sized(s, info) && i < info.nlevels && b < Bits(info.nbits, i) && b / 64 < Bits(info.nbits, i + 1)
    requires SummedBut(s, info, i, b) && Padded(s, info) && (i >= 1 ==> !Summary(s, info, i, b))
    ensures var r := Flipped(s, info, i, b);
            && SummedBut(r, info, i + 1, b / 64) && Padded(r, info)
            && (i + 1 < info.nlevels ==> (Summary(r, info, i + 1, b / 64) <==>
                                         (Nonzero(r, info, i, b / 64) <==> Nonzero(s, info, i, b / 64))))
  {
    var r := Flipped(s, info, i, b);
    FlippedPadded(s, info, i, b);
    forall j, c | 1 <= j < info.nlevels && 0 <= c < Bits(info.nbits, j) && !(j == i + 1 && c == b / 64) ensures Summary(r, info, j, c) {
      FlippedSummary(s, info, i, b, j, c);
    }
    if i + 1 < info.nlevels {
      FlippedAbove(s, info, i, b);
    }
  }

  /** At the bottom a flip toggles one logical bit; higher up, none. */
  lemma FlippedFree(s: seq<Group>, info: Info, i: nat, b: nat)
    requires Sized(s, info) && i < info.nlevels && b < Bits(info.nbits, i)
    ensures var f := Free(s, info);
            Free(Flipped(s, info, i, b), info) == if i > 0 then f else if b in f then f - {b} else f + {b}
  {
    GroupOf(info, i, b);
    var r := Flipped(s, info, i, b);
    forall c | 0 <= c < info.nbits ensures c in Free(r, info) <==> if i == 0 && c == b then c !in Free(s, info) else c in Free(s, info) {
      BottomInRange(info, c);
      GroupOf(info, 0, c);
      Distinct(info, i, b / 64, 0, c / 64);
    }
  }

  /** Once the remaining summary is right, all are. */
  lemma AllSummed(s: seq<Group>, info: Info, i: nat, b: nat)
    requires Sized(s, info) && SummedBut(s, info, i, b)
    requires 1 <= i < info.nlevels && b < Bits(info.nbits, i) ==> Summary(s, info, i, b)
    ensures Summed(s, info)
  {
  }

  // ----- the initial bitmap -----

  /** The numbers below `n`; for a group, its lowest `n` bits. */
  function Below(n: nat): (g: set<nat>)
    ensures forall k :: k in g <==> 0 <= k < n
  {
    if n == 0 then {} else Below(n - 1) + {n - 1}
  }

  function Ones(): Group {
    Below(64)
  }

  /** g >> n. */
  function Shr(g: Group, n: nat): (r: Group)
    ensures forall k: nat :: k in r <==> k + n in g
  {
    set k | k in Below(64) && k + n in g
  }

  /** Group `g` of level `i`. */
  ghost function Cell(s: seq<Group>, info: Info, i: nat, g: nat): Group
    requires Sized(s, info) && i < info.nlevels && g < Bits(info.nbits, i + 1)
  {
    InRange(info, i, g);
    s[At(info, i, g)]
  }

  /** Group `g` of a level holds ones for exactly the `n` bits of the level. */
  ghost predicate Starts(grp: Group, g: nat, n: nat) {
    forall k: nat :: k in grp <==> k < 64 && 64 * g + k < n
  }

  ghost predicate StartAt(s: seq<Group>, info: Info, i: nat, g: nat)
    requires Sized(s, info) && i < info.nlevels && g < Bits(info.nbits, i + 1)
  {
    Starts(Cell(s, info, i, g), g, Bits(info.nbits, i))
  }

  lemma StartGood(s: seq<Group>, info: Info)
    requires Sized(s, info)
    requires LevelsStarted(s, info, info.nlevels)
    ensures Good(s, info) && Free(s, info) == Below(info.nbits)
  {
    forall i, g | 0 <= i < info.nlevels && 0 <= g < Bits(info.nbits, i + 1) ensures PaddedAt(s, info, i, g) {
      assert StartAt(s, info, i, g);
    }
    forall i, b | 1 <= i < info.nlevels && 0 <= b < Bits(info.nbits, i) ensures Summary(s, info, i, b) {
      GroupOf(info, i, b);
      assert StartAt(s, info, i, b / 64) && StartAt(s, info, i - 1, b);
      InRange(info, i - 1, b);
      assert 0 in s[At(info, i - 1, b)];
    }
    forall b: nat | b < info.nbits ensures b in Free(s, info) {
      GroupOf(info, 0, b);
      BottomInRange(info, b);
      assert StartAt(s, info, 0, b / 64);
    }
  }

  /** The shift of the last group of a level drops the bits past its end. */
  lemma ShiftedStarts(n: nat, g: nat, extra: nat)
    requires n > 0 && g < Groups(n) && extra == (64 - n % 64) % 64
    ensures Starts(if g == Groups(n) - 1 && extra != 0 then Shr(Ones(), extra) else Ones(), g, n)
  {
    assert n == 64 * (Groups(n) - 1) + (64 - extra);
  }

  /** Another group keeps its place when one is written. */
  lemma CellElsewhere(s: seq<Group>, info: Info, i: nat, g: nat, grp: Group, j: nat, h: nat)
    requires Sized(s, info) && i < info.nlevels && g < Bits(info.nbits, i + 1) && j < info.nlevels && h < Bits(info.nbits, j + 1)
    requires At(info, i, g) < |s|
    ensures Cell(s[At(info, i, g) := grp], info, j, h) == if i == j && g == h then grp else Cell(s, info, j, h)
  {
    InRange(info, j, h);
    Distinct(info, i, g, j, h);
  }

  ghost predicate LevelsStarted(s: seq<Group>, info: Info, i: nat)
    requires Sized(s, info) && i <= info.nlevels
  {
    forall j, g :: 0 <= j < i && 0 <= g < Bits(info.nbits, j + 1) ==> StartAt(s, info, j, g)
  }

  ghost predicate OnesFrom(s: seq<Group>, info: Info, i: nat)
    requires Sized(s, info) && i <= info.nlevels
  {
    forall j, g :: i <= j < info.nlevels && 0 <= g < Bits(info.nbits, j + 1) ==> Cell(s, info, j, g) == Ones()
  }

  /** The last group of a level is the one before the next level. */
  lemma LastPlace(s: seq<Group>, info: Info, i: nat)
    requires Sized(s, info) && i < info.nlevels
    ensures Bits(info.nbits, i + 1) >= 1 && 1 <= info.offset[i + 1] <= |s|
    ensures At(info, i, Bits(info.nbits, i + 1) - 1) == info.offset[i + 1] - 1
  {
    BitsPositive(info.nbits, i + 1);
    InRange(info, i, Bits(info.nbits, i + 1) - 1);
    assert LevelEnds(info.offset, info.nbits, i + 1);
  }

  lemma LastWritten(s: seq<Group>, info: Info, i: nat, last: nat, extra: nat)
    requires Sized(s, info) && i < info.nlevels && LevelsStarted(s, info, i) && OnesFrom(s, info, i)
    requires extra == (64 - Bits(info.nbits, i) % 64) % 64
    requires last == Bits(info.nbits, i + 1) - 1 && At(info, i, last) < |s|
    ensures s[At(info, i, last)] == Ones()
    ensures var r := if extra == 0 then s else s[At(info, i, last) := Shr(Ones(), extra)];
            LevelsStarted(r, info, i + 1) && OnesFrom(r, info, i + 1)
  {
    assert Cell(s, info, i, last) == Ones();
    var r := if extra == 0 then s else s[At(info, i, last) := Shr(Ones(), extra)];
    forall j, g | 0 <= j < info.nlevels && 0 <= g < Bits(info.nbits, j + 1)
      ensures Cell(r, info, j, g) == if j == i && g == last && extra != 0 then Shr(Ones(), extra) else Cell(s, info, j, g)
    {
      CellElsewhere(s, info, i, last, Shr(Ones(), extra), j, g);
    }
    BitsPositive(info.nbits, i);
    forall j, g | 0 <= j < i + 1 && 0 <= g < Bits(info.nbits, j + 1) ensures StartAt(r, info, j, g) {
      if j == i {
        ShiftedStarts(Bits(info.nbits, i), g, extra);
      } else {
        assert StartAt(s, info, j, g);
      }
    }
  }

  /** ffsl(g) - 1. */
  function Lowest(g: Group): (k: nat)
    requires g != {}
    ensures k in g && forall j :: j in g ==> k <= j
  {
    LowestFrom(g, 0)
  }

  function LowestFrom(g: Group, from: nat): (k: nat)
    requires g != {} && forall j :: j in g ==> from <= j
    ensures k in g && forall j :: j in g ==> k <= j
    decreases 64 - from
  {
    if from in g then from
    else
      (var j :| j in g; assert from < j < 64; LowestFrom(g, from + 1))
  }

  lemma AllOnes(s: seq<Group>, info: Info)
    requires Sized(s, info) && forall k :: 0 <= k < |s| ==> s[k] == Ones()
    ensures LevelsStarted(s, info, 0) && OnesFrom(s, info, 0)
  {
    forall j, g | 0 <= j < info.nlevels && 0 <= g < Bits(info.nbits, j + 1) ensures Cell(s, info, j, g) == Ones() {
      InRange(info, j, g);
    }
  }

  // ----- the lowest unset bit -----

  /** Bit `b` of level `i` is one. */
  ghost predicate One(s: seq<Group>, info: Info, i: nat, b: nat)
    requires Sized(s, info) && i < info.nlevels && b < Bits(info.nbits, i)
  {
    GroupOf(info, i, b);
    InRange(info, i, b / 64);
    b % 64 in s[At(info, i, b / 64)]
  }

  /** The lowest one of level `i`. */
  ghost predicate FirstOne(s: seq<Group>, info: Info, i: nat, b: nat)
    requires Sized(s, info) && i < info.nlevels && b < Bits(info.nbits, i)
  {
    One(s, info, i, b) && forall c :: 0 <= c < b ==> !One(s, info, i, c)
  }

  lemma Position(b: nat, k: nat)
    requires k < 64
    ensures (64 * b + k) / 64 == b && (64 * b + k) % 64 == k
  {
  }

  /** Following the lowest ones downwards ends at an unset bit. */
  lemma {:induction false} SomeFree(s: seq<Group>, info: Info, i: nat, b: nat)
    requires Good(s, info) && i < info.nlevels && b < Bits(info.nbits, i) && FirstOne(s, info, i, b)
    ensures Free(s, info) != {}
    decreases i
  {
    if i == 0 {
      FirstFree(s, info, b);
    } else {
      Descend(s, info, i, b);
      SomeFree(s, info, i - 1, 64 * b + Lowest(Cell(s, info, i - 1, b)));
    }
  }

  /** One level down from the lowest one: the lowest one of its group. */
  lemma Descend(s: seq<Group>, info: Info, i: nat, b: nat)
    requires Good(s, info) && 1 <= i < info.nlevels && b < Bits(info.nbits, i) && FirstOne(s, info, i, b)
    ensures Nonzero(s, info, i - 1, b)
    ensures var c := 64 * b + Lowest(Cell(s, info, i - 1, b));
            c < Bits(info.nbits, i - 1) && FirstOne(s, info, i - 1, c)
  {
    assert Summary(s, info, i, b);
    InRange(info, i - 1, b);
    var k := Lowest(s[At(info, i - 1, b)]);
    var c := 64 * b + k;
    assert PaddedAt(s, info, i - 1, b);
    Position(b, k);
    var j := i - 1;
    forall d | 0 <= d < c ensures !One(s, info, j, d) {
      var a := d / 64;
      if a < b {
        assert Summary(s, info, i, a) && !One(s, info, i, a);
      }
    }
  }

  lemma Root(s: seq<Group>, info: Info)
    requires Good(s, info) && Nonzero(s, info, info.nlevels - 1, 0)
    ensures At(info, info.nlevels - 1, 0) < |s|
    ensures var b := Lowest(s[At(info, info.nlevels - 1, 0)]);
            b < Bits(info.nbits, info.nlevels - 1) && FirstOne(s, info, info.nlevels - 1, b)
  {
    InRange(info, info.nlevels - 1, 0);
    var b := Lowest(s[At(info, info.nlevels - 1, 0)]);
    assert PaddedAt(s, info, info.nlevels - 1, 0);
    Position(0, b);
    var i := info.nlevels - 1;
    forall c | 0 <= c < b ensures !One(s, info, i, c) {
      Position(0, c);
    }
  }

  lemma FirstFree(s: seq<Group>, info: Info, b: nat)
    requires Good(s, info) && b < info.nbits && FirstOne(s, info, 0, b)
    ensures b in Free(s, info) && forall c :: c in Free(s, info) ==> b <= c
  {
    BottomInRange(info, b);
    forall c | c in Free(s, info) ensures b <= c {
      BottomInRange(info, c);
      assert One(s, info, 0, c);
    }
  }

  class Bitmap {
    const info: Info
    const groups: array<Group>

    ghost predicate Valid()
      reads this, groups
    {
      Good(groups[..], info)
    }

    /** The logical bits that are not set. */
    ghost function Unused(): set<nat>
      requires Valid()
      reads this, groups
    {
      Free(groups[..], info)
    }

    /** bitmap_init. */
    constructor (info: Info)
      requires Laid(info)
      ensures Valid() && fresh(groups) && this.info == info
      ensures Unused() == Below(info.nbits)
    {
      this.info := info;
      groups := new Group[info.offset[info.nlevels]](_ => Ones());
      new;
      AllOnes(groups[..], info);
      ShiftLast(0, info.nbits);
      var i := 1;
      while i < info.nlevels
        invariant 1 <= i <= info.nlevels && Sized(groups[..], info) && LevelsStarted(groups[..], info, i) && OnesFrom(groups[..], info, i)
      {
        assert LevelEnds(info.offset, info.nbits, i);
        ShiftLast(i, info.offset[i] - info.offset[i - 1]);
        i := i + 1;
      }
      StartGood(groups[..], info);
    }

    /** The last group of a level loses the bits past the end of the level. */
    method ShiftLast(i: nat, count: nat)
      requires Sized(groups[..], info) && i < info.nlevels && count == Bits(info.nbits, i)
      requires LevelsStarted(groups[..], info, i) && OnesFrom(groups[..], info, i)
      modifies groups
      ensures Sized(groups[..], info) && LevelsStarted(groups[..], info, i + 1) && OnesFrom(groups[..], info, i + 1)
    {
      var extra := (64 - count % 64) % 64;
      LastPlace(groups[..], info, i);
      LastWritten(groups[..], info, i, info.offset[i + 1] - info.offset[i] - 1, extra);
      if extra != 0 {
        groups[info.offset[i + 1] - 1] := Shr(groups[info.offset[i + 1] - 1], extra);
      }
    }

    /** bitmap_full. */
    method Full() returns (full: bool)
      requires Valid()
      ensures full <==> Unused() == {}
    {
      BitsPositive(info.nbits, info.nlevels);
      InRange(info, info.nlevels - 1, 0);
      assert LevelEnds(info.offset, info.nbits, info.nlevels);
      full := groups[info.offset[info.nlevels] - 1] == {};
      if full {
        RootZero(groups[..], info);
      } else {
        Root(groups[..], info);
        SomeFree(groups[..], info, info.nlevels - 1, Lowest(Cell(groups[..], info, info.nlevels - 1, 0)));
      }
    }

    /** bitmap_get. */
    method Get(bit: nat) returns (set_: bool)
      requires Valid() && bit < info.nbits
      ensures set_ <==> bit !in Unused()
    {
      BottomInRange(info, bit);
      set_ := bit % 64 !in groups[bit / 64];
    }

    /** g ^= 1LU << bit on one group; the fault, if any, moves one level up. */
    method FlipAt(i: nat, bit: nat) returns (goff: nat, was: Group, g: Group)
      requires Sized(groups[..], info) && Padded(groups[..], info) && i < info.nlevels && bit < Bits(info.nbits, i)
      requires SummedBut(groups[..], info, i, bit) && (i >= 1 ==> !Summary(groups[..], info, i, bit))
      modifies groups
      ensures Sized(groups[..], info) && Padded(groups[..], info) && goff == bit / 64 < Bits(info.nbits, i + 1)
      ensures SummedBut(groups[..], info, i + 1, goff)
      ensures i + 1 < info.nlevels ==> (Summary(groups[..], info, i + 1, goff) <==> (was != {} <==> g != {}))
      ensures var f := old(Free(groups[..], info));
              Free(groups[..], info) == if i > 0 then f else if bit in f then f - {bit} else f + {bit}
      ensures g == Flip(was, bit % 64) && old(GroupOf(info, i, bit); was == Cell(groups[..], info, i, bit / 64))
      ensures g == Cell(groups[..], info, i, goff)
    {
      ghost var s := groups[..];
      GroupOf(info, i, bit);
      InRange(info, i, bit / 64);
      FlipStep(s, info, i, bit);
      FlippedFree(s, info, i, bit);
      goff := bit / 64;
      was := groups[info.offset[i] + goff];
      g := Flip(was, bit % 64);
      groups[info.offset[i] + goff] := g;
      assert groups[..] == Flipped(s, info, i, bit);
    }

    /** bitmap_set. */
    method Set(bit: nat)
      requires Valid() && bit < info.nbits && bit in Unused()
      modifies groups
      ensures Valid() && Unused() == old(Unused()) - {bit}
    {
      ghost var s := groups[..];
      BottomInRange(info, bit);
      var goff: nat, was, g := FlipAt(0, bit);
      if g == {} {
        var i := 1;
        while i < info.nlevels
          invariant 1 <= i <= info.nlevels && Sized(groups[..], info) && Padded(groups[..], info) && goff < Bits(info.nbits, i)
          invariant SummedBut(groups[..], info, i, goff) && (i < info.nlevels ==> !Summary(groups[..], info, i, goff))
          invariant Free(groups[..], info) == Free(s, info) - {bit}
          invariant !Nonzero(groups[..], info, i - 1, goff)
        {
          goff, was, g := FlipAt(i, goff);
          i := i + 1;
          if g != {} {
            break;
          }
        }
        AllSummed(groups[..], info, i, goff);
      } else {
        AllSummed(groups[..], info, 1, goff);
      }
    }

    /** bitmap_unset. */
    method Unset(bit: nat)
      requires Valid() && bit < info.nbits && bit !in Unused()
      modifies groups
      ensures Valid() && Unused() == old(Unused()) + {bit}
    {
      ghost var s := groups[..];
      BottomInRange(info, bit);
      var goff: nat, was, g := FlipAt(0, bit);
      if was == {} {
        var i := 1;
        while i < info.nlevels
          invariant 1 <= i <= info.nlevels && Sized(groups[..], info) && Padded(groups[..], info) && goff < Bits(info.nbits, i)
          invariant SummedBut(groups[..], info, i, goff) && (i < info.nlevels ==> !Summary(groups[..], info, i, goff))
          invariant Free(groups[..], info) == Free(s, info) + {bit}
          invariant Nonzero(groups[..], info, i - 1, goff)
        {
          goff, was, g := FlipAt(i, goff);
          i := i + 1;
          if was != {} {
            break;
          }
        }
        AllSummed(groups[..], info, i, goff);
      } else {
        AllSummed(groups[..], info, 1, goff);
      }
    }

    /** bitmap_sfu: sets the first unset bit, and returns it. */
    method Sfu() returns (bit: nat)
      requires Valid() && Unused() != {}
      modifies groups
      ensures Valid() && bit in old(Unused()) && Unused() == old(Unused()) - {bit}
      ensures forall b :: b in old(Unused()) ==> bit <= b
    {
      ghost var s := groups[..];
      var i := info.nlevels - 1;
      if !Nonzero(s, info, i, 0) { RootZero(s, info); }
      Root(s, info);
      bit := Lowest(groups[info.offset[i]]);
      while i > 0
        invariant 0 <= i < info.nlevels && groups[..] == s && bit < Bits(info.nbits, i) && FirstOne(s, info, i, bit)
      {
        Descend(s, info, i, bit);
        InRange(info, i - 1, bit);
        i := i - 1;
        bit := 64 * bit + Lowest(groups[info.offset[i] + bit]);
      }
      FirstFree(s, info, bit);
      Set(bit);
    }
  }
}
