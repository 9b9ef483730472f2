/** From a pointer to the index of its region (arena.h, arena_run_regind):
    division by multiplication with a reciprocal. */
module Regind {
  import opened PowersOfTwo
  import Division

  /** ffs(n) - 1: how often `n` can be halved. */
  function Twos(n: nat): nat
    requires n > 0
  {
    if n % 2 == 1 then 0 else 1 + Twos(n / 2)
  }

  /** SIZE_INV. */
  function SizeInv(s: nat): nat
    requires s > 0
  {
    0x20_0000 / s + 1
  }

  /** The computation, in 32-bit arithmetic. */
  function Index(diff: nat, regSize: nat): nat
    requires regSize > 0
  {
    var shift := Twos(regSize);
    var d, size := Shr(diff, shift), Shr(regSize, shift);
    if size == 1 then d
    else if 3 <= size <= 31 then (d * SizeInv(size)) % 0x1_0000_0000 / 0x20_0000
    else if size > 31 then d / size
    else 0
  }

  lemma {:induction false} OddPart(n: nat)
    requires n > 0
    ensures Shr(n, Twos(n)) % 2 == 1
  {
    if n % 2 == 0 { OddPart(n / 2); }
  }

  /** Shifting out the factors of two of the divisor keeps the quotient. */
  lemma {:induction false} ShiftBoth(k: nat, n: nat)
    requires n > 0
    ensures Shr(k * n, Twos(n)) == k * Shr(n, Twos(n))
  {
    if n % 2 == 0 {
      var h := n / 2;
      assert k * n == (k * h) * 2;
      assert k * n / 2 == k * h;
      ShiftBoth(k, h);
    }
  }

  /** The product neither overflows nor misses the quotient. */
  lemma Reciprocal(k: nat, s: nat)
    requires k < 0x800 && 3 <= s <= 31
    ensures (k * s) * SizeInv(s) < 0x1_0000_0000
    ensures (k * s) * SizeInv(s) / 0x20_0000 == k
  {
    var q, t := 0x20_0000 / s, 0x20_0000 % s;
    assert q * s + t == 0x20_0000;
    calc {
      (k * s) * (q + 1);
      k * (s * (q + 1));
      { Division.Distributes(q, 1, s); }
      k * (q * s + s);
      k * (0x20_0000 + (s - t));
      k * 0x20_0000 + k * (s - t);
    }
    Division.MulMonotone(0, k, s - t);
    Division.MulMonotone(s - t, 31, k);
    assert k * (s - t) <= 31 * 0x7ff;
  }

  /** Freeing the pointer to region `k` finds index `k` again, for every region
      size and every index below the limit on regions per run. */
  lemma IndexExact(k: nat, regSize: nat)
    requires k < 0x800 && regSize > 0
    ensures Index(k * regSize, regSize) == k
  {
    var shift := Twos(regSize);
    var s := Shr(regSize, shift);
    OddPart(regSize);
    ShiftBoth(k, regSize);
    if 3 <= s <= 31 {
      Reciprocal(k, s);
    } else if s > 31 {
      Division.DivUnique(k * s, k, s, 0);
    }
  }
}
