/** Powers of two and right shifts. */
module PowersOfTwo {

  function Pow2(k: nat): (p: nat)
    ensures p > 0
  {
    if k == 0 then 1 else 2 * Pow2(k - 1)
  }

  /** n >> k. */
  function Shr(n: nat, k: nat): nat {
    if k == 0 then n else Shr(n / 2, k - 1)
  }

  /** It is the quotient by the power of two, rounded down. */
  lemma {:induction false} ShrIs(n: nat, k: nat)
    ensures Shr(n, k) * Pow2(k) <= n < (Shr(n, k) + 1) * Pow2(k)
    ensures Shr(n, k) >= 1 <==> Pow2(k) <= n
  {
    if k > 0 {
      ShrIs(n / 2, k - 1);
      Halved(Shr(n, k), Pow2(k - 1), n);
    }
    AtLeastOne(Shr(n, k), Pow2(k), n);
  }

  lemma Halved(r: nat, p: nat, n: nat)
    requires r * p <= n / 2 < (r + 1) * p
    ensures r * (2 * p) <= n < (r + 1) * (2 * p)
  {
    var x, y := r * p, (r + 1) * p;
    assert r * (2 * p) == 2 * x && (r + 1) * (2 * p) == 2 * y;
  }

  lemma AtLeastOne(r: nat, p: nat, n: nat)
    requires p > 0 && r * p <= n < (r + 1) * p
    ensures r >= 1 <==> p <= n
  {
    if r >= 1 { assert (r - 1) * p >= 0; }
  }
}
