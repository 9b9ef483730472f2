/** Facts about division with variable divisors. */
module Division {

  lemma MulMonotone(x: int, y: int, m: nat)
    requires x <= y
    ensures x * m <= y * m
  {
  }

  lemma Distributes(x: int, y: int, m: int)
    ensures (x - y) * m == x * m - y * m
    ensures (x + y) * m == x * m + y * m
  {
  }

  /** A quotient and remainder determine each other. */
  lemma DivUnique(a: int, q: int, m: nat, r: int)
    requires m > 0 && 0 <= r < m && a == q * m + r
    ensures a / m == q && a % m == r
  {
    var p, s := a / m, a % m;
    assert a == p * m + s;
    Distributes(p, q, m);
    if p > q {
      MulMonotone(1, p - q, m);
    } else if p < q {
      MulMonotone(p - q, -1, m);
    }
  }

  /** The next multiple of `align`. */
  lemma Aligned(p: int, align: nat)
    requires align >= 1
    ensures p % align == 0 || (p + align - p % align) % align == 0
  {
    var q := p / align;
    assert p == q * align + p % align;
    Distributes(q, 1, align);
    DivUnique(p + align - p % align, q + 1, align, 0);
  }

  /** How far the next multiple of `align` is. */
  function Lead(p: int, align: nat): (lead: nat)
    requires align >= 1
    ensures lead < align && (p + lead) % align == 0
  {
    Aligned(p, align);
    if p % align == 0 then 0 else align - p % align
  }
}
