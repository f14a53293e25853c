/** Uniqueness of division with remainder. */
module Division {

  lemma {:induction false} SmallMultiple(p: int, k: int)
    requires -p < k * p < p
    ensures k == 0
  {
  }

  lemma {:induction false} RemainderUnique(p: int, q: int, r: int)
    requires 0 <= r < p
    ensures (q * p + r) % p == r
    ensures (q * p + r) / p == q
  {
    var x := q * p + r;
    assert x == p * (x / p) + x % p;
    assert (q - x / p) * p == x % p - r;
    SmallMultiple(p, q - x / p);
  }

  lemma {:induction false} ProductOrder(d: int, a: int, b: int)
    requires 0 <= d && a <= b
    ensures d * a <= d * b
  {
  }

  lemma {:induction false} QuotientBounds(x: int, d: int)
    requires 0 <= x && 0 < d
    ensures 0 <= x / d <= x
  {
    var q := x / d;
    assert x == d * q + x % d;
    if q <= -1 {
      ProductOrder(d, q, -1);
    }
    if q >= 0 {
      ProductOrder(q, 1, d);
    }
  }
}
