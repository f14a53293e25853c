/** Arithmetic modulo a prime. */
module PrimeField {
  import opened Division

  predicate Divides(m: int, n: int)
    requires m > 0
  {
    n % m == 0
  }

  ghost predicate IsPrime(p: int) {
    2 <= p && forall m :: 2 <= m < p ==> !Divides(m, p)
  }

  /** x is the zero element of the field of p elements. */
  predicate Zero(p: int, x: int)
    requires p > 0
  {
    x % p == 0
  }

  lemma {:induction false} MultipleIsZero(p: int, k: int)
    requires p > 0
    ensures Zero(p, k * p)
  {
    RemainderUnique(p, k, 0);
  }

  lemma {:induction false} Quotient(p: int, x: int) returns (k: int)
    requires p > 0 && Zero(p, x)
    ensures x == k * p
  {
    k := x / p;
  }

  lemma {:induction false} ZeroAdd(p: int, x: int, y: int)
    requires p > 0 && Zero(p, x) && Zero(p, y)
    ensures Zero(p, x + y)
    ensures Zero(p, x - y)
  {
    var a := Quotient(p, x);
    var b := Quotient(p, y);
    MultipleIsZero(p, a + b);
    MultipleIsZero(p, a - b);
    assert x + y == (a + b) * p;
    assert x - y == (a - b) * p;
  }

  lemma {:induction false} ZeroScale(p: int, k: int, x: int)
    requires p > 0 && Zero(p, x)
    ensures Zero(p, k * x)
  {
    var a := Quotient(p, x);
    MultipleIsZero(p, k * a);
    assert k * x == (k * a) * p;
  }

  /** No wrap-around: a field equation between integers closer than p is an integer equation. */
  lemma {:induction false} Lift(p: int, x: int)
    requires p > 0 && Zero(p, x) && -p < x < p
    ensures x == 0
  {
    var k := Quotient(p, x);
    SmallMultiple(p, k);
  }

  lemma {:induction false} EuclidBelow(p: int, a: int, b: int)
    requires IsPrime(p) && 0 < a < p && Zero(p, a * b)
    ensures Zero(p, b)
    decreases a
  {
    if a > 1 {
      assert !Divides(a, p);
      var q, r := p / a, p % a;
      assert p == q * a + r;
      MultipleIsZero(p, b);
      ZeroScale(p, q, a * b);
      ZeroAdd(p, b * p, q * (a * b));
      assert r * b == b * p - q * (a * b);
      EuclidBelow(p, r, b);
    }
  }

  /** Euclid's lemma: the field has no zero divisors. */
  lemma {:induction false} Euclid(p: int, a: int, b: int)
    requires IsPrime(p) && Zero(p, a * b)
    ensures Zero(p, a) || Zero(p, b)
  {
    var q, r := a / p, a % p;
    if r != 0 {
      MultipleIsZero(p, q * b);
      ZeroAdd(p, a * b, (q * b) * p);
      assert r * b == a * b - (q * b) * p;
      EuclidBelow(p, r, b);
    }
  }

  lemma {:induction false} BoolResidue(p: int, x: int)
    requires IsPrime(p) && 0 <= x < p && Zero(p, x * (x - 1))
    ensures x == 0 || x == 1
  {
    Euclid(p, x, x - 1);
    if Zero(p, x) { Lift(p, x); } else { Lift(p, x - 1); }
  }

  /** `assert_eq(a, b)` of a constraint builder. */
  predicate Eq(p: int, a: int, b: int)
    requires p > 0
  {
    Zero(p, a - b)
  }

  /** `assert_bool(x)` of a constraint builder. */
  predicate Bool(p: int, x: int)
    requires p > 0
  {
    Zero(p, x * (x - 1))
  }

  predicate Residue(p: int, x: int) {
    0 <= x < p
  }

  predicate IsBit(b: int) {
    b == 0 || b == 1
  }

  lemma {:induction false} EqualsEq(p: int, a: int, b: int)
    requires p > 0 && a == b
    ensures Eq(p, a, b)
  {
    MultipleIsZero(p, 0);
  }

  lemma {:induction false} BitIsBool(p: int, x: int)
    requires p > 0 && (x == 0 || x == 1)
    ensures Bool(p, x)
  {
    MultipleIsZero(p, 0);
  }

  /** The residue that stands for an integer. */
  function Reduce(p: int, x: int): (r: int)
    requires p > 0
    ensures Residue(p, r)
  {
    x % p
  }

  lemma {:induction false} ReduceEq(p: int, x: int)
    requires p > 0
    ensures Eq(p, x, Reduce(p, x))
  {
    MultipleIsZero(p, x / p);
    assert x - x % p == (x / p) * p;
  }

  lemma {:induction false} RemainderOfPrime(p: int, a: int)
    requires IsPrime(p) && 1 < a < p
    ensures 0 < p % a < a && p == (p / a) * a + p % a
  {
    assert !Divides(a, p);
  }

  /** `try_inverse` of a non-zero element, by division of p. */
  function Inverse(p: int, a: int): (inv: int)
    requires IsPrime(p) && 0 < a < p
    ensures Residue(p, inv)
    decreases a
  {
    if a == 1 then 1
    else
      RemainderOfPrime(p, a);
      Reduce(p, -(p / a) * Inverse(p, p % a))
  }

  lemma {:induction false} InverseStep(p: int, a: int, q: int, r: int, inner: int)
    requires p > 0 && p == q * a + r && Zero(p, r * inner - 1)
    ensures Zero(p, a * (-q * inner) - 1)
  {
    MultipleIsZero(p, inner);
    ZeroAdd(p, r * inner - 1, inner * p);
    calc {
      (r * inner - 1) - inner * p;
      (r * inner - 1) - inner * (q * a + r);
      -(inner * (q * a)) - 1;
      a * (-q * inner) - 1;
    }
  }

  lemma {:induction false} ProductReduced(p: int, a: int, x: int, c: int)
    requires p > 0 && Zero(p, a * x - c)
    ensures Zero(p, a * Reduce(p, x) - c)
  {
    var r := Reduce(p, x);
    ReduceEq(p, x);
    ZeroScale(p, a, x - r);
    ZeroAdd(p, a * x - c, a * (x - r));
    assert a * r - c == (a * x - c) - a * (x - r);
  }

  lemma {:induction false} InverseHolds(p: int, a: int)
    requires IsPrime(p) && 0 < a < p
    ensures Zero(p, a * Inverse(p, a) - 1)
    decreases a
  {
    if a == 1 {
      MultipleIsZero(p, 0);
    } else {
      RemainderOfPrime(p, a);
      var q, r := p / a, p % a;
      InverseHolds(p, r);
      InverseStep(p, a, q, r, Inverse(p, r));
      ProductReduced(p, a, -q * Inverse(p, r), 1);
    }
  }

  /** The element inv with inv * d + 1 = 0, or 0 when d is 0: the witness of the is-zero gadget. */
  function NegatedInverse(p: int, d: int): (inv: int)
    requires IsPrime(p) && -p < d < p
    ensures Residue(p, inv)
  {
    if d == 0 then 0
    else if d < 0 then Inverse(p, -d)
    else Reduce(p, -Inverse(p, d))
  }

  lemma {:induction false} NegatedProduct(p: int, i: int, d: int)
    requires p > 0 && Zero(p, -d * i - 1)
    ensures Zero(p, i * d + 1)
  {
    ZeroScale(p, -1, -d * i - 1);
    assert i * d + 1 == -1 * (-d * i - 1);
  }

  lemma {:induction false} NegatedInverseHolds(p: int, d: int)
    requires IsPrime(p) && -p < d < p && d != 0
    ensures Zero(p, NegatedInverse(p, d) * d + 1)
  {
    if d < 0 {
      InverseHolds(p, -d);
      hide Inverse, IsPrime;
      NegatedProduct(p, Inverse(p, -d), d);
    } else {
      var i := Inverse(p, d);
      InverseHolds(p, d);
      hide Inverse, IsPrime;
      assert -d * -i == d * i;
      NegatedProduct(p, -i, d);
      assert d * -i - -1 == -i * d + 1;
      ProductReduced(p, d, -i, -1);
    }
  }

  /** The is-zero gadget: a flag tied to d by inv * d + 1 = flag and d * flag = 0 says whether d is 0. */
  lemma {:induction false} IsZeroGadget(p: int, d: int, inv: int, flag: int)
    requires IsPrime(p) && -p < d < p && Residue(p, flag)
    requires Eq(p, inv * d + 1, flag) && Zero(p, d * flag)
    ensures flag == if d == 0 then 1 else 0
  {
    if d == 0 {
      assert inv * d + 1 - flag == 1 - flag;
      Lift(p, 1 - flag);
    } else {
      Euclid(p, d, flag);
      if Zero(p, d) {
        Lift(p, d);
      }
      Lift(p, flag);
    }
  }

  /** The witness the trace builders choose satisfies the is-zero gadget. */
  lemma {:induction false} IsZeroWitness(p: int, d: int, flag: int)
    requires IsPrime(p) && -p < d < p && flag == if d == 0 then 1 else 0
    ensures Eq(p, NegatedInverse(p, d) * d + 1, flag) && Zero(p, d * flag)
  {
    MultipleIsZero(p, 0);
    if d != 0 {
      NegatedInverseHolds(p, d);
    }
  }
}
