/** Limb-wise addition and subtraction constraints against their meaning on 32-bit words. */
module U32Ops {
  import opened Words
  import opened Bits
  import opened PrimeField

  /** The smallest field the limb constraints are sound in; Mersenne31 is larger. */
  const MIN_FIELD := 0x400_0000

  ghost predicate LargePrime(p: int) {
    IsPrime(p) && p > MIN_FIELD
  }

  type Carries3 = s: seq<int> | |s| == 3 witness [0, 0, 0]

  ghost predicate BoolColumns(p: int, x: seq<int>)
    requires p > 0
  {
    forall i :: 0 <= i < |x| ==> Residue(p, x[i]) && Bool(p, x[i])
  }

  lemma {:induction false} BoolsForced(p: int, x: seq<int>)
    requires IsPrime(p) && BoolColumns(p, x)
    ensures AreBits(x)
  {
    forall i | 0 <= i < |x|
      ensures x[i] == 0 || x[i] == 1
    {
      BoolResidue(p, x[i]);
    }
  }

  lemma {:induction false} BoolsAccepted(p: int, x: seq<int>)
    requires p > 1 && AreBits(x)
    ensures BoolColumns(p, x)
  {
    forall i | 0 <= i < |x|
      ensures Residue(p, x[i]) && Bool(p, x[i])
    {
      MultipleIsZero(p, 0);
    }
  }

  function CarryIn(first: int, carries: seq<int>, i: nat): int
    requires i <= |carries|
  {
    if i == 0 then first else carries[i - 1]
  }

  function CarryOut(carries: seq<int>, i: nat): int {
    if i < |carries| then carries[i] else 0
  }

  /** Limb i of `u32_add`, `u32_inc` (y = 0, first = 1) and `u32_plus_four` (y = 0, first = 4). */
  ghost predicate AddLimb(p: int, x: Limbs, y: Limbs, sum: Limbs, first: int, carries: seq<int>, i: nat)
    requires p > 0 && i < 4 && |carries| >= 3
  {
    Eq(p, sum[i] + CarryOut(carries, i) * 256, x[i] + y[i] + CarryIn(first, carries, i))
  }

  const ZERO_LIMBS: Limbs := [0, 0, 0, 0]

  ghost predicate U32Add(p: int, x: Limbs, y: Limbs, sum: Limbs, carries: Limbs)
    requires p > 0
  {
    BoolColumns(p, carries) && forall i :: 0 <= i < 4 ==> AddLimb(p, x, y, sum, 0, carries, i)
  }

  ghost predicate U32Inc(p: int, x: Limbs, y: Limbs, carries: Limbs)
    requires p > 0
  {
    BoolColumns(p, carries) && forall i :: 0 <= i < 4 ==> AddLimb(p, x, ZERO_LIMBS, y, 1, carries, i)
  }

  ghost predicate U32PlusFour(p: int, x: Limbs, y: Limbs, carries: Carries3)
    requires p > 0
  {
    BoolColumns(p, carries) && forall i :: 0 <= i < 4 ==> AddLimb(p, x, ZERO_LIMBS, y, 4, carries, i)
  }

  ghost predicate U32Sub(p: int, x: Limbs, y: Limbs, diff: Limbs, borrows: Limbs)
    requires p > 0
  {
    BoolColumns(p, borrows)
    && forall i :: 0 <= i < 4 ==> Eq(p, x[i] + borrows[i] * 256, y[i] + CarryIn(0, borrows, i) + diff[i])
  }

  /** An accepted addition limb over bytes is an integer equation. */
  lemma {:induction false} AddLimbExact(p: int, x: Limbs, y: Limbs, sum: Limbs, first: int, carries: seq<int>, i: nat)
    requires p > MIN_FIELD && i < 4 && |carries| >= 3 && AreBits(carries) && 0 <= first <= 4
    requires AreBytes(x) && AreBytes(y) && AreBytes(sum) && AddLimb(p, x, y, sum, first, carries, i)
    ensures sum[i] + CarryOut(carries, i) * 256 == x[i] + y[i] + CarryIn(first, carries, i)
  {
    Lift(p, sum[i] + CarryOut(carries, i) * 256 - (x[i] + y[i] + CarryIn(first, carries, i)));
  }

  lemma {:induction false} AddTelescopes(x: Limbs, y: Limbs, sum: Limbs, first: int, carries: seq<int>)
    requires |carries| >= 3
    requires forall i :: 0 <= i < 4 ==> sum[i] + CarryOut(carries, i) * 256 == x[i] + y[i] + CarryIn(first, carries, i)
    ensures Value(sum) + TWO32 * CarryOut(carries, 3) == Value(x) + Value(y) + first
  {
  }

  lemma {:induction false} AddExact(p: int, x: Limbs, y: Limbs, sum: Limbs, first: int, carries: seq<int>)
    requires p > MIN_FIELD && |carries| >= 3 && AreBits(carries) && 0 <= first <= 4
    requires AreBytes(x) && AreBytes(y) && AreBytes(sum)
    requires forall i :: 0 <= i < 4 ==> AddLimb(p, x, y, sum, first, carries, i)
    ensures Value(sum) + TWO32 * CarryOut(carries, 3) == Value(x) + Value(y) + first
  {
    forall i | 0 <= i < 4
      ensures sum[i] + CarryOut(carries, i) * 256 == x[i] + y[i] + CarryIn(first, carries, i)
    {
      AddLimbExact(p, x, y, sum, first, carries, i);
    }
    AddTelescopes(x, y, sum, first, carries);
  }

  lemma {:induction false} WrapIs(x: int, q: int, r: int)
    requires 0 <= r < TWO32 && x == r + TWO32 * q
    ensures Wrap(x) == r
  {
  }

  /** `u32_add` on byte limbs is addition modulo 2^32. */
  lemma {:induction false} U32AddMeans(p: int, x: Limbs, y: Limbs, sum: Limbs, carries: Limbs)
    requires LargePrime(p) && U32Add(p, x, y, sum, carries)
    requires AreBytes(x) && AreBytes(y) && AreBytes(sum)
    ensures Value(sum) == Wrap(Value(x) + Value(y))
    ensures carries[3] == if Value(x) + Value(y) >= TWO32 then 1 else 0
  {
    BoolsForced(p, carries);
    AddExact(p, x, y, sum, 0, carries);
    ValueToLimbs(sum);
    WrapIs(Value(x) + Value(y), carries[3], Value(sum));
  }

  /** `u32_plus_four` on byte limbs is addition of four without overflow. */
  lemma {:induction false} U32PlusFourMeans(p: int, x: Limbs, y: Limbs, carries: Carries3)
    requires LargePrime(p) && U32PlusFour(p, x, y, carries)
    requires AreBytes(x) && AreBytes(y)
    ensures Value(y) == Value(x) + 4
  {
    BoolsForced(p, carries);
    AddExact(p, x, ZERO_LIMBS, y, 4, carries);
  }

  // What the constraints say of limbs that need not be bytes.

  lemma {:induction false} ZeroSum(p: int, a: int, b: int, c: int, d: int)
    requires p > 0 && Zero(p, a) && Zero(p, b) && Zero(p, c) && Zero(p, d)
    ensures Zero(p, a + 256 * b + 65536 * c + 16777216 * d)
  {
    ZeroScale(p, 256, b);
    ZeroScale(p, 65536, c);
    ZeroScale(p, 16777216, d);
    ZeroAdd(p, a, 256 * b);
    ZeroAdd(p, a + 256 * b, 65536 * c);
    ZeroAdd(p, a + 256 * b + 65536 * c, 16777216 * d);
  }

  /** The numbers the limbs stand for add up in the field, and only the top carry is left to choose. */
  lemma {:induction false} AddInField(p: int, x: Limbs, y: Limbs, sum: Limbs, first: int, carries: seq<int>)
    requires p > 0 && |carries| >= 3 && forall i :: 0 <= i < 4 ==> AddLimb(p, x, y, sum, first, carries, i)
    ensures Eq(p, Value(sum) + TWO32 * CarryOut(carries, 3), Value(x) + Value(y) + first)
  {
    var d0 := sum[0] + CarryOut(carries, 0) * 256 - (x[0] + y[0] + CarryIn(first, carries, 0));
    var d1 := sum[1] + CarryOut(carries, 1) * 256 - (x[1] + y[1] + CarryIn(first, carries, 1));
    var d2 := sum[2] + CarryOut(carries, 2) * 256 - (x[2] + y[2] + CarryIn(first, carries, 2));
    var d3 := sum[3] + CarryOut(carries, 3) * 256 - (x[3] + y[3] + CarryIn(first, carries, 3));
    assert AddLimb(p, x, y, sum, first, carries, 0) && AddLimb(p, x, y, sum, first, carries, 1);
    assert AddLimb(p, x, y, sum, first, carries, 2) && AddLimb(p, x, y, sum, first, carries, 3);
    ZeroSum(p, d0, d1, d2, d3);
  }

  /** Adding four leaves nothing to choose: the next pc is right in the field, whatever its limbs are. */
  lemma {:induction false} PlusFourInField(p: int, x: Limbs, y: Limbs, carries: Carries3)
    requires p > 0 && U32PlusFour(p, x, y, carries)
    ensures Eq(p, Value(y), Value(x) + 4)
  {
    AddInField(p, x, ZERO_LIMBS, y, 4, carries);
  }

  lemma {:induction false} PowerIsNotZero(p: int)
    requires LargePrime(p)
    ensures !Zero(p, TWO32)
  {
    hide IsPrime;
    if Zero(p, 65536 * 65536) {
      Euclid(p, 65536, 65536);
      Lift(p, 65536);
    }
  }

  /** A sum of bytes is right in the field exactly when its top carry is the overflow. */
  lemma {:induction false} AddInFieldIff(p: int, x: Limbs, y: Limbs, sum: Limbs, carries: Limbs)
    requires LargePrime(p) && U32Add(p, x, y, sum, carries) && 0 <= Value(x) < TWO32 && 0 <= Value(y) < TWO32
    ensures Eq(p, Value(sum), Wrap(Value(x) + Value(y))) <==> carries[3] == if Value(x) + Value(y) >= TWO32 then 1 else 0
  {
    AddInField(p, x, y, sum, 0, carries);
    BoolsForced(p, carries);
    hide Value, U32Add, IsPrime, AddLimb;
    var over := if Value(x) + Value(y) >= TWO32 then 1 else 0;
    var v := Value(x) + Value(y) - TWO32 * over;
    WrapIs(Value(x) + Value(y), over, v);
    TopCarryIff(p, Value(sum), v, carries[3], over);
  }

  lemma {:induction false} TopCarryIff(p: int, sum: int, v: int, carry: int, over: int)
    requires LargePrime(p) && IsBit(carry) && IsBit(over) && Eq(p, sum + TWO32 * carry, v + TWO32 * over)
    ensures Eq(p, sum, v) <==> carry == over
  {
    PowerIsNotZero(p);
    hide IsPrime;
    if Eq(p, sum, v) {
      ZeroAdd(p, sum + TWO32 * carry - (v + TWO32 * over), sum - v);
      if carry < over {
        ZeroScale(p, -1, TWO32 * carry - TWO32 * over);
      }
    }
  }

  lemma {:induction false} SubLimbExact(p: int, x: Limbs, y: Limbs, diff: Limbs, borrows: Limbs, i: nat)
    requires p > MIN_FIELD && i < 4 && AreBits(borrows) && AreBytes(x) && AreBytes(y) && AreBytes(diff)
    requires Eq(p, x[i] + borrows[i] * 256, y[i] + CarryIn(0, borrows, i) + diff[i])
    ensures x[i] + borrows[i] * 256 == y[i] + CarryIn(0, borrows, i) + diff[i]
  {
    Lift(p, x[i] + borrows[i] * 256 - (y[i] + CarryIn(0, borrows, i) + diff[i]));
  }

  lemma {:induction false} SubTelescopes(x: Limbs, y: Limbs, diff: Limbs, borrows: Limbs)
    requires forall i :: 0 <= i < 4 ==> x[i] + borrows[i] * 256 == y[i] + CarryIn(0, borrows, i) + diff[i]
    ensures Value(x) + TWO32 * borrows[3] == Value(y) + Value(diff)
  {
  }

  /** The borrow chain on byte limbs forces the wrapped difference and the unsigned comparison. */
  lemma {:induction false} U32SubMeans(p: int, x: Limbs, y: Limbs, diff: Limbs, borrows: Limbs)
    requires LargePrime(p) && U32Sub(p, x, y, diff, borrows)
    requires AreBytes(x) && AreBytes(y) && AreBytes(diff)
    ensures Value(diff) == Wrap(Value(x) - Value(y))
    ensures borrows[3] == if Value(x) < Value(y) then 1 else 0
  {
    BoolsForced(p, borrows);
    forall i | 0 <= i < 4
      ensures x[i] + borrows[i] * 256 == y[i] + CarryIn(0, borrows, i) + diff[i]
    {
      SubLimbExact(p, x, y, diff, borrows, i);
    }
    SubTelescopes(x, y, diff, borrows);
    ValueToLimbs(diff);
    ValueToLimbs(x);
    ValueToLimbs(y);
    WrapIs(Value(x) - Value(y), -borrows[3], Value(diff));
  }
}
