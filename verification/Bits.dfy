/** Little-endian bit decompositions and their recomposition by doubling weights. */
module Bits {
  import opened Words
  import opened Division
  import opened PrimeField

  predicate AreBits(bits: seq<int>) {
    forall i :: 0 <= i < |bits| ==> bits[i] == 0 || bits[i] == 1
  }

  /** The number a bit sequence stands for. */
  function FromBits(bits: seq<int>): int {
    if |bits| == 0 then 0 else bits[0] + 2 * FromBits(bits[1..])
  }

  /** The n low bits of v. */
  function ToBits(v: nat, n: nat): (bits: seq<int>)
    ensures |bits| == n && AreBits(bits)
  {
    if n == 0 then [] else [v % 2] + ToBits(v / 2, n - 1)
  }

  lemma {:induction false} FromBitsRange(bits: seq<int>)
    requires AreBits(bits)
    ensures 0 <= FromBits(bits) < Pow2(|bits|)
  {
    if |bits| > 0 {
      FromBitsRange(bits[1..]);
    }
  }

  lemma {:induction false} FromToBits(v: nat, n: nat)
    requires v < Pow2(n)
    ensures FromBits(ToBits(v, n)) == v
  {
    if n > 0 {
      FromToBits(v / 2, n - 1);
      assert ToBits(v, n)[1..] == ToBits(v / 2, n - 1);
    }
  }

  /** The binary form is unique. */
  lemma {:induction false} ToFromBits(bits: seq<int>)
    requires AreBits(bits)
    ensures FromBits(bits) >= 0 && ToBits(FromBits(bits), |bits|) == bits
  {
    if |bits| > 0 {
      ToFromBits(bits[1..]);
      assert FromBits(bits) % 2 == bits[0] && FromBits(bits) / 2 == FromBits(bits[1..]);
    }
  }

  lemma {:induction false} FromBitsAppend(low: seq<int>, high: seq<int>)
    ensures FromBits(low + high) == FromBits(low) + Pow2(|low|) * FromBits(high)
  {
    if |low| == 0 {
      assert low + high == high;
    } else {
      FromBitsAppend(low[1..], high);
      assert (low + high)[1..] == low[1..] + high;
    }
  }

  lemma {:induction false} FromBitsNext(bits: seq<int>, i: nat)
    requires i < |bits|
    ensures FromBits(bits[..i + 1]) == FromBits(bits[..i]) + bits[i] * Pow2(i)
  {
    assert bits[..i + 1] == bits[..i] + [bits[i]];
    FromBitsAppend(bits[..i], [bits[i]]);
    assert FromBits([bits[i]]) == bits[i];
    hide FromBits, Pow2;
  }

  /** Bit k of a decomposition is the k-th binary digit of its number. */
  lemma {:induction false} BitAt(bits: seq<int>, k: nat)
    requires AreBits(bits) && k < |bits|
    ensures bits[k] == (FromBits(bits) / Pow2(k)) % 2
  {
    var low, high := bits[..k], bits[k..];
    assert bits == low + high;
    FromBitsAppend(low, high);
    FromBitsRange(low);
    LowBit(high);
    ShiftOut(Pow2(k), FromBits(high), FromBits(low));
  }

  lemma {:induction false} LowBit(bits: seq<int>)
    requires AreBits(bits) && |bits| > 0
    ensures FromBits(bits) % 2 == bits[0]
  {
    assert FromBits(bits) == bits[0] + 2 * FromBits(bits[1..]);
    hide *;
  }

  lemma {:induction false} ShiftOut(d: int, high: int, low: int)
    requires 0 <= low < d
    ensures (low + d * high) / d == high
  {
    RemainderUnique(d, high, low);
    assert low + d * high == high * d + low;
  }

  /** Constraints of `check_bit_decomposition`. */
  predicate Decomposes(p: int, value: int, bits: seq<int>)
    requires p > 0
  {
    && (forall i :: 0 <= i < |bits| ==> Bool(p, bits[i]))
    && Eq(p, value, FromBits(bits))
  }

  ghost predicate Residues(p: int, xs: seq<int>) {
    forall i :: 0 <= i < |xs| ==> Residue(p, xs[i])
  }

  lemma {:induction false} BitResidues(p: int, bits: seq<int>)
    requires p > 1 && AreBits(bits)
    ensures Residues(p, bits)
  {
  }

  lemma {:induction false} BoolsAreBits(p: int, bits: seq<int>)
    requires IsPrime(p) && Residues(p, bits) && forall i :: 0 <= i < |bits| ==> Bool(p, bits[i])
    ensures AreBits(bits)
  {
    forall i | 0 <= i < |bits|
      ensures bits[i] == 0 || bits[i] == 1
    {
      BoolResidue(p, bits[i]);
    }
  }

  lemma {:induction false} BitsAreBools(p: int, bits: seq<int>)
    requires p > 0 && AreBits(bits)
    ensures forall i :: 0 <= i < |bits| ==> Bool(p, bits[i])
  {
    forall i | 0 <= i < |bits| ensures Bool(p, bits[i]) {
      MultipleIsZero(p, 0);
    }
  }

  /** An accepted decomposition is the binary form of its value, which is below 2^n. */
  lemma {:induction false} DecompositionExact(p: int, value: int, bits: seq<int>)
    requires IsPrime(p) && Pow2(|bits|) <= p
    requires Residue(p, value) && Residues(p, bits) && Decomposes(p, value, bits)
    ensures AreBits(bits) && value == FromBits(bits) && 0 <= value < Pow2(|bits|)
  {
    BoolsAreBits(p, bits);
    FromBitsRange(bits);
    Lift(p, value - FromBits(bits));
  }

  lemma {:induction false} DecompositionAccepted(p: int, v: nat, n: nat)
    requires p > 0 && v < Pow2(n)
    ensures Decomposes(p, v, ToBits(v, n))
  {
    FromToBits(v, n);
    BitsAreBools(p, ToBits(v, n));
    MultipleIsZero(p, 0);
  }

  /** The recomposition loop of `check_bit_decomposition`, whose weight doubles from bit to bit. */
  method CheckBitDecomposition(p: int, value: int, bits: seq<int>) returns (accepted: bool)
    requires p > 0
    ensures accepted == Decomposes(p, value, bits)
  {
    var recomposed, weight := 0, 1;
    var bools := true;
    assert FromBits(bits[..0]) == 0;
    hide FromBits, Bool;
    for i := 0 to |bits|
      invariant weight == Pow2(if i < |bits| then i else if i > 0 then i - 1 else 0)
      invariant recomposed == FromBits(bits[..i])
      invariant bools == forall j :: 0 <= j < i ==> Bool(p, bits[j])
    {
      bools := bools && Bool(p, bits[i]);
      FromBitsNext(bits, i);
      recomposed := recomposed + bits[i] * weight;
      if i + 1 < |bits| {
        weight := weight * 2;
      }
    }
    assert bits[..|bits|] == bits;
    accepted := bools && Eq(p, value, recomposed);
  }

  lemma {:induction false} FieldOf(d: int, e: int, v: int, low: int, mid: int, high: int)
    requires v == low + d * (mid + e * high) && 0 <= low < d && 0 <= mid < e
    ensures (v / d) % e == mid
  {
    ShiftOut(d, mid + e * high, low);
    RemainderUnique(e, high, mid);
    assert mid + e * high == high * e + mid;
  }

  /** A run of bits is a field of the number. */
  lemma {:induction false} FieldOfBits(bits: seq<int>, lo: nat, hi: nat)
    requires AreBits(bits) && lo <= hi <= |bits|
    ensures FromBits(bits) >= 0 && (FromBits(bits) / Pow2(lo)) % Pow2(hi - lo) == FromBits(bits[lo..hi])
  {
    var low, mid, high := bits[..lo], bits[lo..hi], bits[hi..];
    assert bits == low + (mid + high);
    FromBitsAppend(low, mid + high);
    FromBitsAppend(mid, high);
    FromBitsRange(bits);
    FromBitsRange(low);
    FromBitsRange(mid);
    hide FromBits, Pow2;
    FieldOf(Pow2(lo), Pow2(hi - lo), FromBits(bits), FromBits(low), FromBits(mid), FromBits(high));
  }

  /** The bit loops of the trace builders: bit i is `(v >> i) & 1`. */
  method FillBits(v: nat, n: nat) returns (bits: seq<int>)
    requires v < Pow2(n)
    ensures bits == ToBits(v, n)
  {
    FromToBits(v, n);
    bits := [];
    for i := 0 to n
      invariant |bits| == i && bits == ToBits(v, n)[..i]
    {
      BitAt(ToBits(v, n), i);
      bits := bits + [(v / Pow2(i)) % 2];
    }
  }

  lemma {:induction false} ZeroesDecompose(p: int, bits: seq<int>)
    requires p > 0 && forall i :: 0 <= i < |bits| ==> bits[i] == 0
    ensures Decomposes(p, 0, bits)
  {
    ZeroesSum(bits);
    BitsAreBools(p, bits);
    MultipleIsZero(p, 0);
  }

  lemma {:induction false} ZeroesSum(bits: seq<int>)
    requires forall i :: 0 <= i < |bits| ==> bits[i] == 0
    ensures FromBits(bits) == 0
  {
    if |bits| > 0 {
      ZeroesSum(bits[1..]);
    }
  }

  /** The bits at the given (byte, bit) positions. */
  function Selected(bytes: seq<seq<int>>, positions: seq<(nat, nat)>): seq<int>
    requires forall i :: 0 <= i < |positions| ==> positions[i].0 < |bytes| && positions[i].1 < |bytes[positions[i].0]|
  {
    seq(|positions|, i requires 0 <= i < |positions| => bytes[positions[i].0][positions[i].1])
  }

  /** `pack_bits`: the bits at the given positions, with doubling weights and without constraints. */
  method PackBits(bytes: seq<seq<int>>, positions: seq<(nat, nat)>) returns (acc: int)
    requires forall i :: 0 <= i < |positions| ==> positions[i].0 < |bytes| && positions[i].1 < |bytes[positions[i].0]|
    ensures acc == FromBits(Selected(bytes, positions))
  {
    acc := 0;
    var weight := 1;
    ghost var bits := Selected(bytes, positions);
    assert FromBits(bits[..0]) == 0;
    hide FromBits;
    for i := 0 to |positions|
      invariant weight == Pow2(if i < |bits| then i else if i > 0 then i - 1 else 0)
      invariant acc == FromBits(bits[..i])
    {
      FromBitsNext(bits, i);
      acc := acc + bytes[positions[i].0][positions[i].1] * weight;
      if i + 1 < |positions| {
        weight := weight * 2;
      }
    }
    assert bits[..|bits|] == bits;
  }
}
