/** Comparison of 24-bit timestamps by the top bit of x + 2^24 - y. */
module TimestampLessThan {
  import opened Words
  import opened PrimeField
  import opened Rv32
  import opened U32Ops
  import opened Bits
  import opened Heights

  const TWO24 := 0x100_0000

  type Bits24 = s: seq<int> | |s| == 24
    witness [0, 0, 0, 0, 0, 0, 0, 0, 0, 0, 0, 0, 0, 0, 0, 0, 0, 0, 0, 0, 0, 0, 0, 0]
  type Bits25 = s: seq<int> | |s| == 25
    witness [0, 0, 0, 0, 0, 0, 0, 0, 0, 0, 0, 0, 0, 0, 0, 0, 0, 0, 0, 0, 0, 0, 0, 0, 0]

  datatype TimestampLtColumns = TimestampLtColumns(
    x: int, y: int, xBits: Bits24, yBits: Bits24, vBits: Bits25, diffInv: int, isEqual: int, mult: int)

  predicate TimestampLtEval(p: int, r: TimestampLtColumns)
    requires p > 0
  {
    && Decomposes(p, r.x, r.xBits)
    && Decomposes(p, r.y, r.yBits)
    && Decomposes(p, r.x + TWO24 - r.y, r.vBits)
    && Eq(p, r.diffInv * (r.x - r.y) + 1, r.isEqual) && Zero(p, (r.x - r.y) * r.isEqual)
  }

  ghost predicate TimestampLtResidues(p: int, r: TimestampLtColumns) {
    && Residue(p, r.x) && Residue(p, r.y) && Residue(p, r.isEqual)
    && Residues(p, r.xBits) && Residues(p, r.yBits) && Residues(p, r.vBits)
  }

  /** The constraint loops: three recompositions by doubling weights, then the equality gadget. */
  method CheckTimestampLt(p: int, r: TimestampLtColumns) returns (accepted: bool)
    requires p > 0
    ensures accepted == TimestampLtEval(p, r)
  {
    hide Decomposes;
    var x := CheckBitDecomposition(p, r.x, r.xBits);
    var y := CheckBitDecomposition(p, r.y, r.yBits);
    var v := CheckBitDecomposition(p, r.x + TWO24 - r.y, r.vBits);
    var diff := r.x - r.y;
    accepted := x && y && v && Eq(p, r.diffInv * diff + 1, r.isEqual) && Zero(p, diff * r.isEqual);
  }

  lemma {:induction false} PowersOfBits()
    ensures Pow2(24) == TWO24 && Pow2(25) == 2 * TWO24
  {
    assert Pow2(8) == 256;
    Pow2Sum(8, 8);
    Pow2Sum(16, 8);
  }

  lemma {:induction false} TopBitOf25(bits: Bits25, x: int, y: int)
    requires AreBits(bits) && 0 <= x < TWO24 && 0 <= y < TWO24 && FromBits(bits) == x + TWO24 - y
    ensures bits[24] == 0 <==> x < y
  {
    PowersOfBits();
    hide Pow2;
    BitAt(bits, 24);
    hide FromBits;
    assert FromBits(bits) / TWO24 == if x < y then 0 else 1;
  }

  /**
   * An accepted timestamp row holds two 24-bit numbers, the one binary form of x + 2^24 - y, whose
   * top bit is 0 exactly when x < y, and a flag saying whether they are equal. No constraint asks for
   * that top bit to be 0.
   */
  lemma {:induction false} TimestampLtSound(p: int, r: TimestampLtColumns)
    requires LargePrime(p) && TimestampLtResidues(p, r) && TimestampLtEval(p, r)
    ensures 0 <= r.x < TWO24 && 0 <= r.y < TWO24
    ensures r.x + TWO24 - r.y >= 0 && r.vBits == ToBits(r.x + TWO24 - r.y, 25)
    ensures r.vBits[24] == 0 <==> r.x < r.y
    ensures r.isEqual == Flag(r.x == r.y)
  {
    PowersOfBits();
    hide Pow2, FromBits, Bool, IsPrime, Decomposes, Residues, Eq, Zero, ToBits;
    DecompositionExact(p, r.x, r.xBits);
    DecompositionExact(p, r.y, r.yBits);
    DecompositionExact(p, r.x + TWO24 - r.y, r.vBits);
    ToFromBits(r.vBits);
    TopBitOf25(r.vBits, r.x, r.y);
    IsZeroGadget(p, r.x - r.y, r.diffInv, r.isEqual);
  }

  /** The row of a comparison of two 24-bit timestamps. */
  ghost function TimestampLtRow(p: int, x: nat, y: nat, mult: int): TimestampLtColumns
    requires LargePrime(p) && x < TWO24 && y < TWO24
  {
    TimestampLtColumns(x, y, ToBits(x, 24), ToBits(y, 24), ToBits(x + TWO24 - y, 25),
                       NegatedInverse(p, x - y), Flag(x == y), mult)
  }

  const TIMESTAMP_LT_PADDING := TimestampLtColumns(0, 0,
    [0, 0, 0, 0, 0, 0, 0, 0, 0, 0, 0, 0, 0, 0, 0, 0, 0, 0, 0, 0, 0, 0, 0, 0],
    [0, 0, 0, 0, 0, 0, 0, 0, 0, 0, 0, 0, 0, 0, 0, 0, 0, 0, 0, 0, 0, 0, 0, 0],
    [0, 0, 0, 0, 0, 0, 0, 0, 0, 0, 0, 0, 0, 0, 0, 0, 0, 0, 0, 0, 0, 0, 0, 0, 1], 0, 1, 0)

  /** The constraints accept the row of every pair of 24-bit timestamps, ordered or not. */
  lemma {:induction false} TimestampLtAccepted(p: int, x: nat, y: nat, mult: int)
    requires LargePrime(p) && x < TWO24 && y < TWO24
    ensures TimestampLtEval(p, TimestampLtRow(p, x, y, mult))
  {
    PowersOfBits();
    hide Pow2, Decomposes, ToBits, IsPrime;
    DecompositionAccepted(p, x, 24);
    DecompositionAccepted(p, y, 24);
    DecompositionAccepted(p, x + TWO24 - y, 25);
    IsZeroWitness(p, x - y, Flag(x == y));
  }

  lemma {:induction false} TopDecomposes(p: int, bits: Bits25)
    requires p > 0 && bits[24] == 1 && forall i :: 0 <= i < 24 ==> bits[i] == 0
    ensures Decomposes(p, TWO24, bits)
  {
    PowersOfBits();
    hide Pow2;
    ZeroesSum(bits[..24]);
    assert bits == bits[..24] + [1];
    FromBitsAppend(bits[..24], [1]);
    BitsAreBools(p, bits);
    assert FromBits([1]) == 1;
    hide FromBits;
    EqualsEq(p, TWO24, FromBits(bits));
  }

  /** Padding rows: x = y = 0, whose form of 2^24 has only its top bit set. */
  lemma {:induction false} TimestampLtPaddingAccepted(p: int)
    requires p > 0
    ensures TimestampLtEval(p, TIMESTAMP_LT_PADDING)
  {
    hide Decomposes;
    var r := TIMESTAMP_LT_PADDING;
    ZeroesDecompose(p, r.xBits);
    ZeroesDecompose(p, r.yBits);
    TopDecomposes(p, r.vBits);
    MultipleIsZero(p, 0);
  }

  method FillTimestampLt(p: int, x: nat, y: nat, mult: int) returns (row: TimestampLtColumns)
    requires LargePrime(p) && x < TWO24 && y < TWO24
    ensures row == TimestampLtRow(p, x, y, mult)
  {
    PowersOfBits();
    hide Pow2, ToBits;
    var xBits := FillBits(x, 24);
    var yBits := FillBits(y, 24);
    var vBits := FillBits(x + TWO24 - y, 25);
    var diffInv, isEqual := 0, 1;
    if x != y {
      diffInv, isEqual := NegatedInverse(p, x - y), 0;
    }
    row := TimestampLtColumns(x, y, xBits, yBits, vBits, diffInv, isEqual, mult);
  }

  /** `timestamp_less_than::build_trace`: a row per entry, then padding rows. */
  method BuildTimestampLt(p: int, entries: seq<(nat, nat, int)>) returns (rows: array<TimestampLtColumns>)
    requires LargePrime(p) && forall i :: 0 <= i < |entries| ==> entries[i].0 < TWO24 && entries[i].1 < TWO24
    ensures fresh(rows) && rows.Length == PaddedHeight(|entries|)
    ensures forall i :: 0 <= i < |entries| ==> rows[i] == TimestampLtRow(p, entries[i].0, entries[i].1, entries[i].2)
    ensures forall i :: |entries| <= i < rows.Length ==> rows[i] == TIMESTAMP_LT_PADDING
  {
    hide TimestampLtRow;
    rows := new TimestampLtColumns[PaddedHeight(|entries|)](_ => TIMESTAMP_LT_PADDING);
    for i := 0 to |entries|
      invariant forall j :: 0 <= j < i ==> rows[j] == TimestampLtRow(p, entries[j].0, entries[j].1, entries[j].2)
      invariant forall j :: i <= j < rows.Length ==> rows[j] == TIMESTAMP_LT_PADDING
    {
      rows[i] := FillTimestampLt(p, entries[i].0, entries[i].1, entries[i].2);
    }
  }

  lemma {:induction false} BitsAreResidues(p: int, bits: seq<int>)
    requires p > 1 && AreBits(bits)
    ensures Residues(p, bits)
  {
  }

  lemma {:induction false} TimestampLtBuiltResidues(p: int, x: nat, y: nat, mult: int)
    requires LargePrime(p) && x < TWO24 && y < TWO24
    ensures TimestampLtResidues(p, TimestampLtRow(p, x, y, mult)) && TimestampLtResidues(p, TIMESTAMP_LT_PADDING)
  {
    hide ToBits, IsPrime;
    BitsAreResidues(p, ToBits(x, 24));
    BitsAreResidues(p, ToBits(y, 24));
    BitsAreResidues(p, ToBits(x + TWO24 - y, 25));
  }
}
