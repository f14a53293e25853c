/** The SUB and SLT tables: a borrow chain, and the sign correction that turns it into a comparison. */
module Subtract {
  import opened Words
  import opened PrimeField
  import opened Rv32
  import opened U32Ops
  import opened U32Witness

  datatype SubColumns = SubColumns(
    pc: Limbs, timestamp: int, rd: int, rs1: int, rs2: int,
    rs1Value: Limbs, rs2Value: Limbs, oldRdValue: Limbs, rdNewValue: Limbs, subBorrows: Limbs,
    nextPc: Limbs, nextPcCarries: Carries3, isDummy: int)

  datatype SltColumns = SltColumns(
    pc: Limbs, timestamp: int, rd: int, rs1: int, rs2: int,
    rs1Bytes: Limbs, rs2Bytes: Limbs, oldRdValue: Limbs, diffBytes: Limbs, borrow: Limbs,
    signRs1: int, signRs2: int, rs1Byte3Low7: int, rs2Byte3Low7: int, ltResult: int,
    nextPc: Limbs, nextPcCarries: Carries3, isDummy: int)

  ghost predicate SubEval(p: int, r: SubColumns)
    requires p > 0
  {
    && Bool(p, r.isDummy)
    && U32PlusFour(p, r.pc, r.nextPc, r.nextPcCarries)
    && U32Sub(p, r.rs1Value, r.rs2Value, r.rdNewValue, r.subBorrows)
  }

  predicate SubLookups(r: SubColumns) {
    AreBytes(r.rs1Value) && AreBytes(r.rs2Value) && AreBytes(r.rdNewValue)
  }

  /** The exclusive or of two bits as a polynomial, a + b - 2ab. */
  function SignXor(a: int, b: int): int {
    b + a * (1 - b - b)
  }

  predicate CompareConstraints(p: int, top1: int, sign1: int, low1: int,
                               top2: int, sign2: int, low2: int, borrow: int, lt: int)
    requires p > 0
  {
    && Bool(p, sign1) && Bool(p, sign2) && Bool(p, lt)
    && Eq(p, top1, sign1 * 128 + low1)
    && Eq(p, top2, sign2 * 128 + low2)
    && Eq(p, lt, SignXor(borrow, SignXor(sign1, sign2)))
  }

  ghost predicate SltEval(p: int, r: SltColumns)
    requires p > 0
  {
    && Bool(p, r.isDummy)
    && U32PlusFour(p, r.pc, r.nextPc, r.nextPcCarries)
    && U32Sub(p, r.rs1Bytes, r.rs2Bytes, r.diffBytes, r.borrow)
    && CompareConstraints(p, r.rs1Bytes[3], r.signRs1, r.rs1Byte3Low7,
                          r.rs2Bytes[3], r.signRs2, r.rs2Byte3Low7, r.borrow[3], r.ltResult)
  }

  predicate SltLookups(r: SltColumns) {
    && AreBytes(r.rs1Bytes) && AreBytes(r.rs2Bytes) && AreBytes(r.diffBytes)
    && IsByte(r.rs1Byte3Low7) && IsByte(r.rs2Byte3Low7)
  }

  predicate SltResidues(p: int, r: SltColumns) {
    Residue(p, r.signRs1) && Residue(p, r.signRs2) && Residue(p, r.ltResult)
  }

  /** Every accepted SUB row writes the wrapped difference of its sources. */
  lemma {:induction false} SubSound(p: int, r: SubColumns)
    requires LargePrime(p) && SubEval(p, r) && SubLookups(r)
    ensures 0 <= Value(r.rs1Value) < TWO32 && 0 <= Value(r.rs2Value) < TWO32
    ensures Value(r.rdNewValue) == Wrap(Value(r.rs1Value) - Value(r.rs2Value))
    ensures AreBytes(r.pc) && AreBytes(r.nextPc) ==> Value(r.nextPc) == Value(r.pc) + 4
  {
    ValueToLimbs(r.rs1Value);
    ValueToLimbs(r.rs2Value);
    U32SubMeans(p, r.rs1Value, r.rs2Value, r.rdNewValue, r.subBorrows);
    if AreBytes(r.pc) && AreBytes(r.nextPc) {
      U32PlusFourMeans(p, r.pc, r.nextPc, r.nextPcCarries);
    }
  }

  /** A sign column and a byte-checked low-7 column split the top byte in one of two ways. */
  lemma {:induction false} SignSplit(p: int, top: int, sign: int, low7: int)
    requires LargePrime(p) && Residue(p, sign) && Bool(p, sign) && Eq(p, top, sign * 128 + low7)
    requires IsByte(top) && IsByte(low7)
    ensures IsBit(sign) && top == sign * 128 + low7
    ensures sign == High(top) - High(low7)
  {
    BoolResidue(p, sign);
    Lift(p, top - (sign * 128 + low7));
  }

  function High(x: int): int {
    if x >= 128 then 1 else 0
  }

  function TopBit(v: word): int {
    if v >= TWO31 then 1 else 0
  }

  lemma {:induction false} SignOfTop(x: Limbs)
    requires AreBytes(x)
    ensures 0 <= Value(x) < TWO32
    ensures High(x[3]) == TopBit(Value(x))
  {
  }

  lemma {:induction false} SignXorBits(a: int, b: int)
    requires IsBit(a) && IsBit(b)
    ensures SignXor(a, b) == if a == b then 0 else 1
  {
  }

  /** The borrow corrected by two signs is the signed comparison when both or neither sign is off. */
  lemma {:induction false} BorrowWithSigns(v1: word, v2: word, borrow: int, off1: int, off2: int, sign1: int, sign2: int)
    requires borrow == Flag(v1 < v2) && IsBit(off1) && IsBit(off2) && IsBit(sign1) && IsBit(sign2)
    requires sign1 == TopBit(v1) - off1 && sign2 == TopBit(v2) - off2
    ensures SignXor(borrow, SignXor(sign1, sign2)) == Flag(Signed(v1) < Signed(v2)) <==> off1 == off2
  {
    hide SignXor;
    SignXorBits(sign1, sign2);
    SignXorBits(borrow, SignXor(sign1, sign2));
  }

  lemma {:induction false} BitForced(p: int, x: int, b: int)
    requires p > 1 && Residue(p, x) && IsBit(b) && Eq(p, x, b)
    ensures x == b
  {
    Lift(p, x - b);
  }

  lemma {:induction false} SignXorIsBit(a: int, b: int, c: int)
    requires IsBit(a) && IsBit(b) && IsBit(c)
    ensures IsBit(SignXor(a, SignXor(b, c)))
  {
    hide SignXor;
    SignXorBits(b, c);
    SignXorBits(a, SignXor(b, c));
  }

  lemma {:induction false} LtForced(p: int, borrow: int, sign1: int, sign2: int, lt: int)
    requires LargePrime(p) && Residue(p, lt) && IsBit(borrow) && IsBit(sign1) && IsBit(sign2)
    requires Eq(p, lt, SignXor(borrow, SignXor(sign1, sign2)))
    ensures lt == SignXor(borrow, SignXor(sign1, sign2))
  {
    hide SignXor, Eq, IsPrime;
    SignXorIsBit(borrow, sign1, sign2);
    BitForced(p, lt, SignXor(borrow, SignXor(sign1, sign2)));
  }

  lemma {:induction false} CompareForced(p: int, v1: word, top1: int, sign1: int, low1: int,
                      v2: word, top2: int, sign2: int, low2: int, borrow: int, lt: int)
    requires LargePrime(p) && Residue(p, sign1) && Residue(p, sign2) && Residue(p, lt)
    requires CompareConstraints(p, top1, sign1, low1, top2, sign2, low2, borrow, lt)
    requires IsByte(top1) && IsByte(top2) && IsByte(low1) && IsByte(low2)
    requires High(top1) == TopBit(v1) && High(top2) == TopBit(v2) && borrow == Flag(v1 < v2)
    ensures lt == Flag(Signed(v1) < Signed(v2)) <==> High(low1) == High(low2)
  {
    hide SignXor, Signed, LargePrime, Bool, Eq;
    SignSplit(p, top1, sign1, low1);
    SignSplit(p, top2, sign2, low2);
    LtForced(p, borrow, sign1, sign2, lt);
    hide High;
    BorrowWithSigns(v1, v2, borrow, High(low1), High(low2), sign1, sign2);
  }

  /**
   * The result column of an accepted SLT row is the signed comparison of rs1 and rs2 exactly when
   * the two low-7 columns are on the same side of 128.
   */
  lemma {:induction false} SltSound(p: int, r: SltColumns)
    requires LargePrime(p) && SltResidues(p, r) && SltEval(p, r) && SltLookups(r)
    ensures 0 <= Value(r.rs1Bytes) < TWO32 && 0 <= Value(r.rs2Bytes) < TWO32
    ensures r.ltResult == Flag(Signed(Value(r.rs1Bytes)) < Signed(Value(r.rs2Bytes)))
       <==> (r.rs1Byte3Low7 < 128 <==> r.rs2Byte3Low7 < 128)
    ensures Value(r.diffBytes) == Wrap(Value(r.rs1Bytes) - Value(r.rs2Bytes))
    ensures AreBytes(r.pc) && AreBytes(r.nextPc) ==> Value(r.nextPc) == Value(r.pc) + 4
  {
    SignOfTop(r.rs1Bytes);
    SignOfTop(r.rs2Bytes);
    hide Value, Wrap, U32Sub, U32PlusFour, Signed, LargePrime, CompareConstraints;
    if AreBytes(r.pc) && AreBytes(r.nextPc) {
      U32PlusFourMeans(p, r.pc, r.nextPc, r.nextPcCarries);
    }
    U32SubMeans(p, r.rs1Bytes, r.rs2Bytes, r.diffBytes, r.borrow);
    CompareForced(p, Value(r.rs1Bytes), r.rs1Bytes[3], r.signRs1, r.rs1Byte3Low7,
                  Value(r.rs2Bytes), r.rs2Bytes[3], r.signRs2, r.rs2Byte3Low7, r.borrow[3], r.ltResult);
  }

  /** `fill_row` of the SLT trace builder. */
  function FillSlt(pc: word, timestamp: nat, rd: reg, rs1: reg, rs2: reg,
                   rs1Value: word, rs2Value: word, oldRd: word): SltColumns
    requires pc + 4 < TWO32
  {
    var a, b := ToLimbs(rs1Value), ToLimbs(rs2Value);
    SltColumns(ToLimbs(pc), timestamp, rd, rs1, rs2, a, b, ToLimbs(oldRd),
               ToLimbs(Wrap(rs1Value - rs2Value)), BorrowsOf(a, b),
               rs1Value / TWO31, rs2Value / TWO31, a[3] % 128, b[3] % 128,
               Flag(Signed(rs1Value) < Signed(rs2Value)),
               ToLimbs(pc + 4), PcPlus4Carries(pc), 1)
  }

  lemma {:induction false} TopByteSplits(v: word)
    ensures ToLimbs(v)[3] == (v / TWO31) * 128 + ToLimbs(v)[3] % 128
    ensures v / TWO31 == TopBit(v)
  {
  }

  lemma {:induction false} SignColumnAccepted(p: int, v: word)
    requires p > 1
    ensures var b, sign := ToLimbs(v), v / TWO31;
            && sign == TopBit(v) && Bool(p, sign)
            && Eq(p, b[3], sign * 128 + b[3] % 128) && IsByte(b[3] % 128)
  {
    TopByteSplits(v);
    MultipleIsZero(p, 0);
  }

  lemma {:induction false} CompareAccepted(p: int, v1: word, v2: word, borrow: int)
    requires p > 1 && borrow == Flag(v1 < v2)
    ensures var top1, top2 := ToLimbs(v1)[3], ToLimbs(v2)[3];
            CompareConstraints(p, top1, v1 / TWO31, top1 % 128, top2, v2 / TWO31, top2 % 128,
                               borrow, Flag(Signed(v1) < Signed(v2)))
  {
    hide SignXor, Signed, ToLimbs, Bool, Eq;
    SignColumnAccepted(p, v1);
    SignColumnAccepted(p, v2);
    BorrowWithSigns(v1, v2, borrow, 0, 0, v1 / TWO31, v2 / TWO31);
    BitIsBool(p, Flag(Signed(v1) < Signed(v2)));
    EqualsEq(p, Flag(Signed(v1) < Signed(v2)), SignXor(borrow, SignXor(v1 / TWO31, v2 / TWO31)));
  }

  lemma {:induction false} SltCompleteEval(p: int, pc: word, timestamp: nat, rd: reg, rs1: reg, rs2: reg,
                        rs1Value: word, rs2Value: word, oldRd: word)
    requires p > 1 && pc + 4 < TWO32
    ensures SltEval(p, FillSlt(pc, timestamp, rd, rs1, rs2, rs1Value, rs2Value, oldRd))
  {
    hide ToLimbs, Wrap, U32Sub, U32PlusFour, Value, Borrow, CompareConstraints, Signed, PcPlus4Carries, Bool;
    DiffLimbsMean(rs1Value, rs2Value);
    CompareAccepted(p, rs1Value, rs2Value, Borrow(ToLimbs(rs1Value), ToLimbs(rs2Value), 3));
    SubWitness(p, rs1Value, rs2Value);
    PlusFourWitness(p, pc);
    BitIsBool(p, 1);
  }

  /** The SLT trace builder only makes accepted rows, with low-7 columns below 128. */
  lemma {:induction false} SltComplete(p: int, pc: word, timestamp: nat, rd: reg, rs1: reg, rs2: reg,
                    rs1Value: word, rs2Value: word, oldRd: word)
    requires p > 1 && pc + 4 < TWO32
    ensures var r := FillSlt(pc, timestamp, rd, rs1, rs2, rs1Value, rs2Value, oldRd);
            SltEval(p, r) && SltLookups(r) && r.rs1Byte3Low7 < 128 && r.rs2Byte3Low7 < 128
  {
    hide ToLimbs, Wrap, Value, BorrowsOf, Signed, PcPlus4Carries, SltEval;
    SltCompleteEval(p, pc, timestamp, rd, rs1, rs2, rs1Value, rs2Value, oldRd);
    ToLimbsValue(rs1Value);
    ToLimbsValue(rs2Value);
    ToLimbsValue(Wrap(rs1Value - rs2Value));
  }

  /** `fill_row` of the SUB trace builder. */
  function FillSub(pc: word, timestamp: nat, rd: reg, rs1: reg, rs2: reg,
                   rs1Value: word, rs2Value: word, oldRd: word, rdNew: word): SubColumns
    requires pc + 4 < TWO32
  {
    var a, b := ToLimbs(rs1Value), ToLimbs(rs2Value);
    SubColumns(ToLimbs(pc), timestamp, rd, rs1, rs2, a, b, ToLimbs(oldRd),
               ToLimbs(rdNew), BorrowsOf(a, b), ToLimbs(pc + 4), PcPlus4Carries(pc), 1)
  }

  /** The SUB trace builder only makes accepted rows. */
  lemma {:induction false} SubComplete(p: int, pc: word, timestamp: nat, rd: reg, rs1: reg, rs2: reg,
                    rs1Value: word, rs2Value: word, oldRd: word, rdNew: word)
    requires p > 1 && pc + 4 < TWO32
    requires rdNew == Wrap(rs1Value - rs2Value)
    ensures var r := FillSub(pc, timestamp, rd, rs1, rs2, rs1Value, rs2Value, oldRd, rdNew);
            SubEval(p, r) && SubLookups(r)
  {
    ToLimbsValue(rs1Value);
    ToLimbsValue(rs2Value);
    ToLimbsValue(Wrap(rs1Value - rs2Value));
    SubWitness(p, rs1Value, rs2Value);
    PlusFourWitness(p, pc);
    MultipleIsZero(p, 0);
    hide ToLimbs, Wrap, U32Sub, U32PlusFour;
  }

  /** The borrow loops of the SLT and SUB trace builders agree on all inputs. */
  method CompareBorrowLoops(x: word, y: word) returns (agree: bool)
    ensures agree
  {
    var diff, slt := SltBorrows(x, y);
    var sub := SubBorrows(x, y);
    agree := slt == sub;
  }

  /** slt x1, x2, x3 with x2 = 2^31 and x3 = 0: low-7 column 128, sign column 0, result 0. */
  const WRONG_SLT := SltColumns(
    [0, 0, 0, 0], 0, 1, 2, 3, [0, 0, 0, 128], [0, 0, 0, 0], [0, 0, 0, 0], [0, 0, 0, 128], [0, 0, 0, 0],
    0, 0, 128, 0, 0, [4, 0, 0, 0], [0, 0, 0], 1)

  /** An accepted SLT row that denies -2^31 < 0: its low-7 column is a byte, but not below 128. */
  lemma {:induction false} WrongRowAccepted(p: int)
    requires LargePrime(p)
    ensures var r := WRONG_SLT;
            && SltResidues(p, r) && SltEval(p, r) && SltLookups(r)
            && Value(r.rs1Bytes) == TWO31 && Value(r.rs2Bytes) == 0 && r.ltResult == 0 && Signed(TWO31) < Signed(0)
  {
    BoolsAccepted(p, [0, 0, 0]);
    BoolsAccepted(p, WRONG_SLT.borrow);
    MultipleIsZero(p, 0);
    hide IsPrime;
  }
}
