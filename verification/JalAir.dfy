/** The JAL table: constraints, what they force, and the rows of the trace builder. */
module JalAir {
  import opened Words
  import opened PrimeField
  import opened Rv32
  import opened U32Ops
  import opened U32Witness
  import opened Bits
  import opened Decode
  import opened Jal

  type Bits12 = s: seq<int> | |s| == 12
    witness [0, 0, 0, 0, 0, 0, 0, 0, 0, 0, 0, 0]

  datatype JalColumns = JalColumns(
    pc: Limbs, timestamp: int, rd: int, immHigh12: int, immLo8: int,
    high12Bits: Bits12, lo8Bits: Byte8, immJ: Limbs, jmpCarries: Limbs,
    rdVal: Limbs, rdValCarries: Carries3, oldRdValue: Limbs, nextPc: Limbs,
    rdIsZero: int, rdInv: int, isDummy: int)

  /** The four bytes of the sign-extended immediate, from its twenty bits. */
  predicate ImmediateBytes(p: int, h: Bits12, l: Byte8, immJ: Limbs)
    requires p > 0
  {
    && Eq(p, immJ[0], Byte0(h)) && Eq(p, immJ[1], Byte1(h, l))
    && Eq(p, immJ[2], Byte2(h, l)) && Eq(p, immJ[3], h[11] * 255)
  }

  function Byte0(h: Bits12): int {
    h[0] * 2 + h[1] * 4 + h[2] * 8 + h[3] * 16 + h[4] * 32 + h[5] * 64 + h[6] * 128
  }

  function Byte1(h: Bits12, l: Byte8): int {
    h[7] + h[8] * 2 + h[9] * 4 + h[10] * 8 + l[0] * 16 + l[1] * 32 + l[2] * 64 + l[3] * 128
  }

  function Byte2(h: Bits12, l: Byte8): int {
    l[4] + l[5] * 2 + l[6] * 4 + l[7] * 8 + h[11] * 240
  }

  predicate ZeroGadget(p: int, rd: int, rdIsZero: int, rdInv: int)
    requires p > 0
  {
    && Bool(p, rdIsZero) && Zero(p, rd * rdIsZero) && Eq(p, rd * rdInv + rdIsZero, 1)
  }

  ghost predicate JalEval(p: int, r: JalColumns)
    requires p > 0
  {
    && Bool(p, r.isDummy)
    && Decomposes(p, r.immHigh12, r.high12Bits) && Decomposes(p, r.immLo8, r.lo8Bits)
    && ImmediateBytes(p, r.high12Bits, r.lo8Bits, r.immJ)
    && U32Add(p, r.pc, r.immJ, r.nextPc, r.jmpCarries)
    && U32PlusFour(p, r.pc, r.rdVal, r.rdValCarries)
    && ZeroGadget(p, r.rd, r.rdIsZero, r.rdInv)
  }

  ghost predicate JalResidues(p: int, r: JalColumns) {
    && Residue(p, r.immHigh12) && Residue(p, r.immLo8) && Residues(p, r.high12Bits) && Residues(p, r.lo8Bits)
    && Residues(p, r.immJ) && Residue(p, r.rd) && Residue(p, r.rdIsZero)
  }

  // Soundness.

  lemma {:induction false} FromEight(l: Byte8)
    ensures FromBits(l) == EightBits(l)
  {
    FromFive(l[0], l[1], l[2], l[3], l[4]);
    FromFive(l[5], l[6], l[7], 0, 0);
    SmallPowers();
    assert l == [l[0], l[1], l[2], l[3], l[4]] + [l[5], l[6], l[7]];
    assert [l[5], l[6], l[7], 0, 0] == [l[5], l[6], l[7]] + [0, 0];
    TwoZeros();
    hide FromBits, Pow2;
    FromBitsAppend([l[0], l[1], l[2], l[3], l[4]], [l[5], l[6], l[7]]);
    FromBitsAppend([l[5], l[6], l[7]], [0, 0]);
  }

  lemma {:induction false} TwoZeros()
    ensures FromBits([0, 0]) == 0
  {
    assert [0, 0][1..] == [0] && [0][1..] == [];
    assert FromBits([0]) == 0;
  }

  lemma {:induction false} FromTwo(a: int, b: int)
    ensures FromBits([a, b]) == a + 2 * b
  {
    assert [a, b][1..] == [b] && [b][1..] == [];
    assert FromBits([b]) == b;
  }

  /** imm[10:1] */
  function LowTen(h: Bits12): int {
    h[0] + 2 * h[1] + 4 * h[2] + 8 * h[3] + 16 * h[4] + 32 * h[5] + 64 * h[6] + 128 * h[7] + 256 * h[8] + 512 * h[9]
  }

  lemma {:induction false} HighSplit(h: Bits12)
    ensures h == [h[0], h[1], h[2], h[3], h[4], h[5], h[6], h[7], h[8], h[9]] + [h[10], h[11]]
  {
  }

  /** The twelve bits in their three groups: imm[10:1], imm[11] and the sign. */
  lemma {:induction false} High12Groups(h: Bits12)
    ensures FromBits(h) == LowTen(h) + 1024 * h[10] + 2048 * h[11]
  {
    BigPowers();
    HighSplit(h);
    hide FromBits, Pow2;
    var low := [h[0], h[1], h[2], h[3], h[4], h[5], h[6], h[7], h[8], h[9]];
    FromTen(h[0], h[1], h[2], h[3], h[4], h[5], h[6], h[7], h[8], h[9]);
    FromTwo(h[10], h[11]);
    FromBitsAppend(low, [h[10], h[11]]);
  }

  lemma {:induction false} TenBits(h: Bits12)
    requires AreBits(h)
    ensures 0 <= LowTen(h) < 1024
  {
    assert 0 <= h[0] <= 1 && 0 <= h[1] <= 1 && 0 <= h[2] <= 1 && 0 <= h[3] <= 1 && 0 <= h[4] <= 1;
    assert 0 <= h[5] <= 1 && 0 <= h[6] <= 1 && 0 <= h[7] <= 1 && 0 <= h[8] <= 1 && 0 <= h[9] <= 1;
  }

  function EightBits(l: Byte8): int {
    l[0] + 2 * l[1] + 4 * l[2] + 8 * l[3] + 16 * l[4] + 32 * l[5] + 64 * l[6] + 128 * l[7]
  }

  lemma {:induction false} BytesSum(h: Bits12, l: Byte8)
    ensures Byte0(h) + 256 * Byte1(h, l) + 65536 * Byte2(h, l) + 16777216 * (h[11] * 255)
         == 2 * LowTen(h) + 2048 * h[10] + 4096 * EightBits(l) + 0xFFF0_0000 * h[11]
  {
  }

  function ByteLimbs(h: Bits12, l: Byte8): Limbs {
    [Byte0(h), Byte1(h, l), Byte2(h, l), h[11] * 255]
  }

  /** The four byte expressions are bytes, and together the immediate modulo 2^32. */
  lemma {:induction false} BytesOfBits(h: Bits12, l: Byte8)
    requires AreBits(h) && AreBits(l)
    ensures AreBytes(ByteLimbs(h, l)) && Value(ByteLimbs(h, l)) == Wrap(Offset(FromBits(h), FromBits(l)))
  {
    hide *;
    LimbsSum(h, l);
    FromEight(l);
    OffsetSum(h, l);
    ValueToLimbs(ByteLimbs(h, l));
    SignedWraps(LowTen(h), h[10], h[11], FromBits(l), Value(ByteLimbs(h, l)));
  }

  lemma {:induction false} LimbsSum(h: Bits12, l: Byte8)
    requires AreBits(h) && AreBits(l)
    ensures AreBytes(ByteLimbs(h, l))
    ensures Value(ByteLimbs(h, l)) == 2 * LowTen(h) + 2048 * h[10] + 4096 * EightBits(l) + 0xFFF0_0000 * h[11]
  {
    BitBounds(h, l);
    BytesSum(h, l);
    hide Byte0, Byte1, Byte2, LowTen, AreBits, EightBits;
  }

  lemma {:induction false} OffsetSum(h: Bits12, l: Byte8)
    requires AreBits(h) && AreBits(l)
    ensures Offset(FromBits(h), FromBits(l)) == 2 * LowTen(h) + 2048 * h[10] + 4096 * FromBits(l) - 0x10_0000 * h[11]
  {
    BitBounds(h, l);
    hide LowTen, FromBits, AreBits, Offset;
    High12Groups(h);
    TenBits(h);
    OffsetParts(LowTen(h), h[10], h[11], FromBits(l));
  }

  lemma {:induction false} SignedWraps(a: int, b: int, sign: int, l: int, v: word)
    requires v == 2 * a + 2048 * b + 4096 * l + 0xFFF0_0000 * sign
    ensures Wrap(2 * a + 2048 * b + 4096 * l - 0x10_0000 * sign) == v
  {
    WrapIs(2 * a + 2048 * b + 4096 * l - 0x10_0000 * sign, -sign, v);
  }

  lemma {:induction false} BitBounds(h: Bits12, l: Byte8)
    requires AreBits(h) && AreBits(l)
    ensures IsByte(Byte0(h)) && IsByte(Byte1(h, l)) && IsByte(Byte2(h, l)) && IsByte(h[11] * 255)
    ensures 0 <= h[10] < 2 && 0 <= h[11] < 2
  {
    assert 0 <= h[0] <= 1 && 0 <= h[1] <= 1 && 0 <= h[2] <= 1 && 0 <= h[3] <= 1 && 0 <= h[4] <= 1 && 0 <= h[5] <= 1;
    assert 0 <= h[6] <= 1 && 0 <= h[7] <= 1 && 0 <= h[8] <= 1 && 0 <= h[9] <= 1 && 0 <= h[10] <= 1 && 0 <= h[11] <= 1;
    assert 0 <= l[0] <= 1 && 0 <= l[1] <= 1 && 0 <= l[2] <= 1 && 0 <= l[3] <= 1;
    assert 0 <= l[4] <= 1 && 0 <= l[5] <= 1 && 0 <= l[6] <= 1 && 0 <= l[7] <= 1;
  }

  lemma {:induction false} ByteForced(p: int, x: int, b: int)
    requires p > 256 && Residue(p, x) && IsByte(b) && Eq(p, x, b)
    ensures x == b
  {
    Lift(p, x - b);
  }

  lemma {:induction false} ImmediateForced(p: int, h: Bits12, l: Byte8, immJ: Limbs)
    requires LargePrime(p) && Residues(p, immJ) && AreBits(h) && AreBits(l) && ImmediateBytes(p, h, l, immJ)
    ensures AreBytes(immJ) && Value(immJ) == Wrap(Offset(FromBits(h), FromBits(l)))
  {
    BytesOfBits(h, l);
    BitBounds(h, l);
    hide Byte0, Byte1, Byte2, Value, FromBits, Offset, IsPrime, AreBits;
    ByteForced(p, immJ[0], Byte0(h));
    ByteForced(p, immJ[1], Byte1(h, l));
    ByteForced(p, immJ[2], Byte2(h, l));
    ByteForced(p, immJ[3], h[11] * 255);
    assert immJ == ByteLimbs(h, l);
  }

  /** The flag says whether rd is register 0. */
  lemma {:induction false} ZeroGadgetForced(p: int, rd: int, rdIsZero: int, rdInv: int)
    requires IsPrime(p) && Residue(p, rd) && Residue(p, rdIsZero) && ZeroGadget(p, rd, rdIsZero, rdInv)
    ensures rdIsZero == Flag(rd == 0)
  {
    BoolResidue(p, rdIsZero);
    if rd == 0 {
      assert rd * rdInv + rdIsZero - 1 == rdIsZero - 1;
      Lift(p, rdIsZero - 1);
    } else if rdIsZero == 1 {
      Lift(p, rd * 1);
    }
  }

  /**
   * Every accepted JAL row over byte addresses jumps by the signed offset of its immediate columns
   * modulo 2^32, links pc + 4, and marks rd = x0, whose write it does not send.
   */
  lemma {:induction false} JalSound(p: int, r: JalColumns)
    requires LargePrime(p) && JalResidues(p, r) && JalEval(p, r) && AreBytes(r.pc) && AreBytes(r.nextPc) && AreBytes(r.rdVal)
    ensures 0 <= r.immHigh12 < 4096 && 0 <= r.immLo8 < 256
    ensures AreBytes(r.immJ) && Value(r.immJ) == Wrap(Offset(r.immHigh12, r.immLo8))
    ensures Value(r.nextPc) == Wrap(Value(r.pc) + Offset(r.immHigh12, r.immLo8))
    ensures Value(r.rdVal) == Value(r.pc) + 4
    ensures r.rdIsZero == Flag(r.rd == 0)
  {
    SmallPowers();
    hide Value, FromBits, Offset, IsPrime, U32Add, U32PlusFour, ImmediateBytes, Decomposes, ZeroGadget, Pow2;
    DecompositionExact(p, r.immHigh12, r.high12Bits);
    DecompositionExact(p, r.immLo8, r.lo8Bits);
    ImmediateForced(p, r.high12Bits, r.lo8Bits, r.immJ);
    U32AddMeans(p, r.pc, r.immJ, r.nextPc, r.jmpCarries);
    WrapOfWrapped(Value(r.pc), Offset(r.immHigh12, r.immLo8));
    U32PlusFourMeans(p, r.pc, r.rdVal, r.rdValCarries);
    ZeroGadgetForced(p, r.rd, r.rdIsZero, r.rdInv);
  }

  /**
   * Without the assumption that next_pc limbs are bytes, a row over a byte pc jumps to the right
   * address in the field exactly when its top carry is the overflow, and to byte limbs exactly when
   * all its carries are.
   */
  lemma {:induction false} NextPcInFieldIff(p: int, r: JalColumns)
    requires LargePrime(p) && JalResidues(p, r) && JalEval(p, r) && AreBytes(r.pc) && Residues(p, r.nextPc)
    ensures 0 <= Value(r.pc) < TWO32
    ensures var offset := Offset(r.immHigh12, r.immLo8);
            && (Eq(p, Value(r.nextPc), Wrap(Value(r.pc) + offset))
                <==> r.jmpCarries[3] == Flag(Value(r.pc) + Wrap(offset) >= TWO32))
            && (AreBytes(r.nextPc) <==> r.jmpCarries == CarriesOf(r.pc, r.immJ, 0))
  {
    hide *;
    ImmediateOf(p, r);
    ValueToLimbs(r.pc);
    JumpIff(p, r.pc, r.immJ, r.nextPc, r.jmpCarries, Offset(r.immHigh12, r.immLo8));
  }

  lemma {:induction false} JumpIff(p: int, pc: Limbs, immJ: Limbs, nextPc: Limbs, carries: Limbs, offset: int)
    requires LargePrime(p) && U32Add(p, pc, immJ, nextPc, carries) && AreBytes(pc) && AreBytes(immJ) && Residues(p, nextPc)
    requires 0 <= Value(pc) < TWO32 && Value(immJ) == Wrap(offset)
    ensures Eq(p, Value(nextPc), Wrap(Value(pc) + offset)) <==> carries[3] == Flag(Value(pc) + Wrap(offset) >= TWO32)
    ensures AreBytes(nextPc) <==> carries == CarriesOf(pc, immJ, 0)
  {
    assert forall i :: 0 <= i < 4 ==> Residue(p, nextPc[i]);
    hide Value, IsPrime, Carry, AddLimb, Wrap;
    AddInFieldIff(p, pc, immJ, nextPc, carries);
    WrapOfWrapped(Value(pc), offset);
    BoolsForced(p, carries);
    CarriesDecideBytes(p, pc, immJ, nextPc, 0, carries);
    assert CarryOut(carries, 0) == carries[0] && CarryOut(carries, 1) == carries[1];
    assert CarryOut(carries, 2) == carries[2] && CarryOut(carries, 3) == carries[3];
  }

  lemma {:induction false} ImmediateOf(p: int, r: JalColumns)
    requires LargePrime(p) && JalResidues(p, r) && JalEval(p, r)
    ensures AreBytes(r.immJ) && Value(r.immJ) == Wrap(Offset(r.immHigh12, r.immLo8))
    ensures U32Add(p, r.pc, r.immJ, r.nextPc, r.jmpCarries)
  {
    DecompositionExact(p, r.immHigh12, r.high12Bits);
    DecompositionExact(p, r.immLo8, r.lo8Bits);
    hide Value, Bool, FromBits, Offset, ImmediateBytes, ZeroGadget, U32PlusFour, U32Add, IsPrime;
    ImmediateForced(p, r.high12Bits, r.lo8Bits, r.immJ);
  }

  /** jal x1, 8 at address 0 whose top carry is on: the sum does not overflow, and next_pc is 8 - 2^32 in the field. */
  ghost function StrayJump(p: int): JalColumns
    requires LargePrime(p)
  {
    FillJal(p, 0, 0, 1, 8, 4, 0).(nextPc := [8, 0, 0, p - 256], jmpCarries := [0, 0, 0, 1])
  }

  /** The row is accepted; its limbs are not bytes and its address is not 8. */
  lemma {:induction false} StrayJumpAccepted(p: int)
    requires LargePrime(p)
    ensures JalEval(p, StrayJump(p)) && Residues(p, StrayJump(p).nextPc)
    ensures AreBytes(StrayJump(p).pc) && AreBytes(StrayJump(p).rdVal)
    ensures !AreBytes(StrayJump(p).nextPc) && !Eq(p, Value(StrayJump(p).nextPc), 8)
  {
    assert Encodable(8) && p > 4;
    hide JalEval, FillJal, Encodable, IsPrime;
    JalComplete(p, 0, 0, 1, 8, 0);
    StrayColumns(p);
    StraySum(p);
    OtherSum(p, FillJal(p, 0, 0, 1, 8, 4, 0), [8, 0, 0, p - 256], [0, 0, 0, 1]);
  }

  lemma {:induction false} StrayColumns(p: int)
    requires LargePrime(p)
    ensures var r := FillJal(p, 0, 0, 1, 8, 4, 0);
            r.pc == [0, 0, 0, 0] && r.immJ == [8, 0, 0, 0]
  {
    hide Rescrambled, ToBits, Inverse, CarriesOf, PcPlus4Carries, IsPrime;
  }

  /** Only one constraint reads next_pc and its carries. */
  lemma {:induction false} OtherSum(p: int, r: JalColumns, nextPc: Limbs, carries: Limbs)
    requires p > 0 && JalEval(p, r) && U32Add(p, r.pc, r.immJ, nextPc, carries)
    ensures JalEval(p, r.(nextPc := nextPc, jmpCarries := carries))
  {
    hide Bool, ImmediateBytes, U32Add, U32PlusFour, ZeroGadget, FromBits;
  }

  lemma {:induction false} StraySum(p: int)
    requires LargePrime(p)
    ensures U32Add(p, [0, 0, 0, 0], [8, 0, 0, 0], [8, 0, 0, p - 256], [0, 0, 0, 1])
    ensures !Eq(p, Value([8, 0, 0, p - 256]), 8)
  {
    MultipleIsZero(p, 0);
    MultipleIsZero(p, 1);
    BoolsAccepted(p, [0, 0, 0, 1]);
    hide IsPrime;
    assert U32Add(p, [0, 0, 0, 0], [8, 0, 0, 0], [8, 0, 0, p - 256], [0, 0, 0, 1]);
    AddInFieldIff(p, [0, 0, 0, 0], [8, 0, 0, 0], [8, 0, 0, p - 256], [0, 0, 0, 1]);
  }

  lemma {:induction false} WrapOfWrapped(x: int, y: int)
    ensures Wrap(x + Wrap(y)) == Wrap(x + y)
  {
    var q, r := y / TWO32, y % TWO32;
    var q', r' := (x + r) / TWO32, (x + r) % TWO32;
    WrapIs(x + y, q + q', r');
  }

  // The trace builder.

  /** `fill_row` */
  ghost function FillJal(p: int, pc: word, timestamp: nat, rd: reg, imm: int, rdVal: word, oldRd: word): JalColumns
    requires LargePrime(p)
  {
    var (high12, lo8) := Rescrambled(imm);
    JalColumns(ToLimbs(pc), timestamp, rd, high12, lo8, ToBits(high12, 12), ToBits(lo8, 8),
               ToLimbs(Wrap(imm)), CarriesOf(ToLimbs(pc), ToLimbs(Wrap(imm)), 0),
               ToLimbs(rdVal), PcPlus4Carries(pc), ToLimbs(oldRd), ToLimbs(Wrap(pc + Wrap(imm))),
               Flag(rd == 0), if rd == 0 then 0 else Inverse(p, rd), 1)
  }

  lemma {:induction false} ImmediateAccepted(p: int, imm: int)
    requires p > 0 && Encodable(imm)
    ensures var (high12, lo8) := Rescrambled(imm);
            && Decomposes(p, high12, ToBits(high12, 12)) && Decomposes(p, lo8, ToBits(lo8, 8))
            && ImmediateBytes(p, ToBits(high12, 12), ToBits(lo8, 8), ToLimbs(Wrap(imm)))
  {
    var (high12, lo8) := Rescrambled(imm);
    EncodableIsOffset(imm);
    SmallPowers();
    hide Pow2, ToBits, FromBits, Rescrambled, Offset, Decomposes, ToLimbs, Value;
    DecompositionAccepted(p, high12, 12);
    DecompositionAccepted(p, lo8, 8);
    FromToBits(high12, 12);
    FromToBits(lo8, 8);
    BytesAccepted(p, ToBits(high12, 12), ToBits(lo8, 8), imm);
  }

  lemma {:induction false} BytesAccepted(p: int, h: Bits12, l: Byte8, imm: int)
    requires p > 0 && AreBits(h) && AreBits(l) && Offset(FromBits(h), FromBits(l)) == imm
    ensures ImmediateBytes(p, h, l, ToLimbs(Wrap(imm)))
  {
    hide FromBits, Offset, ToLimbs, Value, Byte0, Byte1, Byte2;
    BytesOfBits(h, l);
    ValueToLimbs(ByteLimbs(h, l));
    MultipleIsZero(p, 0);
  }

  lemma {:induction false} ZeroGadgetAccepted(p: int, rd: reg)
    requires LargePrime(p)
    ensures ZeroGadget(p, rd, Flag(rd == 0), if rd == 0 then 0 else Inverse(p, rd))
  {
    MultipleIsZero(p, 0);
    if rd != 0 {
      InverseHolds(p, rd);
      hide Inverse;
      assert rd * Flag(rd == 0) == 0;
    }
  }

  /** The JAL trace builder makes an accepted row of every encodable jump that links without overflow. */
  lemma {:induction false} JalComplete(p: int, pc: word, timestamp: nat, rd: reg, imm: int, oldRd: word)
    requires LargePrime(p) && pc + 4 < TWO32 && Encodable(imm)
    ensures var r := FillJal(p, pc, timestamp, rd, imm, pc + 4, oldRd);
            JalEval(p, r) && AreBytes(r.pc) && AreBytes(r.nextPc) && AreBytes(r.rdVal)
  {
    hide Rescrambled, ToBits, ToLimbs, Wrap, Inverse, Carry, Bool, Zero, Decomposes, ImmediateBytes, U32Add, U32PlusFour, ZeroGadget,
         PcPlus4Carries, IsPrime, Value;
    ToLimbsValue(pc);
    ToLimbsValue(pc + 4);
    ToLimbsValue(Wrap(pc + Wrap(imm)));
    ImmediateAccepted(p, imm);
    AddWitness(p, pc, Wrap(imm));
    PlusFourWitness(p, pc);
    ZeroGadgetAccepted(p, rd);
    BitIsBool(p, 1);
  }
}
