/** The decode table: one-hot flags over the bits of an instruction word. */
module Decode {
  import opened Division
  import opened Words
  import opened PrimeField
  import opened Rv32
  import opened U32Ops
  import opened Bits

  // The instruction identifiers and the fields that fix them; -1 stands for a free field.

  const NUM_IDS := 23

  function OpcodeOf(id: int): int {
    if 4 <= id <= 11 || id == 15 || id == 16 then 0x33
    else if id == 19 then 0x37
    else if id == 20 then 0x17
    else if id == 21 then 0x6F
    else if id == 22 then 0x67
    else 0x13
  }

  function Funct3Of(id: int): int {
    if id == 0 || id == 4 || id == 5 || id == 22 then 0
    else if id == 9 || id == 12 then 1
    else if id == 15 || id == 17 then 2
    else if id == 16 || id == 18 then 3
    else if id == 1 || id == 6 then 4
    else if id == 10 || id == 11 || id == 13 || id == 14 then 5
    else if id == 2 || id == 7 then 6
    else if id == 3 || id == 8 then 7
    else -1
  }

  function Funct7Of(id: int): int {
    if id == 5 || id == 11 || id == 14 then 32
    else if 4 <= id <= 13 || id == 15 || id == 16 then 0
    else -1
  }

  /** `InstructionId` of a decoded instruction. */
  function Id(i: Instruction): (id: nat)
    ensures id < NUM_IDS
  {
    match i
    case AddI(_, _, _) => 0
    case XorI(_, _, _) => 1
    case OriI(_, _, _) => 2
    case AndiI(_, _, _) => 3
    case Add(_, _, _) => 4
    case Sub(_, _, _) => 5
    case Xor(_, _, _) => 6
    case Or(_, _, _) => 7
    case And(_, _, _) => 8
    case Sll(_, _, _) => 9
    case Srl(_, _, _) => 10
    case Sra(_, _, _) => 11
    case SlliI(_, _, _) => 12
    case SrliI(_, _, _) => 13
    case SraiI(_, _, _) => 14
    case Slt(_, _, _) => 15
    case Sltu(_, _, _) => 16
    case SltiI(_, _, _) => 17
    case SltiuI(_, _, _) => 18
    case Lui(_, _) => 19
    case Auipc(_, _) => 20
    case Jal(_, _) => 21
    case Jalr(_, _, _) => 22
  }

  /** The flag test of the witness filler for one identifier. */
  predicate Matches(id: int, w: word) {
    && Opcode(w) == OpcodeOf(id)
    && (Funct3Of(id) >= 0 ==> Funct3(w) == Funct3Of(id))
    && (Funct7Of(id) >= 0 ==> Funct7(w) == Funct7Of(id))
  }

  /** The first decoder that matches names the instruction: the if-chain on three fields. */
  function IdOfFields(opcode: int, funct3: int, funct7: int): int {
    if opcode == 0x13 && funct3 == 0 then 0
    else if opcode == 0x13 && funct3 == 4 then 1
    else if opcode == 0x13 && funct3 == 6 then 2
    else if opcode == 0x13 && funct3 == 7 then 3
    else if opcode == 0x13 && funct3 == 1 && funct7 == 0 then 12
    else if opcode == 0x13 && funct3 == 5 && funct7 == 0 then 13
    else if opcode == 0x13 && funct3 == 5 && funct7 == 32 then 14
    else if opcode == 0x33 && funct3 == 0 && funct7 == 0 then 4
    else if opcode == 0x33 && funct3 == 0 && funct7 == 32 then 5
    else if opcode == 0x33 && funct3 == 4 && funct7 == 0 then 6
    else if opcode == 0x33 && funct3 == 6 && funct7 == 0 then 7
    else if opcode == 0x33 && funct3 == 7 && funct7 == 0 then 8
    else if opcode == 0x33 && funct3 == 1 && funct7 == 0 then 9
    else if opcode == 0x33 && funct3 == 5 && funct7 == 0 then 10
    else if opcode == 0x33 && funct3 == 5 && funct7 == 32 then 11
    else if opcode == 0x33 && funct3 == 2 && funct7 == 0 then 15
    else if opcode == 0x33 && funct3 == 3 && funct7 == 0 then 16
    else if opcode == 0x13 && funct3 == 2 then 17
    else if opcode == 0x13 && funct3 == 3 then 18
    else if opcode == 0x37 then 19
    else if opcode == 0x17 then 20
    else if opcode == 0x6F then 21
    else if opcode == 0x67 && funct3 == 0 then 22
    else -1
  }

  lemma {:induction false} ChainIsFields(w: word)
    ensures DecodeInstruction(w).Some? <==> IdOfFields(Opcode(w), Funct3(w), Funct7(w)) >= 0
    ensures DecodeInstruction(w).Some? ==> Id(DecodeInstruction(w).value) == IdOfFields(Opcode(w), Funct3(w), Funct7(w))
  {
    hide Opcode, Funct3, Funct7, ImmI, ImmU, ImmJ, RdField, Rs1Field, Rs2Field;
  }

  lemma {:induction false} FieldsMatch(opcode: int, funct3: int, funct7: int, id: nat)
    requires id < NUM_IDS
    ensures IdOfFields(opcode, funct3, funct7) == id
       <==> (&& opcode == OpcodeOf(id) && (Funct3Of(id) >= 0 ==> funct3 == Funct3Of(id))
             && (Funct7Of(id) >= 0 ==> funct7 == Funct7Of(id)))
  {
  }

  /** The if-chain of the machine and the independent flag tests of the filler name the same instruction. */
  lemma {:induction false} DecodersAgree(w: word, id: nat)
    requires id < NUM_IDS
    ensures Matches(id, w) <==> DecodeInstruction(w).Some? && Id(DecodeInstruction(w).value) == id
  {
    ChainIsFields(w);
    FieldsMatch(Opcode(w), Funct3(w), Funct7(w), id);
    hide Opcode, Funct3, Funct7, IdOfFields, DecodeInstruction, OpcodeOf, Funct3Of, Funct7Of, Id;
  }

  // The table.

  type Byte8 = s: seq<int> | |s| == 8
    witness [0, 0, 0, 0, 0, 0, 0, 0]

  type Flags = s: seq<int> | |s| == 23
    witness [0, 0, 0, 0, 0, 0, 0, 0, 0, 0, 0, 0, 0, 0, 0, 0, 0, 0, 0, 0, 0, 0, 0]

  /** The bits of the four instruction bytes. */
  datatype Decompositions = Decompositions(b0: Byte8, b1: Byte8, b2: Byte8, b3: Byte8)

  datatype DecodeColumns = DecodeColumns(
    pc: Limbs, instruction: Limbs, decompositions: Decompositions, flags: Flags, packed: int,
    rd: int, rs1: int, imm: int, rs2: int, immLow8: int, mult: int)

  function FlagSum(flags: Flags, n: nat): int
    requires n <= NUM_IDS
  {
    if n == 0 then 0 else FlagSum(flags, n - 1) + flags[n - 1]
  }

  /** The sum of the flags that share an opcode. */
  function GroupSum(flags: Flags, opcode: int, n: nat): int
    requires n <= NUM_IDS
  {
    if n == 0 then 0 else GroupSum(flags, opcode, n - 1) + if OpcodeOf(n - 1) == opcode then flags[n - 1] else 0
  }

  function PackedSum(flags: Flags, n: nat): int
    requires n <= NUM_IDS
  {
    if n == 0 then 0 else PackedSum(flags, n - 1) + flags[n - 1] * (n - 1)
  }

  ghost predicate FlagConstraints(p: int, flags: Flags)
    requires p > 0
  {
    (forall id :: 0 <= id < NUM_IDS ==> Bool(p, flags[id])) && Eq(p, FlagSum(flags, NUM_IDS), 1)
  }

  /** Under the condition, the bits are those of the constant v. */
  predicate BitsWhen(p: int, condition: int, bits: seq<int>, v: nat)
    requires p > 0
  {
    forall i :: 0 <= i < |bits| ==> Zero(p, condition * (bits[i] - ToBits(v, |bits|)[i]))
  }

  predicate OpcodeGroup(p: int, flags: Flags, opcode: nat, b0: Byte8)
    requires p > 0
  {
    BitsWhen(p, GroupSum(flags, opcode, NUM_IDS), b0[..7], opcode)
  }

  predicate FieldConstraints(p: int, flags: Flags, d: Decompositions)
    requires p > 0
  {
    && OpcodeGroup(p, flags, 0x13, d.b0) && OpcodeGroup(p, flags, 0x33, d.b0)
    && OpcodeGroup(p, flags, 0x6F, d.b0) && OpcodeGroup(p, flags, 0x67, d.b0)
    && OpcodeGroup(p, flags, 0x37, d.b0) && OpcodeGroup(p, flags, 0x17, d.b0)
    && (forall id :: 0 <= id < NUM_IDS && Funct3Of(id) >= 0 ==> BitsWhen(p, flags[id], d.b1[4..7], Funct3Of(id)))
    && (forall id :: 0 <= id < NUM_IDS && Funct7Of(id) >= 0 ==> BitsWhen(p, flags[id], d.b3[1..8], Funct7Of(id)))
  }

  // `pack_bits` over fixed positions.

  function PackLow8(d: Decompositions): int {
    FromBits([d.b1[4], d.b1[5], d.b1[6], d.b1[7], d.b2[0], d.b2[1], d.b2[2], d.b2[3]])
  }

  function PackRd(d: Decompositions): int {
    FromBits([d.b0[7], d.b1[0], d.b1[1], d.b1[2], d.b1[3]])
  }

  function PackRs1(d: Decompositions): int {
    FromBits([d.b1[7], d.b2[0], d.b2[1], d.b2[2], d.b2[3]])
  }

  function PackImm(d: Decompositions): int {
    FromBits([d.b2[4], d.b2[5], d.b2[6], d.b2[7], d.b3[0], d.b3[1], d.b3[2], d.b3[3], d.b3[4], d.b3[5], d.b3[6], d.b3[7]])
  }

  function PackRs2(d: Decompositions): int {
    FromBits([d.b2[4], d.b2[5], d.b2[6], d.b2[7], d.b3[0]])
  }

  predicate OperandConstraints(p: int, r: DecodeColumns)
    requires p > 0
  {
    && Eq(p, r.rd, PackRd(r.decompositions)) && Eq(p, r.rs1, PackRs1(r.decompositions))
    && Eq(p, r.imm, PackImm(r.decompositions)) && Eq(p, r.rs2, PackRs2(r.decompositions))
  }

  function UOrJal(flags: Flags): int {
    flags[19] + flags[20] + flags[21]
  }

  predicate Low8Constraints(p: int, flags: Flags, immLow8: int, d: Decompositions)
    requires p > 0
  {
    && Zero(p, UOrJal(flags) * (immLow8 - PackLow8(d)))
    && Zero(p, immLow8 * (1 - UOrJal(flags)))
  }

  predicate ByteConstraints(p: int, instruction: Limbs, d: Decompositions)
    requires p > 0
  {
    && Decomposes(p, instruction[0], d.b0) && Decomposes(p, instruction[1], d.b1)
    && Decomposes(p, instruction[2], d.b2) && Decomposes(p, instruction[3], d.b3)
  }

  ghost predicate DecodeEval(p: int, r: DecodeColumns)
    requires p > 0
  {
    && FlagConstraints(p, r.flags) && ByteConstraints(p, r.instruction, r.decompositions)
    && FieldConstraints(p, r.flags, r.decompositions) && OperandConstraints(p, r)
    && Low8Constraints(p, r.flags, r.immLow8, r.decompositions)
    && Eq(p, r.packed, PackedSum(r.flags, NUM_IDS))
  }

  ghost predicate DecodeResidues(p: int, r: DecodeColumns) {
    && (forall i :: 0 <= i < 4 ==> Residue(p, r.instruction[i]))
    && Residues(p, r.decompositions.b0) && Residues(p, r.decompositions.b1)
    && Residues(p, r.decompositions.b2) && Residues(p, r.decompositions.b3)
    && Residues(p, r.flags) && Residue(p, r.packed) && Residue(p, r.rd) && Residue(p, r.rs1)
    && Residue(p, r.imm) && Residue(p, r.rs2) && Residue(p, r.immLow8)
  }

  // The bits of the word.

  function Bits32(d: Decompositions): seq<int> {
    d.b0 + d.b1 + d.b2 + d.b3
  }

  ghost predicate AllBits(d: Decompositions) {
    AreBits(d.b0) && AreBits(d.b1) && AreBits(d.b2) && AreBits(d.b3)
  }

  lemma {:induction false} SmallPowers()
    ensures Pow2(3) == 8 && Pow2(5) == 32 && Pow2(7) == 128 && Pow2(8) == 256 && Pow2(12) == 4096
    ensures Pow2(15) == 32768 && Pow2(20) == 0x10_0000 && Pow2(25) == 0x200_0000
  {
    assert Pow2(3) == 8 && Pow2(5) == 32 && Pow2(7) == 128;
    assert Pow2(8) == 256;
    Pow2Sum(7, 5);
    Pow2Sum(12, 3);
    Pow2Sum(15, 5);
    Pow2Sum(20, 5);
  }

  lemma {:induction false} FromBits32(d: Decompositions)
    ensures FromBits(Bits32(d)) == Value([FromBits(d.b0), FromBits(d.b1), FromBits(d.b2), FromBits(d.b3)])
  {
    SmallPowers();
    hide FromBits, Pow2;
    FromBitsAppend(d.b0 + d.b1 + d.b2, d.b3);
    FromBitsAppend(d.b0 + d.b1, d.b2);
    FromBitsAppend(d.b0, d.b1);
    Pow2Sum(8, 8);
    Pow2Sum(16, 8);
  }

  lemma {:induction false} Bits32AreBits(d: Decompositions)
    requires AllBits(d)
    ensures AreBits(Bits32(d))
  {
  }

  /** The fields of the word, from its bits. */
  lemma {:induction false} WordFields(d: Decompositions, w: word)
    requires AllBits(d) && w == FromBits(Bits32(d))
    ensures Opcode(w) == FromBits(d.b0[..7]) && Funct3(w) == FromBits(d.b1[4..7]) && Funct7(w) == FromBits(d.b3[1..8])
  {
    SmallPowers();
    Bits32AreBits(d);
    assert Bits32(d)[0..7] == d.b0[..7] && Bits32(d)[12..15] == d.b1[4..7] && Bits32(d)[25..32] == d.b3[1..8];
    FieldOfBits(Bits32(d), 0, 7);
    FieldOfBits(Bits32(d), 12, 15);
    FieldOfBits(Bits32(d), 25, 32);
    assert Pow2(0) == 1;
    hide FromBits, Pow2, AreBits, Bits32;
    assert w / 1 == w;
  }

  lemma {:induction false} RdSlice(d: Decompositions)
    ensures Bits32(d)[7..12] == [d.b0[7], d.b1[0], d.b1[1], d.b1[2], d.b1[3]]
  {
  }

  lemma {:induction false} Rs1Slice(d: Decompositions)
    ensures Bits32(d)[15..20] == [d.b1[7], d.b2[0], d.b2[1], d.b2[2], d.b2[3]]
  {
  }

  lemma {:induction false} Rs2Slice(d: Decompositions)
    ensures Bits32(d)[20..25] == [d.b2[4], d.b2[5], d.b2[6], d.b2[7], d.b3[0]]
  {
  }

  lemma {:induction false} Low8Slice(d: Decompositions)
    ensures Bits32(d)[12..20] == [d.b1[4], d.b1[5], d.b1[6], d.b1[7], d.b2[0], d.b2[1], d.b2[2], d.b2[3]]
  {
  }

  lemma {:induction false} ImmSlice(d: Decompositions)
    ensures Bits32(d)[20..32]
         == [d.b2[4], d.b2[5], d.b2[6], d.b2[7], d.b3[0], d.b3[1], d.b3[2], d.b3[3], d.b3[4], d.b3[5], d.b3[6], d.b3[7]]
  {
    assert Bits32(d)[20..32] == d.b2[4..8] + d.b3;
    assert d.b2[4..8] == [d.b2[4], d.b2[5], d.b2[6], d.b2[7]];
    assert d.b3 == [d.b3[0], d.b3[1], d.b3[2], d.b3[3], d.b3[4], d.b3[5], d.b3[6], d.b3[7]];
  }

  lemma {:induction false} WordOperands(d: Decompositions, w: word)
    requires AllBits(d) && w == FromBits(Bits32(d))
    ensures PackRd(d) == RdField(w) && PackRs1(d) == Rs1Field(w) && PackRs2(d) == Rs2Field(w)
  {
    SmallPowers();
    Bits32AreBits(d);
    RdSlice(d);
    Rs1Slice(d);
    Rs2Slice(d);
    hide FromBits, Pow2, AreBits, AllBits;
    assert |Bits32(d)| == 32;
    hide Bits32;
    FieldOfBits(Bits32(d), 7, 12);
    FieldOfBits(Bits32(d), 15, 20);
    FieldOfBits(Bits32(d), 20, 25);
  }

  lemma {:induction false} TopTwelve(w: word)
    ensures (w / 0x10_0000) % 4096 == w / 0x10_0000
  {
  }

  lemma {:induction false} WordImm(d: Decompositions, w: word)
    requires AllBits(d) && w == FromBits(Bits32(d))
    ensures PackImm(d) == w / 0x10_0000
  {
    SmallPowers();
    Bits32AreBits(d);
    ImmSlice(d);
    TopTwelve(w);
    hide FromBits, Pow2, AreBits, AllBits;
    assert |Bits32(d)| == 32;
    hide Bits32;
    FieldOfBits(Bits32(d), 20, 32);
  }

  lemma {:induction false} WordLow8(d: Decompositions, w: word)
    requires AllBits(d) && w == FromBits(Bits32(d))
    ensures PackLow8(d) == (w / 4096) % 256
  {
    SmallPowers();
    Bits32AreBits(d);
    Low8Slice(d);
    hide FromBits, Pow2, AreBits, AllBits;
    assert |Bits32(d)| == 32;
    hide Bits32;
    FieldOfBits(Bits32(d), 12, 20);
  }

  // Soundness.

  lemma {:induction false} BytesForced(p: int, r: DecodeColumns)
    requires LargePrime(p) && DecodeResidues(p, r) && ByteConstraints(p, r.instruction, r.decompositions)
    ensures AllBits(r.decompositions) && AreBytes(r.instruction)
    ensures 0 <= Value(r.instruction) < TWO32 && Value(r.instruction) == FromBits(Bits32(r.decompositions))
  {
    SmallPowers();
    var d := r.decompositions;
    FromBits32(d);
    hide Pow2, FromBits, IsPrime, Decomposes;
    DecompositionExact(p, r.instruction[0], d.b0);
    DecompositionExact(p, r.instruction[1], d.b1);
    DecompositionExact(p, r.instruction[2], d.b2);
    DecompositionExact(p, r.instruction[3], d.b3);
    assert r.instruction == [FromBits(d.b0), FromBits(d.b1), FromBits(d.b2), FromBits(d.b3)];
    hide Bits32;
    ValueToLimbs(r.instruction);
  }

  /** Flag id is the only one on. */
  predicate OneHot(flags: Flags, id: int) {
    0 <= id < NUM_IDS && forall k :: 0 <= k < NUM_IDS ==> flags[k] == if k == id then 1 else 0
  }

  lemma {:induction false} FlagSumBound(flags: Flags, n: nat)
    requires n <= NUM_IDS && forall k :: 0 <= k < NUM_IDS ==> flags[k] == 0 || flags[k] == 1
    ensures 0 <= FlagSum(flags, n) <= n
    ensures FlagSum(flags, n) == 0 ==> forall k :: 0 <= k < n ==> flags[k] == 0
  {
    if n > 0 {
      FlagSumBound(flags, n - 1);
    }
  }

  lemma {:induction false} FlagSumOne(flags: Flags, n: nat) returns (id: int)
    requires n <= NUM_IDS && forall k :: 0 <= k < NUM_IDS ==> flags[k] == 0 || flags[k] == 1
    requires FlagSum(flags, n) == 1
    ensures 0 <= id < n && forall k :: 0 <= k < n ==> flags[k] == if k == id then 1 else 0
  {
    FlagSumBound(flags, n - 1);
    if flags[n - 1] == 1 {
      id := n - 1;
    } else {
      id := FlagSumOne(flags, n - 1);
    }
  }

  lemma {:induction false} OneFlag(p: int, flags: Flags) returns (id: int)
    requires LargePrime(p) && Residues(p, flags) && FlagConstraints(p, flags)
    ensures OneHot(flags, id)
  {
    forall k | 0 <= k < NUM_IDS ensures flags[k] == 0 || flags[k] == 1 {
      BoolResidue(p, flags[k]);
    }
    FlagSumBound(flags, NUM_IDS);
    hide FlagSum;
    Lift(p, FlagSum(flags, NUM_IDS) - 1);
    id := FlagSumOne(flags, NUM_IDS);
  }

  lemma {:induction false} GroupOfOneHot(flags: Flags, id: int, opcode: int, n: nat)
    requires OneHot(flags, id) && n <= NUM_IDS
    ensures GroupSum(flags, opcode, n) == if id < n && OpcodeOf(id) == opcode then 1 else 0
  {
    hide OpcodeOf;
    if n > 0 {
      GroupOfOneHot(flags, id, opcode, n - 1);
    }
  }

  lemma {:induction false} PackedOfOneHot(flags: Flags, id: int, n: nat)
    requires OneHot(flags, id) && n <= NUM_IDS
    ensures PackedSum(flags, n) == if id < n then id else 0
  {
    if n > 0 {
      PackedOfOneHot(flags, id, n - 1);
    }
  }

  /** Bits that agree with a constant under a condition that is on form that constant. */
  lemma {:induction false} BitsForced(p: int, bits: seq<int>, v: nat)
    requires p > 2 && AreBits(bits) && BitsWhen(p, 1, bits, v) && v < Pow2(|bits|)
    ensures FromBits(bits) == v
  {
    var expected := ToBits(v, |bits|);
    forall i | 0 <= i < |bits| ensures bits[i] == expected[i] {
      assert Zero(p, 1 * (bits[i] - expected[i]));
      Lift(p, 1 * (bits[i] - expected[i]));
    }
    assert bits == expected;
    FromToBits(v, |bits|);
  }

  lemma {:induction false} OpcodeGroupOf(p: int, flags: Flags, d: Decompositions, id: int)
    requires p > 2 && OneHot(flags, id) && FieldConstraints(p, flags, d)
    ensures 0 <= OpcodeOf(id) < 128 && OpcodeGroup(p, flags, OpcodeOf(id), d.b0)
  {
    hide OpcodeGroup, BitsWhen;
  }

  lemma {:induction false} OpcodeForced(p: int, flags: Flags, d: Decompositions, id: int)
    requires p > 2 && AllBits(d) && OneHot(flags, id) && FieldConstraints(p, flags, d)
    ensures FromBits(d.b0[..7]) == OpcodeOf(id)
  {
    SmallPowers();
    hide FieldConstraints, GroupSum, Pow2, OpcodeOf;
    OpcodeGroupOf(p, flags, d, id);
    GroupOfOneHot(flags, id, OpcodeOf(id), NUM_IDS);
    BitsForced(p, d.b0[..7], OpcodeOf(id));
  }

  lemma {:induction false} FunctForced(p: int, flags: Flags, d: Decompositions, id: int)
    requires p > 2 && AllBits(d) && OneHot(flags, id) && FieldConstraints(p, flags, d)
    ensures Funct3Of(id) >= 0 ==> FromBits(d.b1[4..7]) == Funct3Of(id)
    ensures Funct7Of(id) >= 0 ==> FromBits(d.b3[1..8]) == Funct7Of(id)
  {
    SmallPowers();
    assert flags[id] == 1;
    if Funct3Of(id) >= 0 {
      assert BitsWhen(p, flags[id], d.b1[4..7], Funct3Of(id));
      hide FieldConstraints, Pow2, OneHot;
      BitsForced(p, d.b1[4..7], Funct3Of(id));
    }
    if Funct7Of(id) >= 0 {
      assert BitsWhen(p, flags[id], d.b3[1..8], Funct7Of(id));
      hide FieldConstraints, Pow2, OneHot;
      BitsForced(p, d.b3[1..8], Funct7Of(id));
    }
  }

  lemma {:induction false} ForcedMatches(p: int, flags: Flags, d: Decompositions, id: int, w: word)
    requires p > 2 && AllBits(d) && OneHot(flags, id) && FieldConstraints(p, flags, d)
    requires w == FromBits(Bits32(d))
    ensures Matches(id, w)
  {
    hide FieldConstraints, OneHot, Funct3Of, Funct7Of, OpcodeOf, Bits32, FromBits, Opcode, Funct3, Funct7;
    OpcodeForced(p, flags, d, id);
    FunctForced(p, flags, d, id);
    WordFields(d, w);
  }

  /** A 12-bit field read as a signed number. */
  function SignExtend12(x: int): int {
    if x >= 2048 then x - 4096 else x
  }

  lemma {:induction false} ImmIIsSigned(w: word)
    ensures ImmI(w) == SignExtend12(w / 0x10_0000)
  {
  }

  lemma {:induction false} ImmUIsUpper(w: word)
    ensures ImmU(w) == (w / 0x10_0000) * 256 + (w / 4096) % 256
  {
    UpperTwenty(w);
    UpperSplits(w);
  }

  lemma {:induction false} UpperTwenty(w: word)
    ensures ImmU(w) == w / 4096
  {
    var q := w / 4096;
    if w >= TWO31 {
      assert (w - TWO32) / 4096 == q - 0x10_0000;
      RemainderUnique(0x10_0000, -1, q);
    }
  }

  lemma {:induction false} UpperSplits(w: word)
    ensures w / 4096 == (w / 0x10_0000) * 256 + (w / 4096) % 256
  {
    assert w / 0x10_0000 == (w / 4096) / 256;
  }

  predicate UsesLow8(i: Instruction) {
    IsUType(i) || i.Jal?
  }

  predicate IsShiftImm(i: Instruction) {
    i.SlliI? || i.SrliI? || i.SraiI?
  }

  /** The operand columns of the table are the operands of the instruction. */
  predicate OperandsAre(i: Instruction, rd: int, rs1: int, imm: int, rs2: int, immLow8: int) {
    && i.rd == rd
    && (!UsesLow8(i) ==> i.rs1 == rs1 && immLow8 == 0)
    && (IsRType(i) ==> i.rs2 == rs2)
    && (IsShiftImm(i) ==> i.imm == rs2)
    && (IsUType(i) ==> i.imm == imm * 256 + immLow8)
    && (!UsesLow8(i) && !IsRType(i) && !IsShiftImm(i) ==> 0 <= imm < 4096 && i.imm == SignExtend12(imm))
  }

  lemma {:induction false} DecodedOperands(w: word)
    requires DecodeInstruction(w).Some?
    ensures var i := DecodeInstruction(w).value;
            OperandsAre(i, RdField(w), Rs1Field(w), w / 0x10_0000, Rs2Field(w), if UsesLow8(i) then (w / 4096) % 256 else 0)
  {
    ImmIIsSigned(w);
    ImmUIsUpper(w);
    hide ImmI, ImmU, ImmJ, RdField, Rs1Field, Rs2Field, Opcode, Funct3, Funct7, SignExtend12;
  }

  lemma {:induction false} Low8Flags(i: Instruction)
    ensures UsesLow8(i) <==> Id(i) == 19 || Id(i) == 20 || Id(i) == 21
  {
  }

  lemma {:induction false} UOrJalOf(flags: Flags, id: int)
    requires OneHot(flags, id)
    ensures UOrJal(flags) == if id == 19 || id == 20 || id == 21 then 1 else 0
  {
  }

  lemma {:induction false} Low8Forced(p: int, flags: Flags, immLow8: int, d: Decompositions, id: int)
    requires p > 256 && Residue(p, immLow8) && OneHot(flags, id) && Low8Constraints(p, flags, immLow8, d)
    requires 0 <= PackLow8(d) < 256
    ensures immLow8 == if id == 19 || id == 20 || id == 21 then PackLow8(d) else 0
  {
    UOrJalOf(flags, id);
    hide OneHot, PackLow8, UOrJal;
    if UOrJal(flags) == 1 {
      Lift(p, 1 * (immLow8 - PackLow8(d)));
    } else {
      Lift(p, immLow8 * (1 - 0));
    }
  }

  lemma {:induction false} OperandsForced(p: int, r: DecodeColumns, w: word)
    requires LargePrime(p) && DecodeResidues(p, r) && OperandConstraints(p, r)
    requires AllBits(r.decompositions) && w == FromBits(Bits32(r.decompositions))
    ensures r.rd == RdField(w) && r.rs1 == Rs1Field(w) && r.rs2 == Rs2Field(w) && r.imm == w / 0x10_0000
  {
    var d := r.decompositions;
    WordOperands(d, w);
    WordImm(d, w);
    hide PackRd, PackRs1, PackRs2, PackImm, AllBits, Bits32, FromBits, IsPrime, Residues;
    Lift(p, r.rd - PackRd(d));
    Lift(p, r.rs1 - PackRs1(d));
    Lift(p, r.rs2 - PackRs2(d));
    Lift(p, r.imm - PackImm(d));
  }

  /** What a decode row says about the word its bytes form. */
  ghost predicate Decodes(r: DecodeColumns, w: word) {
    && DecodeInstruction(w).Some?
    && var i := DecodeInstruction(w).value;
       OneHot(r.flags, Id(i)) && r.packed == Id(i) && OperandsAre(i, r.rd, r.rs1, r.imm, r.rs2, r.immLow8)
  }

  /**
   * Every accepted decode row has exactly one flag on, its bytes form a word that the machine decodes
   * to the instruction of that flag, and its operand columns are the operands of that instruction.
   */
  lemma {:induction false} DecodeSound(p: int, r: DecodeColumns)
    requires LargePrime(p) && DecodeResidues(p, r) && DecodeEval(p, r)
    ensures AreBytes(r.instruction) && 0 <= Value(r.instruction) < TWO32 && Decodes(r, Value(r.instruction))
    ensures r.imm == Value(r.instruction) / 0x10_0000
  {
    BytesForced(p, r);
    var d, w := r.decompositions, Value(r.instruction);
    hide Value, FromBits, Bits32, AllBits, ByteConstraints, DecodeInstruction, FieldConstraints, OperandsAre, IsPrime,
         OperandConstraints, Low8Constraints, Matches, PackedSum, FlagConstraints, Residues, PackLow8, OneHot;
    var id := OneFlag(p, r.flags);
    HotIndex(r.flags, id);
    ForcedMatches(p, r.flags, d, id, w);
    DecodersAgree(w, id);
    var i := DecodeInstruction(w).value;
    PackedForced(p, r, id);
    WordLow8(d, w);
    Low8Forced(p, r.flags, r.immLow8, d, id);
    OperandsForced(p, r, w);
    Low8Flags(i);
    DecodedOperands(w);
  }

  lemma {:induction false} HotIndex(flags: Flags, id: int)
    requires OneHot(flags, id)
    ensures 0 <= id < NUM_IDS
  {
  }

  lemma {:induction false} PackedForced(p: int, r: DecodeColumns, id: int)
    requires LargePrime(p) && Residue(p, r.packed) && OneHot(r.flags, id) && Eq(p, r.packed, PackedSum(r.flags, NUM_IDS))
    ensures r.packed == id
  {
    PackedOfOneHot(r.flags, id, NUM_IDS);
    hide PackedSum, OneHot, IsPrime;
    HotIndex(r.flags, id);
    Lift(p, r.packed - id);
  }

  // Completeness.

  function FlagsOf(w: word): Flags {
    seq(23, id requires 0 <= id < 23 => Flag(Matches(id, w)))
  }

  function ByteBits(w: word, k: nat): Byte8
    requires k < 4
  {
    ToLimbsValue(w);
    ToBits(ToLimbs(w)[k], 8)
  }

  /** `fill_row` */
  function FillDecode(pc: word, w: word): DecodeColumns {
    var low8 := Matches(19, w) || Matches(20, w) || Matches(21, w);
    DecodeColumns(ToLimbs(pc), ToLimbs(w), Decompositions(ByteBits(w, 0), ByteBits(w, 1), ByteBits(w, 2), ByteBits(w, 3)),
                  FlagsOf(w), PackedOf(w), RdField(w), Rs1Field(w), w / 0x10_0000, Rs2Field(w),
                  if low8 then (w / 4096) % 256 else 0, 1)
  }

  /** The if-chain of the filler over its flags, ADDI last. */
  function PackedOf(w: word): int {
    if Matches(1, w) then 1 else if Matches(2, w) then 2 else if Matches(3, w) then 3 else if Matches(4, w) then 4
    else if Matches(5, w) then 5 else if Matches(6, w) then 6 else if Matches(7, w) then 7 else if Matches(8, w) then 8
    else if Matches(9, w) then 9 else if Matches(10, w) then 10 else if Matches(11, w) then 11
    else if Matches(12, w) then 12 else if Matches(13, w) then 13 else if Matches(14, w) then 14
    else if Matches(15, w) then 15 else if Matches(16, w) then 16 else if Matches(17, w) then 17
    else if Matches(18, w) then 18 else if Matches(19, w) then 19 else if Matches(20, w) then 20
    else if Matches(21, w) then 21 else if Matches(22, w) then 22 else 0
  }

  lemma {:induction false} FilledBits(w: word)
    ensures var d := FillDecode(0, w).decompositions; AllBits(d) && FromBits(Bits32(d)) == w
  {
    var d := FillDecode(0, w).decompositions;
    ToLimbsValue(w);
    SmallPowers();
    FromBits32(d);
    hide FromBits, Bits32, ToBits, Pow2, PackedOf, FlagsOf, Matches;
    FromToBits(ToLimbs(w)[0], 8);
    FromToBits(ToLimbs(w)[1], 8);
    FromToBits(ToLimbs(w)[2], 8);
    FromToBits(ToLimbs(w)[3], 8);
    assert [FromBits(d.b0), FromBits(d.b1), FromBits(d.b2), FromBits(d.b3)] == ToLimbs(w);
  }

  lemma {:induction false} FilledBytes(p: int, pc: word, w: word)
    requires p > 0
    ensures var r := FillDecode(pc, w); ByteConstraints(p, r.instruction, r.decompositions)
  {
    ToLimbsValue(w);
    SmallPowers();
    hide ToLimbs, ToBits, Pow2, PackedOf, FlagsOf, Matches, Decomposes;
    DecompositionAccepted(p, ToLimbs(w)[0], 8);
    DecompositionAccepted(p, ToLimbs(w)[1], 8);
    DecompositionAccepted(p, ToLimbs(w)[2], 8);
    DecompositionAccepted(p, ToLimbs(w)[3], 8);
  }

  lemma {:induction false} FilledFlags(w: word)
    requires DecodeInstruction(w).Some?
    ensures OneHot(FlagsOf(w), Id(DecodeInstruction(w).value)) && PackedOf(w) == Id(DecodeInstruction(w).value)
  {
    var id := Id(DecodeInstruction(w).value);
    hide Matches, DecodeInstruction, Id;
    forall k | 0 <= k < NUM_IDS ensures Matches(k, w) <==> k == id {
      DecodersAgree(w, k);
    }
  }

  lemma {:induction false} FlagSumOfOneHot(flags: Flags, id: int, n: nat)
    requires OneHot(flags, id) && n <= NUM_IDS
    ensures FlagSum(flags, n) == if id < n then 1 else 0
  {
    if n > 0 {
      FlagSumOfOneHot(flags, id, n - 1);
    }
  }

  lemma {:induction false} FlagSumOfNone(flags: Flags, n: nat)
    requires n <= NUM_IDS && forall k :: 0 <= k < NUM_IDS ==> flags[k] == 0
    ensures FlagSum(flags, n) == 0
  {
    if n > 0 {
      FlagSumOfNone(flags, n - 1);
    }
  }

  lemma {:induction false} FlagsAccepted(p: int, flags: Flags, id: int)
    requires p > 1 && OneHot(flags, id)
    ensures FlagConstraints(p, flags)
  {
    FlagSumOfOneHot(flags, id, NUM_IDS);
    hide FlagSum, Bool;
    forall k | 0 <= k < NUM_IDS ensures Bool(p, flags[k]) {
      BitIsBool(p, flags[k]);
    }
    EqualsEq(p, FlagSum(flags, NUM_IDS), 1);
  }

  lemma {:induction false} BitsAccepted(p: int, condition: int, bits: seq<int>, v: nat)
    requires p > 0 && AreBits(bits) && (condition == 0 || FromBits(bits) == v)
    ensures BitsWhen(p, condition, bits, v)
  {
    ToFromBits(bits);
    MultipleIsZero(p, 0);
    hide FromBits, ToBits;
    forall i | 0 <= i < |bits| ensures Zero(p, condition * (bits[i] - ToBits(v, |bits|)[i])) {
      assert condition * (bits[i] - ToBits(v, |bits|)[i]) == 0;
    }
  }

  lemma {:induction false} OpcodeAccepted(p: int, flags: Flags, d: Decompositions, id: int, opcode: nat)
    requires p > 0 && AllBits(d) && OneHot(flags, id) && FromBits(d.b0[..7]) == OpcodeOf(id)
    ensures OpcodeGroup(p, flags, opcode, d.b0)
  {
    GroupOfOneHot(flags, id, opcode, NUM_IDS);
    hide GroupSum, OneHot, OpcodeOf, FromBits, BitsWhen;
    BitsAccepted(p, GroupSum(flags, opcode, NUM_IDS), d.b0[..7], opcode);
  }

  lemma {:induction false} FieldsAccepted(p: int, flags: Flags, d: Decompositions, id: int)
    requires p > 0 && AllBits(d) && OneHot(flags, id) && FromBits(d.b0[..7]) == OpcodeOf(id)
    requires Funct3Of(id) >= 0 ==> FromBits(d.b1[4..7]) == Funct3Of(id)
    requires Funct7Of(id) >= 0 ==> FromBits(d.b3[1..8]) == Funct7Of(id)
    ensures FieldConstraints(p, flags, d)
  {
    hide OpcodeGroup, BitsWhen, FromBits, Funct3Of, Funct7Of, OpcodeOf;
    OpcodeAccepted(p, flags, d, id, 0x13);
    OpcodeAccepted(p, flags, d, id, 0x33);
    OpcodeAccepted(p, flags, d, id, 0x6F);
    OpcodeAccepted(p, flags, d, id, 0x67);
    OpcodeAccepted(p, flags, d, id, 0x37);
    OpcodeAccepted(p, flags, d, id, 0x17);
    forall k | 0 <= k < NUM_IDS && Funct3Of(k) >= 0 ensures BitsWhen(p, flags[k], d.b1[4..7], Funct3Of(k)) {
      BitsAccepted(p, flags[k], d.b1[4..7], Funct3Of(k));
    }
    forall k | 0 <= k < NUM_IDS && Funct7Of(k) >= 0 ensures BitsWhen(p, flags[k], d.b3[1..8], Funct7Of(k)) {
      BitsAccepted(p, flags[k], d.b3[1..8], Funct7Of(k));
    }
  }

  lemma {:induction false} FilledFields(p: int, w: word)
    requires p > 0 && DecodeInstruction(w).Some?
    ensures FieldConstraints(p, FlagsOf(w), FillDecode(0, w).decompositions)
  {
    var d, id := FillDecode(0, w).decompositions, Id(DecodeInstruction(w).value);
    hide FillDecode, FieldConstraints, FromBits, Bits32, AllBits, DecodeInstruction, OneHot, Id, PackedOf, FlagsOf,
         Funct3Of, Funct7Of, OpcodeOf, Opcode, Funct3, Funct7;
    FilledBits(w);
    FilledFlags(w);
    WordFields(d, w);
    DecodersAgree(w, id);
    FieldsAccepted(p, FlagsOf(w), d, id);
  }

  lemma {:induction false} FilledOperands(p: int, pc: word, w: word)
    requires p > 0
    ensures OperandConstraints(p, FillDecode(pc, w))
  {
    var d := FillDecode(pc, w).decompositions;
    FilledBits(w);
    WordOperands(d, w);
    WordImm(d, w);
    MultipleIsZero(p, 0);
    hide FromBits, Bits32, AllBits, ToBits, ToLimbs, PackedOf, FlagsOf, PackRd, PackRs1, PackRs2, PackImm, Matches;
  }

  lemma {:induction false} FilledLow8(p: int, pc: word, w: word)
    requires p > 0 && DecodeInstruction(w).Some?
    ensures var r := FillDecode(pc, w); Low8Constraints(p, r.flags, r.immLow8, r.decompositions)
  {
    var r := FillDecode(pc, w);
    var id := Id(DecodeInstruction(w).value);
    FilledBits(w);
    WordLow8(r.decompositions, w);
    hide FromBits, Bits32, AllBits, ToBits, ToLimbs, PackedOf, DecodeInstruction, PackLow8, Matches, Id, ByteBits;
    FilledFlags(w);
    UOrJalOf(r.flags, id);
    MultipleIsZero(p, 0);
    DecodersAgree(w, 19);
    DecodersAgree(w, 20);
    DecodersAgree(w, 21);
    hide OneHot, UOrJal, FlagsOf;
  }

  lemma {:induction false} NoFlags(p: int, w: word)
    requires p > 1 && DecodeInstruction(w).None?
    ensures !FlagConstraints(p, FlagsOf(w))
  {
    hide Matches, DecodeInstruction;
    forall k | 0 <= k < NUM_IDS ensures FlagsOf(w)[k] == 0 {
      DecodersAgree(w, k);
    }
    FlagSumOfNone(FlagsOf(w), NUM_IDS);
    hide FlagSum, FlagsOf;
    if FlagConstraints(p, FlagsOf(w)) {
      Lift(p, FlagSum(FlagsOf(w), NUM_IDS) - 1);
    }
  }

  lemma {:induction false} FilledPacked(p: int, w: word)
    requires p > 0 && DecodeInstruction(w).Some?
    ensures Eq(p, PackedOf(w), PackedSum(FlagsOf(w), NUM_IDS))
  {
    var id := Id(DecodeInstruction(w).value);
    hide DecodeInstruction, Id, PackedOf, FlagsOf, Eq;
    FilledFlags(w);
    HotIndex(FlagsOf(w), id);
    hide OneHot;
    PackedOfOneHot(FlagsOf(w), id, NUM_IDS);
    EqualsEq(p, PackedOf(w), PackedSum(FlagsOf(w), NUM_IDS));
  }

  /** The filler makes an accepted row of a word exactly when the machine decodes the word. */
  lemma {:induction false} DecodeComplete(p: int, pc: word, w: word)
    requires p > 1
    ensures DecodeEval(p, FillDecode(pc, w)) <==> DecodeInstruction(w).Some?
  {
    hide DecodeInstruction, FlagConstraints, ByteConstraints, FieldConstraints, OperandConstraints, Low8Constraints,
         FlagsOf, PackedOf, ByteBits, PackedSum, ToLimbs, Matches, Eq;
    if DecodeInstruction(w).Some? {
      var id := Id(DecodeInstruction(w).value);
      FilledFlags(w);
      FlagsAccepted(p, FlagsOf(w), id);
      FilledBytes(p, pc, w);
      FilledFields(p, w);
      FilledOperands(p, pc, w);
      FilledLow8(p, pc, w);
      FilledPacked(p, w);
    } else {
      NoFlags(p, w);
    }
  }
}
