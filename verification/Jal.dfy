/** The JAL table: the scrambled J-type immediate, the jump, and the silent write to register 0. */
module Jal {
  import opened Words
  import opened PrimeField
  import opened Rv32
  import opened U32Ops
  import opened Bits
  import opened Decode

  // The immediate: twelve bits imm[10:1], imm[11], imm[20] and eight bits imm[19:12].

  /** The signed even offset of a reordered immediate. */
  function Offset(high12: int, lo8: int): int {
    2 * (high12 % 1024) + 2048 * ((high12 / 1024) % 2) + 4096 * lo8 - 0x10_0000 * (high12 / 2048)
  }

  /** The reordered immediate of an instruction word. */
  function High12(w: word): int {
    (w / 0x20_0000) % 1024 + 1024 * ((w / 0x10_0000) % 2) + 2048 * (w / TWO31)
  }

  function Lo8(w: word): int {
    (w / 4096) % 256
  }

  lemma {:induction false} High12Parts(w: word)
    ensures 0 <= High12(w) < 4096 && High12(w) % 1024 == (w / 0x20_0000) % 1024
    ensures (High12(w) / 1024) % 2 == (w / 0x10_0000) % 2 && High12(w) / 2048 == w / TWO31
  {
    PartsOf((w / 0x20_0000) % 1024, (w / 0x10_0000) % 2, w / TWO31);
  }

  lemma {:induction false} PartsOf(a: int, b: int, s: int)
    requires 0 <= a < 1024 && 0 <= b < 2 && 0 <= s < 2
    ensures var h := a + 1024 * b + 2048 * s;
            0 <= h < 4096 && h % 1024 == a && (h / 1024) % 2 == b && h / 2048 == s
  {
  }

  /** The machine's sign extension by two shifts is the signed offset of the reordered immediate. */
  lemma {:induction false} ImmJIsOffset(w: word)
    ensures ImmJ(w) == Offset(High12(w), Lo8(w))
    ensures -0x10_0000 <= ImmJ(w) < 0x10_0000 && ImmJ(w) % 2 == 0
  {
    var a, b, s, l := (w / 0x20_0000) % 1024, (w / 0x10_0000) % 2, w / TWO31, (w / 4096) % 256;
    var raw := ImmJRaw(w);
    assert raw == s * 0x10_0000 + l * 4096 + b * 2048 + a * 2;
    assert s == 0 || s == 1;
    High12Parts(w);
    hide ImmJRaw, High12;
    ShiftedSign(raw, s, raw - s * 0x10_0000);
  }

  lemma {:induction false} ShiftedSign(raw: word, s: int, rest: int)
    requires (s == 0 || s == 1) && raw == s * 0x10_0000 + rest && 0 <= rest < 0x10_0000
    ensures Signed(Wrap(raw * 2048)) / 2048 == rest - 0x10_0000 * s
  {
    assert Wrap(raw * 2048) == raw * 2048;
  }

  /** `extract_jal_steps`: the bit fields of the sign-extended immediate, put back in word order. */
  function Rescrambled(imm: int): (int, int) {
    var immU := Wrap(imm);
    var imm20, imm10_1, imm11 := (immU / 0x10_0000) % 2, (immU / 2) % 1024, (immU / 2048) % 2;
    (imm10_1 + 1024 * imm11 + 2048 * imm20, (immU / 4096) % 256)
  }

  lemma {:induction false} WrappedOffset(a: int, b: int, s: int, l: int)
    requires 0 <= a < 1024 && 0 <= b < 2 && 0 <= s < 2 && 0 <= l < 256
    ensures var v := Wrap(2 * a + 2048 * b + 4096 * l - 0x10_0000 * s);
            (v / 2) % 1024 == a && (v / 2048) % 2 == b && (v / 4096) % 256 == l && (v / 0x10_0000) % 2 == s
  {
    var rest := 2 * a + 2048 * b + 4096 * l;
    var v := rest - 0x10_0000 * s + TWO32 * s;
    WrapIs(rest - 0x10_0000 * s, -s, v);
    FieldsOfWrapped(a, b, s, l, v);
  }

  lemma {:induction false} FieldsOfWrapped(a: int, b: int, s: int, l: int, v: word)
    requires 0 <= a < 1024 && 0 <= b < 2 && 0 <= s < 2 && 0 <= l < 256
    requires v == 2 * a + 2048 * b + 4096 * l + 0xFFF0_0000 * s
    ensures (v / 2) % 1024 == a && (v / 2048) % 2 == b && (v / 4096) % 256 == l && (v / 0x10_0000) % 2 == s
  {
    assert v / 2 == a + 1024 * b + 2048 * l + 0x7FF8_0000 * s;
    assert v / 2048 == b + 2 * l + 0x1F_FE00 * s;
    assert v / 4096 == l + 0xF_FF00 * s;
    assert v / 0x10_0000 == 0xFFF * s;
  }

  lemma {:induction false} RescrambledOffset(a: int, b: int, s: int, l: int)
    requires 0 <= a < 1024 && 0 <= b < 2 && 0 <= s < 2 && 0 <= l < 256
    ensures Rescrambled(2 * a + 2048 * b + 4096 * l - 0x10_0000 * s) == (a + 1024 * b + 2048 * s, l)
  {
    hide Wrap;
    WrappedOffset(a, b, s, l);
  }

  lemma {:induction false} OffsetParts(a: int, b: int, s: int, l: int)
    requires 0 <= a < 1024 && 0 <= b < 2 && 0 <= s < 2
    ensures Offset(a + 1024 * b + 2048 * s, l) == 2 * a + 2048 * b + 4096 * l - 0x10_0000 * s
  {
    PartsOf(a, b, s);
  }

  lemma {:induction false} ThreeFields(x: int) returns (a: int, b: int, l: int)
    requires 0 <= x < 0x8_0000
    ensures 0 <= a < 1024 && 0 <= b < 2 && 0 <= l < 256 && x == a + 1024 * b + 2048 * l
  {
    var q := x / 1024;
    a, b, l := x % 1024, q % 2, q / 2;
  }

  /** The trace builder recovers the reordered immediate of the word from its sign-extended form. */
  lemma {:induction false} RescrambledImmJ(w: word)
    ensures Rescrambled(ImmJ(w)) == (High12(w), Lo8(w))
  {
    var a, b, s, l := (w / 0x20_0000) % 1024, (w / 0x10_0000) % 2, w / TWO31, (w / 4096) % 256;
    hide ImmJ, Rescrambled, Offset;
    ImmJIsOffset(w);
    OffsetParts(a, b, s, l);
    RescrambledOffset(a, b, s, l);
  }

  /** An immediate JAL can encode: signed, 21 bits, even. */
  predicate Encodable(imm: int) {
    -0x10_0000 <= imm < 0x10_0000 && imm % 2 == 0
  }

  lemma {:induction false} EncodableIsOffset(imm: int)
    requires Encodable(imm)
    ensures var (high12, lo8) := Rescrambled(imm);
            0 <= high12 < 4096 && 0 <= lo8 < 256 && Offset(high12, lo8) == imm
  {
    hide Rescrambled, Offset;
    var s := if imm < 0 then 1 else 0;
    var a, b, l := ThreeFields((imm + 0x10_0000 * s) / 2);
    RescrambledOffset(a, b, s, l);
    OffsetParts(a, b, s, l);
  }

  // The bus form of the decode table.

  /** `imm_jal_form` */
  function JalForm(d: Decompositions): int {
    d.b2[5] + d.b2[6] * 2 + d.b2[7] * 4 + d.b3[0] * 8 + d.b3[1] * 16 + d.b3[2] * 32 + d.b3[3] * 64 + d.b3[4] * 128
    + d.b3[5] * 256 + d.b3[6] * 512 + d.b2[4] * 1024 + d.b3[7] * 2048
  }

  lemma {:induction false} FromTen(b0: int, b1: int, b2: int, b3: int, b4: int, b5: int, b6: int, b7: int, b8: int, b9: int)
    ensures FromBits([b0, b1, b2, b3, b4, b5, b6, b7, b8, b9])
         == b0 + 2 * b1 + 4 * b2 + 8 * b3 + 16 * b4 + 32 * b5 + 64 * b6 + 128 * b7 + 256 * b8 + 512 * b9
  {
    FromFive(b0, b1, b2, b3, b4);
    FromFive(b5, b6, b7, b8, b9);
    SmallPowers();
    hide FromBits, Pow2;
    assert [b0, b1, b2, b3, b4, b5, b6, b7, b8, b9] == [b0, b1, b2, b3, b4] + [b5, b6, b7, b8, b9];
    FromBitsAppend([b0, b1, b2, b3, b4], [b5, b6, b7, b8, b9]);
  }

  lemma {:induction false} FromFive(b0: int, b1: int, b2: int, b3: int, b4: int)
    ensures FromBits([b0, b1, b2, b3, b4]) == b0 + 2 * b1 + 4 * b2 + 8 * b3 + 16 * b4
  {
    var s0, s1, s2, s3, s4 := [b0, b1, b2, b3, b4], [b1, b2, b3, b4], [b2, b3, b4], [b3, b4], [b4];
    assert s0[1..] == s1 && s1[1..] == s2 && s2[1..] == s3 && s3[1..] == s4 && s4[1..] == [];
    assert FromBits(s4) == b4;
    assert FromBits(s3) == b3 + 2 * b4;
    assert FromBits(s2) == b2 + 2 * FromBits(s3);
    assert FromBits(s1) == b1 + 2 * FromBits(s2);
  }

  lemma {:induction false} TenSlice(d: Decompositions)
    ensures Bits32(d)[21..31]
         == [d.b2[5], d.b2[6], d.b2[7], d.b3[0], d.b3[1], d.b3[2], d.b3[3], d.b3[4], d.b3[5], d.b3[6]]
    ensures |Bits32(d)| == 32 && Bits32(d)[20] == d.b2[4] && Bits32(d)[31] == d.b3[7]
  {
    assert Bits32(d)[21..31] == d.b2[5..8] + d.b3[..7];
    assert d.b2[5..8] == [d.b2[5], d.b2[6], d.b2[7]];
    assert d.b3[..7] == [d.b3[0], d.b3[1], d.b3[2], d.b3[3], d.b3[4], d.b3[5], d.b3[6]];
  }

  lemma {:induction false} BigPowers()
    ensures Pow2(10) == 1024 && Pow2(20) == 0x10_0000 && Pow2(21) == 0x20_0000 && Pow2(31) == TWO31
  {
    SmallPowers();
    Pow2Sum(5, 5);
    Pow2Sum(20, 1);
    Pow2Sum(21, 10);
    assert Pow2(1) == 2;
  }

  lemma {:induction false} TopBit(w: word)
    ensures (w / TWO31) % 2 == w / TWO31
  {
  }

  /** The bits the decode table puts on the bus for JAL denote the reordered immediate of the word. */
  lemma {:induction false} JalFormIsHigh12(d: Decompositions, w: word)
    requires AllBits(d) && w == FromBits(Bits32(d))
    ensures JalForm(d) == High12(w)
  {
    BigPowers();
    Bits32AreBits(d);
    TenSlice(d);
    TopBit(w);
    FromTen(d.b2[5], d.b2[6], d.b2[7], d.b3[0], d.b3[1], d.b3[2], d.b3[3], d.b3[4], d.b3[5], d.b3[6]);
    hide FromBits, Pow2, Bits32, AreBits, AllBits;
    FieldOfBits(Bits32(d), 21, 31);
    BitAt(Bits32(d), 20);
    BitAt(Bits32(d), 31);
  }

  /** For an accepted JAL decode row, the bus fields denote the machine's immediate. */
  lemma {:induction false} DecodeBusCarriesOffset(p: int, r: DecodeColumns)
    requires LargePrime(p) && DecodeResidues(p, r) && DecodeEval(p, r) && r.flags[21] == 1
    ensures AreBytes(r.instruction) && 0 <= Value(r.instruction) < TWO32
    ensures DecodeInstruction(Value(r.instruction))
         == Some(Jal(RdField(Value(r.instruction)), Offset(JalForm(r.decompositions), r.immLow8)))
  {
    var d, w := r.decompositions, Value(r.instruction);
    hide FromBits, Bits32, AllBits, FieldConstraints, OperandConstraints, Low8Constraints, PackedSum, FlagConstraints,
         JalForm, Offset, High12, ImmJ, Value, Residues, IsPrime, PackLow8;
    DecodeSound(p, r);
    BytesForced(p, r);
    WordLow8(d, w);
    JalFormIsHigh12(d, w);
    ImmJIsOffset(w);
    JalWord(r, w);
    Low8Forced(p, r.flags, r.immLow8, d, 21);
  }

  lemma {:induction false} JalWord(r: DecodeColumns, w: word)
    requires Decodes(r, w) && r.flags[21] == 1
    ensures OneHot(r.flags, 21) && DecodeInstruction(w) == Some(Jal(RdField(w), ImmJ(w)))
  {
    var i := DecodeInstruction(w).value;
    assert Id(i) == 21;
    hide Opcode, Funct3, Funct7, ImmI, ImmU, ImmJ, RdField, Rs1Field, Rs2Field;
  }
}
