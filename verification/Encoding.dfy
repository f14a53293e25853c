/**
 * The RV32I encoding of the supported instructions, field by field, and that the decoder of the machine
 * is its inverse.
 */
module Encoding {
  import opened Words
  import opened Rv32
  import opened Decode
  import opened Jal

  /** The immediates the formats have room for. */
  predicate HasEncoding(i: Instruction) {
    match i
    case AddI(_, _, imm) => -2048 <= imm < 2048
    case XorI(_, _, imm) => -2048 <= imm < 2048
    case OriI(_, _, imm) => -2048 <= imm < 2048
    case AndiI(_, _, imm) => -2048 <= imm < 2048
    case SltiI(_, _, imm) => -2048 <= imm < 2048
    case SltiuI(_, _, imm) => -2048 <= imm < 2048
    case Jalr(_, _, imm) => -2048 <= imm < 2048
    case SlliI(_, _, imm) => 0 <= imm < 32
    case SrliI(_, _, imm) => 0 <= imm < 32
    case SraiI(_, _, imm) => 0 <= imm < 32
    case Lui(_, imm) => 0 <= imm < 0x10_0000
    case Auipc(_, imm) => 0 <= imm < 0x10_0000
    case Jal(_, imm) => -0x10_0000 <= imm < 0x10_0000 && imm % 2 == 0
    case _ => true
  }

  /** opcode in bits 0 to 6, rd in 7 to 11, funct3 in 12 to 14, rs1 in 15 to 19, the rest from 20 on. */
  function Fields(opcode: int, rd: reg, funct3: int, rs1: reg, upper: int): int {
    opcode + 128 * rd + 4096 * funct3 + 32768 * rs1 + 1048576 * upper
  }

  /** Two's complement in twelve bits. */
  function Twelve(imm: int): int {
    if imm < 0 then imm + 4096 else imm
  }

  /** imm[20|10:1|11|19:12] in bits 31, 30 to 21, 20 and 19 to 12. */
  function Scrambled(imm: int): int {
    var raw := if imm < 0 then imm + 2097152 else imm;
    2147483648 * (raw / 1048576) + 2097152 * ((raw / 2) % 1024) + 1048576 * ((raw / 2048) % 2) + 4096 * ((raw / 4096) % 256)
  }

  /** The word of an instruction; funct7 stands in bits 25 to 31. */
  function Encode(i: Instruction): int {
    match i
    case Lui(rd, imm) => 0x37 + 128 * rd + 4096 * imm
    case Auipc(rd, imm) => 0x17 + 128 * rd + 4096 * imm
    case Jal(rd, imm) => 0x6F + 128 * rd + Scrambled(imm)
    case Jalr(rd, rs1, imm) => Fields(0x67, rd, 0, rs1, Twelve(imm))
    case AddI(rd, rs1, imm) => Fields(0x13, rd, 0, rs1, Twelve(imm))
    case SltiI(rd, rs1, imm) => Fields(0x13, rd, 2, rs1, Twelve(imm))
    case SltiuI(rd, rs1, imm) => Fields(0x13, rd, 3, rs1, Twelve(imm))
    case XorI(rd, rs1, imm) => Fields(0x13, rd, 4, rs1, Twelve(imm))
    case OriI(rd, rs1, imm) => Fields(0x13, rd, 6, rs1, Twelve(imm))
    case AndiI(rd, rs1, imm) => Fields(0x13, rd, 7, rs1, Twelve(imm))
    case SlliI(rd, rs1, imm) => Fields(0x13, rd, 1, rs1, imm)
    case SrliI(rd, rs1, imm) => Fields(0x13, rd, 5, rs1, imm)
    case SraiI(rd, rs1, imm) => Fields(0x13, rd, 5, rs1, imm + 32 * 0x20)
    case Add(rd, rs1, rs2) => Fields(0x33, rd, 0, rs1, rs2)
    case Sub(rd, rs1, rs2) => Fields(0x33, rd, 0, rs1, rs2 + 32 * 0x20)
    case Sll(rd, rs1, rs2) => Fields(0x33, rd, 1, rs1, rs2)
    case Slt(rd, rs1, rs2) => Fields(0x33, rd, 2, rs1, rs2)
    case Sltu(rd, rs1, rs2) => Fields(0x33, rd, 3, rs1, rs2)
    case Xor(rd, rs1, rs2) => Fields(0x33, rd, 4, rs1, rs2)
    case Srl(rd, rs1, rs2) => Fields(0x33, rd, 5, rs1, rs2)
    case Sra(rd, rs1, rs2) => Fields(0x33, rd, 5, rs1, rs2 + 32 * 0x20)
    case Or(rd, rs1, rs2) => Fields(0x33, rd, 6, rs1, rs2)
    case And(rd, rs1, rs2) => Fields(0x33, rd, 7, rs1, rs2)
  }

  /** Every word is its fields. */
  lemma {:induction false} WordIsFields(w: word)
    ensures w == Fields(Opcode(w), RdField(w), Funct3(w), Rs1Field(w), w / 0x10_0000)
    ensures Funct7(w) == w / 0x10_0000 / 32 && Rs2Field(w) == (w / 0x10_0000) % 32 && 0 <= w / 0x10_0000 < 4096
  {
    var a, b, c := w / 128, w / 4096, w / 32768;
    assert b == a / 32 && c == b / 8 && w / 0x10_0000 == c / 32;
    assert w / 0x200_0000 == w / 0x10_0000 / 32;
  }

  lemma {:induction false} FieldsOfWord(opcode: int, rd: reg, funct3: int, rs1: reg, upper: int)
    requires 0 <= opcode < 128 && 0 <= funct3 < 8 && 0 <= upper < 4096
    ensures var w := Fields(opcode, rd, funct3, rs1, upper);
            && 0 <= w < TWO32 && Opcode(w) == opcode && RdField(w) == rd && Funct3(w) == funct3 && Rs1Field(w) == rs1
            && w / 0x10_0000 == upper && Funct7(w) == upper / 32 && Rs2Field(w) == upper % 32
  {
    var w := Fields(opcode, rd, funct3, rs1, upper);
    assert w / 128 == rd + 32 * funct3 + 256 * rs1 + 8192 * upper;
    assert w / 4096 == funct3 + 8 * rs1 + 256 * upper;
    assert w / 32768 == rs1 + 32 * upper;
    assert w / 0x10_0000 == upper;
    assert w / 0x200_0000 == upper / 32;
  }

  lemma {:induction false} TwelveIsSigned(w: word)
    ensures Twelve(ImmI(w)) == w / 0x10_0000 && -2048 <= ImmI(w) < 2048
  {
    ImmIIsSigned(w);
    WordIsFields(w);
    hide ImmI, Fields, Opcode, RdField, Funct3, Rs1Field, Funct7, Rs2Field;
  }

  lemma {:induction false} UpperFields(w: word)
    ensures w == Opcode(w) + 128 * RdField(w) + 4096 * ImmU(w) && 0 <= ImmU(w) < 0x10_0000
  {
    UpperTwenty(w);
    hide ImmU;
    assert w / 4096 == w / 128 / 32;
  }

  lemma {:induction false} JumpFieldsOf(w: word)
    ensures w == Opcode(w) + 128 * RdField(w) + Scrambled(ImmJ(w))
    ensures -0x10_0000 <= ImmJ(w) < 0x10_0000 && ImmJ(w) % 2 == 0
  {
    var a, b, s, l := (w / 0x20_0000) % 1024, (w / 0x10_0000) % 2, w / TWO31, (w / 4096) % 256;
    hide ImmJ, Offset, Scrambled;
    ImmJIsOffset(w);
    OffsetParts(a, b, s, l);
    ScrambledParts(a, b, s, l);
    WordParts(w);
  }

  lemma {:induction false} ScrambledParts(a: int, b: int, s: int, l: int)
    requires 0 <= a < 1024 && 0 <= b < 2 && 0 <= s < 2 && 0 <= l < 256
    ensures Scrambled(2 * a + 2048 * b + 4096 * l - 0x10_0000 * s) == 2147483648 * s + 2097152 * a + 1048576 * b + 4096 * l
  {
    RawParts(2 * a + 2048 * b + 4096 * l + 0x10_0000 * s, a, b, s, l);
  }

  lemma {:induction false} RawParts(raw: int, a: int, b: int, s: int, l: int)
    requires 0 <= a < 1024 && 0 <= b < 2 && 0 <= s < 2 && 0 <= l < 256
    requires raw == 2 * a + 2048 * b + 4096 * l + 0x10_0000 * s
    ensures (raw / 2) % 1024 == a && (raw / 2048) % 2 == b && (raw / 4096) % 256 == l && raw / 1048576 == s
  {
    assert raw / 2 == a + 1024 * b + 2048 * l + 0x8_0000 * s;
    assert raw / 2048 == b + 2 * l + 512 * s;
    assert raw / 4096 == l + 256 * s;
  }

  lemma {:induction false} WordParts(w: word)
    ensures w == Opcode(w) + 128 * RdField(w) + 4096 * ((w / 4096) % 256) + 0x10_0000 * ((w / 0x10_0000) % 2)
                 + 0x20_0000 * ((w / 0x20_0000) % 1024) + TWO31 * (w / TWO31)
  {
    assert w / 4096 == w / 128 / 32 && w / 0x10_0000 == w / 4096 / 256 && w / 0x20_0000 == w / 0x10_0000 / 2;
    assert w / TWO31 == w / 0x20_0000 / 1024;
  }

  /** Every word the machine decodes is the encoding of what it decodes to. */
  lemma {:induction false} EncodeDecode(w: word)
    requires DecodeInstruction(w).Some?
    ensures HasEncoding(DecodeInstruction(w).value) && Encode(DecodeInstruction(w).value) == w
  {
    WordIsFields(w);
    TwelveIsSigned(w);
    UpperFields(w);
    JumpFieldsOf(w);
    hide Opcode, RdField, Funct3, Rs1Field, Rs2Field, Funct7, ImmI, ImmU, ImmJ, Scrambled;
  }

  lemma {:induction false} Unscrambled(rd: reg, imm: int)
    requires -0x10_0000 <= imm < 0x10_0000 && imm % 2 == 0
    ensures var w := 0x6F + 128 * rd + Scrambled(imm);
            0 <= w < TWO32 && Opcode(w) == 0x6F && RdField(w) == rd && ImmJ(w) == imm
  {
    hide ImmJ, Offset, Scrambled, Opcode, RdField;
    var s := if imm < 0 then 1 else 0;
    var a, b, l := ThreeFields((imm + 0x10_0000 * s) / 2);
    ScrambledParts(a, b, s, l);
    var w := 0x6F + 128 * rd + 4096 * l + 1048576 * b + 2097152 * a + 2147483648 * s;
    JumpWord(w, rd, a, b, s, l);
    ImmJIsOffset(w);
    OffsetParts(a, b, s, l);
  }

  lemma {:induction false} JumpWord(w: int, rd: reg, a: int, b: int, s: int, l: int)
    requires 0 <= a < 1024 && 0 <= b < 2 && 0 <= s < 2 && 0 <= l < 256
    requires w == 0x6F + 128 * rd + 4096 * l + 1048576 * b + 2097152 * a + 2147483648 * s
    ensures 0 <= w < TWO32 && Opcode(w) == 0x6F && RdField(w) == rd
    ensures (w / 4096) % 256 == l && (w / 0x10_0000) % 2 == b && (w / 0x20_0000) % 1024 == a && w / TWO31 == s
  {
    assert w / 128 == rd + 32 * l + 8192 * b + 16384 * a + 16777216 * s;
    assert w / 4096 == l + 256 * b + 512 * a + 524288 * s;
    assert w / 0x10_0000 == b + 2 * a + 2048 * s;
    assert w / 0x20_0000 == a + 1024 * s;
  }

  lemma {:induction false} UpperWord(opcode: int, rd: reg, imm: int)
    requires 0 <= opcode < 128 && 0 <= imm < 0x10_0000
    ensures var w := opcode + 128 * rd + 4096 * imm;
            0 <= w < TWO32 && Opcode(w) == opcode && RdField(w) == rd && ImmU(w) == imm
  {
    var w := opcode + 128 * rd + 4096 * imm;
    assert w / 128 == rd + 32 * imm && w / 4096 == imm;
    UpperTwenty(w);
    hide ImmU;
  }

  /** The decoder of the machine inverts the encoding. */
  lemma {:induction false} DecodeEncode(i: Instruction)
    requires HasEncoding(i)
    ensures 0 <= Encode(i) < TWO32 && DecodeInstruction(Encode(i)) == Some(i)
  {
    if i.Lui? || i.Auipc? {
      UpperWord(if i.Lui? then 0x37 else 0x17, i.rd, i.imm);
      hide Opcode, RdField, ImmU;
    } else if i.Jal? {
      Unscrambled(i.rd, i.imm);
      hide Opcode, RdField, ImmJ, Scrambled;
    } else {
      StandardDecodes(i);
    }
  }

  lemma {:induction false} StandardDecodes(i: Instruction)
    requires HasEncoding(i) && !UsesLow8(i)
    ensures 0 <= Encode(i) < TWO32 && DecodeInstruction(Encode(i)) == Some(i)
  {
    var w := Encode(i);
    hide Opcode, RdField, Funct3, Rs1Field, Rs2Field, Funct7, ImmI, ImmU, ImmJ, Fields;
    if IsRType(i) {
      FieldsOfWord(0x33, i.rd, if i.Add? || i.Sub? then 0 else if i.Sll? then 1 else if i.Slt? then 2 else if i.Sltu? then 3
                               else if i.Xor? then 4 else if i.Srl? || i.Sra? then 5 else if i.Or? then 6 else 7,
                   i.rs1, if i.Sub? || i.Sra? then i.rs2 + 1024 else i.rs2);
    } else if IsShiftImm(i) {
      FieldsOfWord(0x13, i.rd, if i.SlliI? then 1 else 5, i.rs1, if i.SraiI? then i.imm + 1024 else i.imm);
    } else {
      FieldsOfWord(if i.Jalr? then 0x67 else 0x13, i.rd,
                   if i.AddI? || i.Jalr? then 0 else if i.SltiI? then 2 else if i.SltiuI? then 3 else if i.XorI? then 4
                   else if i.OriI? then 6 else 7,
                   i.rs1, Twelve(i.imm));
      ImmIIsSigned(w);
    }
  }
}
