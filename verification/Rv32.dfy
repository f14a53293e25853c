/** The RV32I subset of the virtual machine: instruction words, their decoding and their results. */
module Rv32 {
  import opened Division
  import opened Words

  type reg = x: int | 0 <= x < 32

  datatype Option<+T> = None | Some(value: T)

  datatype Instruction =
    | AddI(rd: reg, rs1: reg, imm: int)
    | XorI(rd: reg, rs1: reg, imm: int)
    | OriI(rd: reg, rs1: reg, imm: int)
    | AndiI(rd: reg, rs1: reg, imm: int)
    | SlliI(rd: reg, rs1: reg, imm: int)
    | SrliI(rd: reg, rs1: reg, imm: int)
    | SraiI(rd: reg, rs1: reg, imm: int)
    | Add(rd: reg, rs1: reg, rs2: reg)
    | Sub(rd: reg, rs1: reg, rs2: reg)
    | Xor(rd: reg, rs1: reg, rs2: reg)
    | Or(rd: reg, rs1: reg, rs2: reg)
    | And(rd: reg, rs1: reg, rs2: reg)
    | Sll(rd: reg, rs1: reg, rs2: reg)
    | Srl(rd: reg, rs1: reg, rs2: reg)
    | Sra(rd: reg, rs1: reg, rs2: reg)
    | Slt(rd: reg, rs1: reg, rs2: reg)
    | Sltu(rd: reg, rs1: reg, rs2: reg)
    | SltiI(rd: reg, rs1: reg, imm: int)
    | SltiuI(rd: reg, rs1: reg, imm: int)
    | Lui(rd: reg, imm: int)
    | Auipc(rd: reg, imm: int)
    | Jal(rd: reg, imm: int)
    | Jalr(rd: reg, rs1: reg, imm: int)

  // Fields of an instruction word.

  function Opcode(w: word): (r: int) { w % 128 }

  function RdField(w: word): (r: reg) { (w / 128) % 32 }

  function Funct3(w: word): (r: int) { (w / 4096) % 8 }

  function Rs1Field(w: word): (r: reg) { (w / 32768) % 32 }

  function Rs2Field(w: word): (r: reg) { (w / 0x10_0000) % 32 }

  function Funct7(w: word): (r: int) { w / 0x200_0000 }

  /** `(bytes as i32) >> 20` */
  function ImmI(w: word): int { Signed(w) / 0x10_0000 }

  /** `((bytes as i32) >> 12) & 0xF_FFFF` */
  function ImmU(w: word): int { (Signed(w) / 4096) % 0x10_0000 }

  /** The scrambled J-type immediate before sign extension. */
  function ImmJRaw(w: word): (r: word) {
    var imm20 := w / TWO31;
    var imm10_1 := (w / 0x20_0000) % 1024;
    var imm11 := (w / 0x10_0000) % 2;
    var imm19_12 := (w / 4096) % 256;
    imm20 * 0x10_0000 + imm19_12 * 4096 + imm11 * 2048 + imm10_1 * 2
  }

  /** `((imm_raw << 11) as i32) >> 11` */
  function ImmJ(w: word): int {
    Signed(Wrap(ImmJRaw(w) * 2048)) / 2048
  }

  /** `decode_instruction`: the if-chain of the virtual machine; None stands for `unimplemented!`. */
  function DecodeInstruction(w: word): Option<Instruction> {
    var rd, rs1, rs2 := RdField(w), Rs1Field(w), Rs2Field(w);
    if Opcode(w) == 0x13 && Funct3(w) == 0 then Some(AddI(rd, rs1, ImmI(w)))
    else if Opcode(w) == 0x13 && Funct3(w) == 4 then Some(XorI(rd, rs1, ImmI(w)))
    else if Opcode(w) == 0x13 && Funct3(w) == 6 then Some(OriI(rd, rs1, ImmI(w)))
    else if Opcode(w) == 0x13 && Funct3(w) == 7 then Some(AndiI(rd, rs1, ImmI(w)))
    else if Opcode(w) == 0x13 && Funct3(w) == 1 && Funct7(w) == 0 then Some(SlliI(rd, rs1, rs2))
    else if Opcode(w) == 0x13 && Funct3(w) == 5 && Funct7(w) == 0 then Some(SrliI(rd, rs1, rs2))
    else if Opcode(w) == 0x13 && Funct3(w) == 5 && Funct7(w) == 32 then Some(SraiI(rd, rs1, rs2))
    else if Opcode(w) == 0x33 && Funct3(w) == 0 && Funct7(w) == 0 then Some(Add(rd, rs1, rs2))
    else if Opcode(w) == 0x33 && Funct3(w) == 0 && Funct7(w) == 32 then Some(Sub(rd, rs1, rs2))
    else if Opcode(w) == 0x33 && Funct3(w) == 4 && Funct7(w) == 0 then Some(Xor(rd, rs1, rs2))
    else if Opcode(w) == 0x33 && Funct3(w) == 6 && Funct7(w) == 0 then Some(Or(rd, rs1, rs2))
    else if Opcode(w) == 0x33 && Funct3(w) == 7 && Funct7(w) == 0 then Some(And(rd, rs1, rs2))
    else if Opcode(w) == 0x33 && Funct3(w) == 1 && Funct7(w) == 0 then Some(Sll(rd, rs1, rs2))
    else if Opcode(w) == 0x33 && Funct3(w) == 5 && Funct7(w) == 0 then Some(Srl(rd, rs1, rs2))
    else if Opcode(w) == 0x33 && Funct3(w) == 5 && Funct7(w) == 32 then Some(Sra(rd, rs1, rs2))
    else if Opcode(w) == 0x33 && Funct3(w) == 2 && Funct7(w) == 0 then Some(Slt(rd, rs1, rs2))
    else if Opcode(w) == 0x33 && Funct3(w) == 3 && Funct7(w) == 0 then Some(Sltu(rd, rs1, rs2))
    else if Opcode(w) == 0x13 && Funct3(w) == 2 then Some(SltiI(rd, rs1, ImmI(w)))
    else if Opcode(w) == 0x13 && Funct3(w) == 3 then Some(SltiuI(rd, rs1, ImmI(w)))
    else if Opcode(w) == 0x37 then Some(Lui(rd, ImmU(w)))
    else if Opcode(w) == 0x17 then Some(Auipc(rd, ImmU(w)))
    else if Opcode(w) == 0x6F then Some(Jal(rd, ImmJ(w)))
    else if Opcode(w) == 0x67 && Funct3(w) == 0 then Some(Jalr(rd, rs1, ImmI(w)))
    else None
  }

  // Results.

  datatype BitOp = BitXor | BitOr | BitAnd

  function BitResult(op: BitOp, a: int, b: int): int {
    match op
    case BitXor => if a == b then 0 else 1
    case BitOr => if a == 1 || b == 1 then 1 else 0
    case BitAnd => if a == 1 && b == 1 then 1 else 0
  }

  /** The low n bits of a bitwise operation. */
  function Bitwise(op: BitOp, x: nat, y: nat, n: nat): (r: nat)
    ensures r < Pow2(n)
  {
    if n == 0 then 0 else BitResult(op, x % 2, y % 2) + 2 * Bitwise(op, x / 2, y / 2, n - 1)
  }

  lemma {:induction false} Pow2Is32()
    ensures Pow2(32) == TWO32
  {
    assert Pow2(8) == 256;
    Pow2Sum(8, 8);
    Pow2Sum(16, 16);
  }

  function Bitwise32(op: BitOp, x: word, y: word): word {
    Pow2Is32();
    Bitwise(op, x, y, 32)
  }

  function Shl(x: word, s: nat): word { Wrap(x * Pow2(s)) }

  function Shr(x: word, s: nat): word {
    QuotientBounds(x, Pow2(s));
    x / Pow2(s)
  }

  /** `((x as i32) >> s) as u32` */
  function Sra32(x: word, s: nat): word { Wrap(Signed(x) / Pow2(s)) }

  function Flag(b: bool): (r: word) { if b then 1 else 0 }

  /**
   * The value an instruction writes to rd, from the address of the instruction and the values of
   * its source registers. Every arm is one arm of `VM::step`.
   */
  function Result(i: Instruction, pc: word, v1: word, v2: word): word {
    match i
    case AddI(_, _, imm) => Wrap(v1 + Wrap(imm))
    case XorI(_, _, imm) => Bitwise32(BitXor, v1, Wrap(imm))
    case OriI(_, _, imm) => Bitwise32(BitOr, v1, Wrap(imm))
    case AndiI(_, _, imm) => Bitwise32(BitAnd, v1, Wrap(imm))
    case SlliI(_, _, imm) => Shl(v1, imm % 32)
    case SrliI(_, _, imm) => Shr(v1, imm % 32)
    case SraiI(_, _, imm) => Sra32(v1, imm % 32)
    case Add(_, _, _) => Wrap(v1 + v2)
    case Sub(_, _, _) => Wrap(v1 - v2)
    case Xor(_, _, _) => Bitwise32(BitXor, v1, v2)
    case Or(_, _, _) => Bitwise32(BitOr, v1, v2)
    case And(_, _, _) => Bitwise32(BitAnd, v1, v2)
    case Sll(_, _, _) => Shl(v1, v2 % 32)
    case Srl(_, _, _) => Shr(v1, v2 % 32)
    case Sra(_, _, _) => Sra32(v1, v2 % 32)
    case Slt(_, _, _) => Flag(Signed(v1) < Signed(v2))
    case Sltu(_, _, _) => Flag(v1 < v2)
    case SltiI(_, _, imm) => Flag(Signed(v1) < imm)
    case SltiuI(_, _, imm) => Flag(v1 < Wrap(imm))
    case Lui(_, imm) => Wrap(Wrap(imm) * 4096)
    case Auipc(_, imm) => Wrap(pc + Wrap(Wrap(imm) * 4096))
    case Jal(_, _) => Wrap(pc + 4)
    case Jalr(rd, _, _) => if rd == 0 then 0 else Wrap(pc + 4)
  }

  /** Two source registers. */
  predicate IsRType(i: Instruction) {
    i.Add? || i.Sub? || i.Xor? || i.Or? || i.And? || i.Sll? || i.Srl? || i.Sra? || i.Slt? || i.Sltu?
  }

  /** No source register. */
  predicate IsUType(i: Instruction) {
    i.Lui? || i.Auipc?
  }
}
