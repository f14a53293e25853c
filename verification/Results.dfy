/**
 * What the instructions compute, stated on numbers and bits, and that the machine writes exactly that.
 */
module Results {
  import opened Division
  import opened Words
  import opened Rv32
  import opened U32Ops
  import opened Vm
  import opened Encoding

  /** Two's complement in 32 bits, and back. */
  function Unsigned32(imm: int): int {
    if imm < 0 then imm + 4294967296 else imm
  }

  function Signed32(v: int): int {
    if v >= 2147483648 then v - 4294967296 else v
  }

  /** Binary digit k. */
  function Digit(v: int, k: nat): int {
    (v / Pow2(k)) % 2
  }

  /** r is the sum modulo 2^32. */
  predicate IsSum(x: int, y: int, r: int) {
    r == x + y || r == x + y - 4294967296
  }

  ghost predicate IsXor(x: int, y: int, r: int) {
    forall k: nat :: k < 32 ==> Digit(r, k) == if Digit(x, k) == Digit(y, k) then 0 else 1
  }

  ghost predicate IsOr(x: int, y: int, r: int) {
    forall k: nat :: k < 32 ==> Digit(r, k) == if Digit(x, k) + Digit(y, k) == 0 then 0 else 1
  }

  ghost predicate IsAnd(x: int, y: int, r: int) {
    forall k: nat :: k < 32 ==> Digit(r, k) == Digit(x, k) * Digit(y, k)
  }

  predicate IsLeftShift(x: int, s: nat, r: int) {
    (x * Pow2(s) - r) % 4294967296 == 0
  }

  /** r is the quotient by 2^s, rounded down. */
  predicate IsRightShift(x: int, s: nat, r: int) {
    r * Pow2(s) <= x < (r + 1) * Pow2(s)
  }

  predicate Says(r: int, b: bool) {
    r == if b then 1 else 0
  }

  /** r is the word RV32I has the instruction write to rd. */
  ghost predicate Writes(i: Instruction, pc: word, v1: word, v2: word, r: word) {
    match i
    case Add(_, _, _) => IsSum(v1, v2, r)
    case AddI(_, _, imm) => IsSum(v1, Unsigned32(imm), r)
    case Sub(_, _, _) => IsSum(r, v2, v1)
    case Xor(_, _, _) => IsXor(v1, v2, r)
    case XorI(_, _, imm) => IsXor(v1, Unsigned32(imm), r)
    case Or(_, _, _) => IsOr(v1, v2, r)
    case OriI(_, _, imm) => IsOr(v1, Unsigned32(imm), r)
    case And(_, _, _) => IsAnd(v1, v2, r)
    case AndiI(_, _, imm) => IsAnd(v1, Unsigned32(imm), r)
    case Sll(_, _, _) => IsLeftShift(v1, v2 % 32, r)
    case SlliI(_, _, imm) => imm >= 0 && IsLeftShift(v1, imm, r)
    case Srl(_, _, _) => IsRightShift(v1, v2 % 32, r)
    case SrliI(_, _, imm) => imm >= 0 && IsRightShift(v1, imm, r)
    case Sra(_, _, _) => IsRightShift(Signed32(v1), v2 % 32, Signed32(r))
    case SraiI(_, _, imm) => imm >= 0 && IsRightShift(Signed32(v1), imm, Signed32(r))
    case Slt(_, _, _) => Says(r, Signed32(v1) < Signed32(v2))
    case SltiI(_, _, imm) => Says(r, Signed32(v1) < imm)
    case Sltu(_, _, _) => Says(r, v1 < v2)
    case SltiuI(_, _, imm) => Says(r, v1 < Unsigned32(imm))
    case Lui(_, imm) => r == 4096 * imm
    case Auipc(_, imm) => IsSum(pc, 4096 * imm, r)
    case Jal(_, _) => IsSum(pc, 4, r)
    case Jalr(rd, _, _) => if rd == 0 then r == 0 else IsSum(pc, 4, r)
  }

  // Binary digits.

  lemma {:induction false} Halved(x: int, k: nat)
    requires k > 0
    ensures x / Pow2(k) == x / 2 / Pow2(k - 1)
  {
    var m := Pow2(k - 1);
    var q, r := x / 2 / m, x / 2 % m;
    assert x / 2 == q * m + r;
    assert Pow2(k) == 2 * m && x == q * (2 * m) + (2 * r + x % 2);
    RemainderUnique(2 * m, q, 2 * r + x % 2);
  }

  lemma {:induction false} DigitZero(x: int)
    ensures Digit(x, 0) == x % 2
  {
    assert Pow2(0) == 1;
  }

  /** Digit k of a bitwise operation is the operation on digits k. */
  lemma {:induction false} DigitOfBitwise(op: BitOp, x: nat, y: nat, n: nat, k: nat)
    requires k < n
    ensures Digit(Bitwise(op, x, y, n), k) == BitResult(op, Digit(x, k), Digit(y, k))
  {
    hide Pow2, BitResult, Digit;
    var r := Bitwise(op, x, y, n);
    LowDigit(op, x, y, n);
    hide Bitwise;
    if k == 0 {
      DigitZero(r);
      DigitZero(x);
      DigitZero(y);
    } else {
      DigitOfBitwise(op, x / 2, y / 2, n - 1, k - 1);
      HigherDigit(r, k);
      HigherDigit(x, k);
      HigherDigit(y, k);
    }
  }

  lemma {:induction false} HigherDigit(x: int, k: nat)
    requires k > 0
    ensures Digit(x, k) == Digit(x / 2, k - 1)
  {
    Halved(x, k);
    hide Pow2;
  }

  lemma {:induction false} LowDigit(op: BitOp, x: nat, y: nat, n: nat)
    requires n > 0
    ensures Bitwise(op, x, y, n) % 2 == BitResult(op, x % 2, y % 2) && Bitwise(op, x, y, n) / 2 == Bitwise(op, x / 2, y / 2, n - 1)
  {
    var rest := Bitwise(op, x / 2, y / 2, n - 1);
    assert Bitwise(op, x, y, n) == BitResult(op, x % 2, y % 2) + 2 * rest;
  }

  /** A number below 2^n is its digits. */
  lemma {:induction false} DigitsDetermine(x: int, y: int, n: nat)
    requires 0 <= x < Pow2(n) && 0 <= y < Pow2(n)
    requires forall k: nat :: k < n ==> Digit(x, k) == Digit(y, k)
    ensures x == y
  {
    if n > 0 {
      DigitZero(x);
      DigitZero(y);
      forall k: nat | k < n - 1 ensures Digit(x / 2, k) == Digit(y / 2, k) {
        Halved(x, k + 1);
        Halved(y, k + 1);
        assert Digit(x, k + 1) == Digit(y, k + 1);
      }
      DigitsDetermine(x / 2, y / 2, n - 1);
    }
  }

  lemma {:induction false} DigitIsBit(x: int, k: nat)
    ensures Digit(x, k) == 0 || Digit(x, k) == 1
  {
  }

  lemma {:induction false} BitwiseMeans(x: word, y: word)
    ensures IsXor(x, y, Bitwise32(BitXor, x, y)) && IsOr(x, y, Bitwise32(BitOr, x, y)) && IsAnd(x, y, Bitwise32(BitAnd, x, y))
  {
    Pow2Is32();
    hide Bitwise, Digit;
    forall k: nat | k < 32
      ensures Digit(Bitwise32(BitXor, x, y), k) == if Digit(x, k) == Digit(y, k) then 0 else 1
      ensures Digit(Bitwise32(BitOr, x, y), k) == if Digit(x, k) + Digit(y, k) == 0 then 0 else 1
      ensures Digit(Bitwise32(BitAnd, x, y), k) == Digit(x, k) * Digit(y, k)
    {
      DigitOfBitwise(BitXor, x, y, 32, k);
      DigitOfBitwise(BitOr, x, y, 32, k);
      DigitOfBitwise(BitAnd, x, y, 32, k);
      DigitIsBit(x, k);
      DigitIsBit(y, k);
    }
  }

  // Sums and shifts.

  lemma {:induction false} WrapIsSum(x: word, y: word)
    ensures IsSum(x, y, Wrap(x + y)) && IsSum(Wrap(x - y), y, x)
  {
  }

  lemma {:induction false} WrapOfImmediate(imm: int)
    requires -TWO31 <= imm < TWO32
    ensures Wrap(imm) == Unsigned32(imm) && (imm < TWO31 ==> Signed(Wrap(imm)) == imm)
  {
  }

  lemma {:induction false} ShiftsMean(x: word, s: nat)
    ensures IsLeftShift(x, s, Shl(x, s)) && IsRightShift(x, s, Shr(x, s)) && IsRightShift(Signed32(x), s, Signed32(Sra32(x, s)))
  {
    var m := Pow2(s);
    Rounded(x, m);
    Rounded(Signed(x), m);
    SmallQuotient(Signed(x), m);
    WrapOfImmediate(Signed(x) / m);
    LeftRemainder(x * m);
    hide Pow2;
  }

  lemma {:induction false} LeftRemainder(y: int)
    ensures (y - Wrap(y)) % 4294967296 == 0
  {
  }

  lemma {:induction false} Rounded(x: int, m: int)
    requires m > 0
    ensures x / m * m <= x < (x / m + 1) * m
  {
    assert x == m * (x / m) + x % m;
  }

  lemma {:induction false} SmallQuotient(x: int, m: int)
    requires m > 0 && -TWO31 <= x < TWO31
    ensures -TWO31 <= x / m < TWO31
  {
    Rounded(x, m);
    var q := x / m;
    if q < -TWO31 {
      ProductOrder(m, q + 1, -TWO31);
      ProductOrder(TWO31, 1, m);
    } else if q >= TWO31 {
      ProductOrder(m, TWO31, q);
      ProductOrder(TWO31, 1, m);
    }
  }

  /** A quotient is determined by its rounding. */
  lemma {:induction false} RoundedOne(x: int, m: int, q: int, r: int)
    requires m > 0 && q * m <= x < (q + 1) * m && r * m <= x < (r + 1) * m
    ensures q == r
  {
    if q < r {
      ProductOrder(m, q + 1, r);
    } else if r < q {
      ProductOrder(m, r + 1, q);
    }
  }

  // The machine.

  /** The result the machine computes is the one RV32I asks for. */
  lemma {:induction false} ResultWrites(i: Instruction, pc: word, v1: word, v2: word)
    requires HasEncoding(i)
    ensures Writes(i, pc, v1, v2, Result(i, pc, v1, v2))
  {
    hide Wrap, Bitwise32, Shl, Shr, Sra32, Pow2, IsXor, IsOr, IsAnd, IsLeftShift, IsRightShift, IsSum;
    WrapIsSum(v1, v2);
    BitwiseMeans(v1, v2);
    ShiftsMean(v1, v2 % 32);
    WrapIsSum(pc, 4);
    if !IsRType(i) {
      ImmediateWrites(i, pc, v1, v2);
    }
  }

  lemma {:induction false} ImmediateWrites(i: Instruction, pc: word, v1: word, v2: word)
    requires HasEncoding(i) && !IsRType(i)
    ensures Writes(i, pc, v1, v2, Result(i, pc, v1, v2))
  {
    hide Wrap, Bitwise32, Shl, Shr, Sra32, Pow2, IsXor, IsOr, IsAnd, IsLeftShift, IsRightShift, IsSum;
    WrapIsSum(pc, 4);
    WrapOfImmediate(i.imm);
    WrapIsSum(v1, Wrap(i.imm));
    BitwiseMeans(v1, Wrap(i.imm));
    if i.Lui? || i.Auipc? {
      WrapOfImmediate(4096 * i.imm);
      WrapIsSum(pc, Wrap(4096 * i.imm));
    } else if i.SlliI? || i.SrliI? || i.SraiI? {
      ShiftsMean(v1, i.imm);
    }
  }

  /** It is the only word that is. */
  lemma {:induction false} WritesOne(i: Instruction, pc: word, v1: word, v2: word, r: word, t: word)
    requires Writes(i, pc, v1, v2, r) && Writes(i, pc, v1, v2, t)
    ensures r == t
  {
    if i.Xor? || i.XorI? || i.Or? || i.OriI? || i.And? || i.AndiI? {
      Pow2Is32();
      hide Digit;
      DigitsDetermine(r, t, 32);
    } else if i.Srl? || i.SrliI? || i.Sra? || i.SraiI? {
      hide Pow2;
      ShiftsOne(i, v1, v2, r, t);
    } else if i.Sll? || i.SlliI? {
      hide Pow2;
      LeftOne(v1 * Pow2(if i.Sll? then v2 % 32 else i.imm), r, t);
    }
  }

  lemma {:induction false} LeftOne(y: int, r: word, t: word)
    requires (y - r) % 4294967296 == 0 && (y - t) % 4294967296 == 0
    ensures r == t
  {
  }

  lemma {:induction false} ShiftsOne(i: Instruction, v1: word, v2: word, r: word, t: word)
    requires i.Srl? || i.SrliI? || i.Sra? || i.SraiI?
    requires Writes(i, 0, v1, v2, r) && Writes(i, 0, v1, v2, t)
    ensures r == t
  {
    var m := Pow2(if i.Srl? || i.Sra? then v2 % 32 else i.imm);
    hide Pow2;
    if i.Srl? || i.SrliI? {
      RoundedOne(v1, m, r, t);
    } else {
      RoundedOne(Signed32(v1), m, Signed32(r), Signed32(t));
    }
  }

  /** Every step writes what RV32I has its instruction write, and nothing else meets that. */
  lemma {:induction false} StepWrites(s: VmState, i: Instruction, r: word)
    requires Fits(s, i) && s.pc + 3 < |s.program| && DecodeInstruction(WordAt(s.program, s.pc)) == Some(i) && WritesRegister(i)
    ensures var regs, after := LastRegisters(s.trace), LastRegisters(StateAfter(s, WordAt(s.program, s.pc), i).trace);
            Writes(i, s.pc, Rs1Value(i, regs), Rs2Value(i, regs), r) <==> r == after[i.rd]
  {
    hide DecodeInstruction, Writes, Result, WordAt;
    var regs := LastRegisters(s.trace);
    EncodeDecode(WordAt(s.program, s.pc));
    ResultWrites(i, s.pc, Rs1Value(i, regs), Rs2Value(i, regs));
    if Writes(i, s.pc, Rs1Value(i, regs), Rs2Value(i, regs), r) {
      WritesOne(i, s.pc, Rs1Value(i, regs), Rs2Value(i, regs), r, ResultIn(i, regs, s.pc));
    }
  }

  /** The byte constraints of an addition, and the borrow chain of a subtraction, force what ADD, SUB and SLTU write. */
  lemma {:induction false} LimbsForce(p: int, x: Limbs, y: Limbs, z: Limbs, carries: Limbs, rd: reg, rs1: reg, rs2: reg, pc: word)
    requires LargePrime(p) && AreBytes(x) && AreBytes(y) && AreBytes(z)
    ensures 0 <= Value(x) < TWO32 && 0 <= Value(y) < TWO32 && 0 <= Value(z) < TWO32
    ensures U32Add(p, x, y, z, carries) ==> Value(z) == Result(Add(rd, rs1, rs2), pc, Value(x), Value(y))
    ensures U32Sub(p, x, y, z, carries) ==>
              Value(z) == Result(Sub(rd, rs1, rs2), pc, Value(x), Value(y)) && carries[3] == Result(Sltu(rd, rs1, rs2), pc, Value(x), Value(y))
  {
    ValueToLimbs(x);
    ValueToLimbs(y);
    ValueToLimbs(z);
    hide U32Add, U32Sub, Value, LargePrime, Wrap;
    if U32Add(p, x, y, z, carries) {
      U32AddMeans(p, x, y, z, carries);
    }
    if U32Sub(p, x, y, z, carries) {
      U32SubMeans(p, x, y, z, carries);
    }
  }
}
