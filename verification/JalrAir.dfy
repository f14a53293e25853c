/** The JALR table: its constraints, the two columns they leave open, and the rows of the trace builder. */
module JalrAir {
  import opened Words
  import opened PrimeField
  import opened Rv32
  import opened Vm
  import opened U32Ops
  import opened U32Witness
  import opened Bits
  import opened Decode
  import opened JalAir

  datatype JalrColumns = JalrColumns(
    pc: Limbs, timestamp: int, rd: int, rs1: int, imm: int, immHighBits: Limbs, immSe: Limbs,
    rs1Value: Limbs, oldRdValue: Limbs, rdVal: Limbs, rdValCarries: Carries3,
    sum: Limbs, sumCarries: Limbs, sumLsb: int, nextPc: Limbs, isDummy: int)

  function Nibble(b: Limbs): int {
    b[0] + b[1] * 2 + b[2] * 4 + b[3] * 8
  }

  /** The bytes of the sign-extended immediate; the low byte is fixed by the immediate alone. */
  predicate SignExtends(p: int, imm: int, b: Limbs, se: Limbs)
    requires p > 0
  {
    && Bool(p, b[0]) && Bool(p, b[1]) && Bool(p, b[2]) && Bool(p, b[3])
    && Eq(p, imm, se[0] + Nibble(b) * 256) && Eq(p, se[1], Nibble(b) + b[3] * 0xF0)
    && Eq(p, se[2], b[3] * 0xFF) && Eq(p, se[3], b[3] * 0xFF)
  }

  /** next_pc is the sum with lsb taken off its low byte. */
  predicate ClearsLsb(p: int, sum: Limbs, lsb: int, nextPc: Limbs)
    requires p > 0
  {
    && Bool(p, lsb) && Eq(p, sum[0], nextPc[0] + lsb)
    && Eq(p, nextPc[1], sum[1]) && Eq(p, nextPc[2], sum[2]) && Eq(p, nextPc[3], sum[3])
  }

  ghost predicate JalrEval(p: int, r: JalrColumns)
    requires p > 0
  {
    && Bool(p, r.isDummy)
    && U32PlusFour(p, r.pc, r.rdVal, r.rdValCarries)
    && SignExtends(p, r.imm, r.immHighBits, r.immSe)
    && U32Add(p, r.rs1Value, r.immSe, r.sum, r.sumCarries)
    && ClearsLsb(p, r.sum, r.sumLsb, r.nextPc)
  }

  ghost predicate JalrResidues(p: int, r: JalrColumns) {
    Residues(p, r.immHighBits) && Residue(p, r.sumLsb)
  }

  // What the constraints force.

  lemma {:induction false} BitsForcedFour(p: int, b: Limbs)
    requires IsPrime(p) && Residues(p, b) && Bool(p, b[0]) && Bool(p, b[1]) && Bool(p, b[2]) && Bool(p, b[3])
    ensures IsBit(b[0]) && IsBit(b[1]) && IsBit(b[2]) && IsBit(b[3])
  {
    BoolResidue(p, b[0]);
    BoolResidue(p, b[1]);
    BoolResidue(p, b[2]);
    BoolResidue(p, b[3]);
  }

  /** Limb 0 of the sum, with the low immediate byte and the cleared bit eliminated. */
  lemma {:induction false} LowLimbForced(p: int, x: int, imm: int, nibble: int, se: int, sum: int, carry: int, lsb: int, next: int)
    requires p > MIN_FIELD && IsByte(x) && IsByte(next) && IsBit(carry) && IsBit(lsb) && 0 <= imm < 4096 && 0 <= nibble < 16
    requires Eq(p, imm, se + nibble * 256) && Eq(p, sum, next + lsb) && Eq(p, sum + carry * 256, x + se)
    ensures next + lsb + 256 * carry == x + imm - 256 * nibble
  {
    ZeroAdd(p, sum + carry * 256 - (x + se), sum - (next + lsb));
    ZeroAdd(p, sum + carry * 256 - (x + se) - (sum - (next + lsb)), imm - (se + nibble * 256));
    Lift(p, next + lsb + 256 * carry - (x + imm - 256 * nibble));
  }

  /** A higher limb of the sum, with its immediate byte eliminated. */
  lemma {:induction false} HighLimbForced(p: int, x: int, k: int, se: int, carryIn: int, sum: int, carry: int, next: int)
    requires p > MIN_FIELD && IsByte(x) && IsByte(next) && IsBit(carry) && IsBit(carryIn) && 0 <= k < 256
    requires Eq(p, se, k) && Eq(p, next, sum) && Eq(p, sum + carry * 256, x + se + carryIn)
    ensures next + 256 * carry == x + k + carryIn
  {
    ZeroAdd(p, sum + carry * 256 - (x + se + carryIn), next - sum);
    ZeroAdd(p, sum + carry * 256 - (x + se + carryIn) + (next - sum), se - k);
    Lift(p, next + 256 * carry - (x + k + carryIn));
  }

  lemma {:induction false} JumpTelescopes(x: Limbs, next: Limbs, imm: int, nibble: int, sign: int, lsb: int, c: Limbs)
    requires next[0] + lsb + 256 * c[0] == x[0] + imm - 256 * nibble
    requires next[1] + 256 * c[1] == x[1] + (nibble + sign * 0xF0) + c[0]
    requires next[2] + 256 * c[2] == x[2] + sign * 0xFF + c[1] && next[3] + 256 * c[3] == x[3] + sign * 0xFF + c[2]
    ensures Value(next) + lsb + TWO32 * c[3] == Value(x) + imm + sign * (TWO32 - 4096)
  {
  }

  /** An accepted row jumps to rs1 plus the immediate read with its sign column, less its lsb column. */
  lemma {:induction false} JumpForced(p: int, r: JalrColumns)
    requires LargePrime(p) && JalrResidues(p, r) && JalrEval(p, r) && 0 <= r.imm < 4096
    requires AreBytes(r.rs1Value) && AreBytes(r.nextPc)
    ensures IsBit(r.immHighBits[3]) && IsBit(r.sumLsb) && IsBit(r.sumCarries[3])
    ensures Value(r.nextPc) + r.sumLsb + TWO32 * r.sumCarries[3]
         == Value(r.rs1Value) + r.imm + r.immHighBits[3] * (TWO32 - 4096)
  {
    var b, c, x := r.immHighBits, r.sumCarries, r.rs1Value;
    BitsForcedFour(p, b);
    BoolResidue(p, r.sumLsb);
    BoolsForced(p, c);
    assert AddLimb(p, x, r.immSe, r.sum, 0, c, 0) && AddLimb(p, x, r.immSe, r.sum, 0, c, 1);
    assert AddLimb(p, x, r.immSe, r.sum, 0, c, 2) && AddLimb(p, x, r.immSe, r.sum, 0, c, 3);
    hide IsPrime, U32PlusFour, U32Add, Eq, Bool, Residues, Value;
    LowLimbForced(p, x[0], r.imm, Nibble(b), r.immSe[0], r.sum[0], c[0], r.sumLsb, r.nextPc[0]);
    HighLimbForced(p, x[1], Nibble(b) + b[3] * 0xF0, r.immSe[1], c[0], r.sum[1], c[1], r.nextPc[1]);
    HighLimbForced(p, x[2], b[3] * 0xFF, r.immSe[2], c[1], r.sum[2], c[2], r.nextPc[2]);
    HighLimbForced(p, x[3], b[3] * 0xFF, r.immSe[3], c[2], r.sum[3], c[3], r.nextPc[3]);
    JumpTelescopes(x, r.nextPc, r.imm, Nibble(b), b[3], r.sumLsb, c);
  }

  /** The machine's target for a word and a 12-bit immediate field. */
  function Target(v1: word, imm: int): int {
    var sum := Wrap(v1 + Wrap(SignExtend12(imm)));
    sum - sum % 2
  }

  lemma {:induction false} TargetIff(v1: word, imm: int, sign: int, lsb: int, carry: int, next: word)
    requires 0 <= imm < 4096 && IsBit(sign) && IsBit(lsb) && IsBit(carry)
    requires next + lsb + TWO32 * carry == v1 + imm + sign * (TWO32 - 4096)
    ensures next == Target(v1, imm) <==> sign == Flag(imm >= 2048) && next % 2 == 0
  {
    var x := v1 + SignExtend12(imm);
    WrapOfWrapped(v1, SignExtend12(imm));
    var q := x / TWO32;
    assert x == Wrap(x) + TWO32 * q && -1 <= q <= 1;
    hide Wrap;
    TargetCases(Wrap(x), q, x, imm, sign, lsb, carry, next, v1);
  }

  lemma {:induction false} TargetCases(sum: word, q: int, x: int, imm: int, sign: int, lsb: int, carry: int, next: word, v1: word)
    requires 0 <= imm < 4096 && IsBit(sign) && IsBit(lsb) && IsBit(carry) && -1 <= q <= 1
    requires x == v1 + SignExtend12(imm) && x == sum + TWO32 * q
    requires next + lsb + TWO32 * carry == v1 + imm + sign * (TWO32 - 4096)
    ensures next == sum - sum % 2 <==> sign == Flag(imm >= 2048) && next % 2 == 0
  {
    if sign == Flag(imm >= 2048) {
      assert next + lsb == sum + TWO32 * (q - carry + sign);
    } else if sign == 1 {
      assert next + lsb == sum - 4096 + TWO32 * (q - carry + 1);
    } else {
      assert next + lsb == sum + 4096 + TWO32 * (q - carry);
    }
  }

  /**
   * An accepted JALR row over bytes jumps where the machine does exactly when its sign column is the
   * sign of the immediate and its next pc is even, and links what the machine writes exactly when rd
   * is not register 0. The low immediate byte is not range checked, the next pc is not asserted to be
   * even, and the link of register 0 is not suppressed.
   */
  lemma {:induction false} JalrSound(p: int, r: JalrColumns, rd: reg, rs1: reg)
    requires LargePrime(p) && JalrResidues(p, r) && JalrEval(p, r) && 0 <= r.imm < 4096
    requires AreBytes(r.pc) && AreBytes(r.rs1Value) && AreBytes(r.rdVal) && AreBytes(r.nextPc)
    ensures 0 <= Value(r.pc) < TWO32 && 0 <= Value(r.rs1Value) < TWO32 && Value(r.rdVal) == Value(r.pc) + 4 < TWO32
    ensures var i := Jalr(rd, rs1, SignExtend12(r.imm));
            && (Value(r.nextPc) == NextPcFrom(i, Value(r.pc), Value(r.rs1Value))
                <==> r.immHighBits[3] == Flag(r.imm >= 2048) && r.nextPc[0] % 2 == 0)
            && (Value(r.rdVal) == Result(i, Value(r.pc), Value(r.rs1Value), 0) <==> rd != 0)
  {
    hide *;
    JumpIff(p, r);
    LinkForced(p, r);
    TargetOf(rd, rs1, r.imm, Value(r.pc), Value(r.rs1Value));
    LinkIff(rd, rs1, r.imm, Value(r.pc), Value(r.rs1Value), Value(r.rdVal));
  }

  lemma {:induction false} JumpIff(p: int, r: JalrColumns)
    requires LargePrime(p) && JalrResidues(p, r) && JalrEval(p, r) && 0 <= r.imm < 4096
    requires AreBytes(r.rs1Value) && AreBytes(r.nextPc)
    ensures 0 <= Value(r.rs1Value) < TWO32
    ensures Value(r.nextPc) == Target(Value(r.rs1Value), r.imm)
       <==> r.immHighBits[3] == Flag(r.imm >= 2048) && r.nextPc[0] % 2 == 0
  {
    hide *;
    JumpForced(p, r);
    ValueToLimbs(r.rs1Value);
    ValueToLimbs(r.nextPc);
    LowBitOfValue(r.nextPc);
    TargetIff(Value(r.rs1Value), r.imm, r.immHighBits[3], r.sumLsb, r.sumCarries[3], Value(r.nextPc));
  }

  lemma {:induction false} LinkForced(p: int, r: JalrColumns)
    requires LargePrime(p) && JalrEval(p, r) && AreBytes(r.pc) && AreBytes(r.rdVal)
    ensures 0 <= Value(r.pc) < TWO32 && Value(r.rdVal) == Value(r.pc) + 4 < TWO32
  {
    assert U32PlusFour(p, r.pc, r.rdVal, r.rdValCarries);
    hide *;
    U32PlusFourMeans(p, r.pc, r.rdVal, r.rdValCarries);
    ValueToLimbs(r.pc);
    ValueToLimbs(r.rdVal);
  }

  lemma {:induction false} TargetOf(rd: reg, rs1: reg, imm: int, pc: word, v1: word)
    ensures NextPcFrom(Jalr(rd, rs1, SignExtend12(imm)), pc, v1) == Target(v1, imm)
  {
    hide Wrap, SignExtend12;
  }

  lemma {:induction false} LinkIff(rd: reg, rs1: reg, imm: int, pc: word, v1: word, link: word)
    requires link == pc + 4
    ensures link == Result(Jalr(rd, rs1, SignExtend12(imm)), pc, v1, 0) <==> rd != 0
  {
    hide SignExtend12;
  }

  lemma {:induction false} LowBitOfValue(x: Limbs)
    ensures Value(x) % 2 == x[0] % 2
  {
    assert Value(x) == x[0] + 2 * (128 * x[1] + 32768 * x[2] + 8388608 * x[3]);
    EvenShift(x[0], 128 * x[1] + 32768 * x[2] + 8388608 * x[3]);
  }

  lemma {:induction false} EvenShift(a: int, k: int)
    ensures (a + 2 * k) % 2 == a % 2
  {
  }

  // The trace builder.

  /** `fill_row`; rdVal is the value the machine logged. */
  function FillJalr(pc: word, timestamp: nat, rd: reg, rs1: reg, imm: int, v1: word, oldRd: word, rdVal: word): JalrColumns {
    var immSe := Wrap(imm);
    var immU12 := immSe % 4096;
    var sum := Wrap(v1 + immSe);
    JalrColumns(ToLimbs(pc), timestamp, rd, rs1, immU12, ToBits(immU12 / 256, 4), ToLimbs(immSe),
                ToLimbs(v1), ToLimbs(oldRd), ToLimbs(rdVal), PcPlus4Carries(pc),
                ToLimbs(sum), CarriesOf(ToLimbs(v1), ToLimbs(immSe), 0), sum % 2, ToLimbs(sum - sum % 2), 1)
  }

  lemma {:induction false} NibbleOf(n: nat)
    requires n < 16
    ensures Nibble(ToBits(n, 4)) == n && ToBits(n, 4)[3] == n / 8
  {
    assert ToBits(n, 4) == [n % 2] + ToBits(n / 2, 3);
    assert ToBits(n / 2, 3) == [(n / 2) % 2] + ToBits(n / 4, 2);
    assert ToBits(n / 4, 2) == [(n / 4) % 2] + ToBits(n / 8, 1);
    assert ToBits(n / 8, 1) == [(n / 8) % 2] + ToBits(n / 16, 0);
    hide ToBits;
  }

  /** The limbs of a sign-extended 12-bit immediate. */
  lemma {:induction false} ImmediateLimbs(imm: int)
    requires -2048 <= imm < 2048
    ensures var u, se := Wrap(imm) % 4096, ToLimbs(Wrap(imm));
            && u == se[0] + 256 * (u / 256) && se[1] == u / 256 + (u / 2048) * 0xF0 && se[2] == (u / 2048) * 0xFF
            && se[3] == (u / 2048) * 0xFF && SignExtend12(u) == imm && u / 256 / 8 == u / 2048
  {
    if imm >= 0 {
      WrapIs(imm, 0, imm);
      hide Wrap;
    } else {
      WrapIs(imm, -1, imm + TWO32);
      hide Wrap;
      NegativeLimbs(imm + 4096);
    }
  }

  lemma {:induction false} NegativeLimbs(u: int)
    requires 2048 <= u < 4096
    ensures var v := u + 4096 * 0xF_FFFF;
            && v % 4096 == u && v % 256 == u % 256 && (v / 256) % 256 == u / 256 + 0xF0 && (v / 65536) % 256 == 0xFF
            && v / 16777216 == 0xFF && u / 2048 == 1 && u / 256 / 8 == 1
  {
    var v := u + 4096 * 0xF_FFFF;
    assert v / 256 == u / 256 + 16 * 0xF_FFFF;
    assert v / 65536 == 0xFFFF && v / 16777216 == 0xFF;
  }

  lemma {:induction false} SignAccepted(p: int, imm: int)
    requires p > 0 && -2048 <= imm < 2048
    ensures SignExtends(p, Wrap(imm) % 4096, ToBits(Wrap(imm) % 4096 / 256, 4), ToLimbs(Wrap(imm)))
  {
    ImmediateLimbs(imm);
    var u := Wrap(imm) % 4096;
    NibbleOf(u / 256);
    BitsAreBools(p, ToBits(u / 256, 4));
    MultipleIsZero(p, 0);
    hide ToBits, ToLimbs, Wrap, Bool, Nibble;
  }

  lemma {:induction false} LsbAccepted(p: int, sum: word)
    requires p > 0
    ensures ClearsLsb(p, ToLimbs(sum), sum % 2, ToLimbs(sum - sum % 2))
  {
    MultipleIsZero(p, 0);
    var even := sum - sum % 2;
    assert sum % 256 == even % 256 + sum % 2 && sum / 256 == even / 256;
    assert sum / 65536 == (sum / 256) / 256 && even / 65536 == (even / 256) / 256;
    assert sum / 16777216 == (sum / 256) / 65536 && even / 16777216 == (even / 256) / 65536;
  }

  /** The JALR trace builder makes an accepted row of every jump that links pc + 4. */
  lemma {:induction false} JalrComplete(p: int, pc: word, timestamp: nat, rd: reg, rs1: reg, imm: int, v1: word, oldRd: word)
    requires p > 1 && pc + 4 < TWO32 && -2048 <= imm < 2048
    ensures var r := FillJalr(pc, timestamp, rd, rs1, imm, v1, oldRd, pc + 4);
            && JalrEval(p, r) && AreBytes(r.pc) && AreBytes(r.rs1Value) && AreBytes(r.rdVal) && AreBytes(r.nextPc)
            && SignExtend12(r.imm) == imm && r.immHighBits[3] == Flag(r.imm >= 2048) && r.nextPc[0] % 2 == 0
  {
    var sum := Wrap(v1 + Wrap(imm));
    BuiltBytes(pc, v1, sum);
    BuiltSign(imm);
    SignAccepted(p, imm);
    LsbAccepted(p, sum);
    AddWitness(p, v1, Wrap(imm));
    PlusFourWitness(p, pc);
    BitIsBool(p, 1);
    hide ToLimbs, ToBits, Value, U32Add, U32PlusFour, SignExtends, ClearsLsb, Bool, PcPlus4Carries, CarriesOf, Wrap, Nibble,
         SignExtend12, AreBytes, Flag;
  }

  lemma {:induction false} BuiltBytes(pc: word, v1: word, sum: word)
    requires pc + 4 < TWO32
    ensures AreBytes(ToLimbs(pc)) && AreBytes(ToLimbs(v1)) && AreBytes(ToLimbs(pc + 4)) && AreBytes(ToLimbs(sum - sum % 2))
    ensures ToLimbs(sum - sum % 2)[0] % 2 == 0
  {
    hide ToLimbs, AreBytes, Value;
    ToLimbsValue(pc);
    ToLimbsValue(v1);
    ToLimbsValue(pc + 4);
    ToLimbsValue(sum - sum % 2);
    LowBitOfValue(ToLimbs(sum - sum % 2));
  }

  lemma {:induction false} BuiltSign(imm: int)
    requires -2048 <= imm < 2048
    ensures var u := Wrap(imm) % 4096;
            SignExtend12(u) == imm && ToBits(u / 256, 4)[3] == Flag(u >= 2048)
  {
    ImmediateLimbs(imm);
    hide Wrap, ToLimbs;
    NibbleOf(Wrap(imm) % 4096 / 256);
  }

  // The open columns, at inputs.

  /** jalr x0, 0(x1) at address 0 with x1 = 8: the machine logs 0, and the only accepted link is 4. */
  lemma {:induction false} ZeroLinkRefused(p: int)
    requires LargePrime(p)
    ensures Result(Jalr(0, 1, 0), 0, 8, 0) == 0
    ensures !JalrEval(p, FillJalr(0, 0, 0, 1, 0, 8, 0, 0)) && JalrEval(p, FillJalr(0, 0, 0, 1, 0, 8, 0, 4))
  {
    JalrComplete(p, 0, 0, 0, 1, 0, 8, 0);
    var r := FillJalr(0, 0, 0, 1, 0, 8, 0, 0);
    ZeroWord();
    assert r.pc == r.rdVal == ToLimbs(0);
    hide *;
    if JalrEval(p, r) {
      ToLimbsValue(0);
      LinkForced(p, r);
    }
  }

  /** jalr x2, 0(x1) with x1 = 8 jumping to 7: lsb 1 is taken off an even sum. */
  const ODD_JUMP := JalrColumns(
    [0, 0, 0, 0], 0, 2, 1, 0, [0, 0, 0, 0], [0, 0, 0, 0], [8, 0, 0, 0], [0, 0, 0, 0], [4, 0, 0, 0], [0, 0, 0],
    [8, 0, 0, 0], [0, 0, 0, 0], 1, [7, 0, 0, 0], 1)

  /** jalr x2, -2048(x1) with x1 = 0 jumping to 2048: sign column 0, low immediate byte 256. */
  const UNSIGNED_JUMP := JalrColumns(
    [0, 0, 0, 0], 0, 2, 1, 2048, [1, 1, 1, 0], [256, 7, 0, 0], [0, 0, 0, 0], [0, 0, 0, 0], [4, 0, 0, 0], [0, 0, 0],
    [0, 8, 0, 0], [1, 0, 0, 0], 0, [0, 8, 0, 0], 1)

  lemma {:induction false} ConstantsAdd(p: int)
    requires p > 1
    ensures U32Add(p, [8, 0, 0, 0], [0, 0, 0, 0], [8, 0, 0, 0], [0, 0, 0, 0])
    ensures U32Add(p, [0, 0, 0, 0], [256, 7, 0, 0], [0, 8, 0, 0], [1, 0, 0, 0])
    ensures U32PlusFour(p, [0, 0, 0, 0], [4, 0, 0, 0], [0, 0, 0])
  {
    MultipleIsZero(p, 0);
    BoolsAccepted(p, [0, 0, 0, 0]);
    BoolsAccepted(p, [1, 0, 0, 0]);
    BoolsAccepted(p, [0, 0, 0]);
  }

  /** Accepted rows that jump where the machine does not. */
  lemma {:induction false} WrongJumps(p: int)
    requires LargePrime(p)
    ensures JalrResidues(p, ODD_JUMP) && JalrEval(p, ODD_JUMP) && JalrResidues(p, UNSIGNED_JUMP) && JalrEval(p, UNSIGNED_JUMP)
    ensures SignExtend12(ODD_JUMP.imm) == 0 && Value(ODD_JUMP.nextPc) == 7 && NextPcFrom(Jalr(2, 1, 0), 0, 8) == 8
    ensures SignExtend12(UNSIGNED_JUMP.imm) == -2048 && Value(UNSIGNED_JUMP.nextPc) == 2048
    ensures NextPcFrom(Jalr(2, 1, -2048), 0, 0) == TWO32 - 2048
  {
    ConstantsAdd(p);
    MultipleIsZero(p, 0);
    hide U32Add, U32PlusFour, IsPrime;
  }
}
