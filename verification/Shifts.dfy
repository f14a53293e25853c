/** The SLL and SRA tables: a within-byte shift by lookup, then a whole-byte move by one-hot selectors. */
module Shifts {
  import opened Division
  import opened Words
  import opened Bits
  import opened PrimeField
  import opened Rv32
  import opened ByteTables
  import opened U32Ops
  import opened U32Witness

  /** The shift-amount columns shared by the shift tables; isBs are the one-hot byte_shamt selectors. */
  datatype Amount = Amount(bitShamt: int, byteShamt: int, rs2ShamtHigh: int, isBs: Limbs)

  datatype SllColumns = SllColumns(
    pc: Limbs, timestamp: int, rd: int, rs1: int, rs2: int,
    rs1Bytes: Limbs, rs2Value: Limbs, oldRdValue: Limbs, rdBytes: Limbs,
    amount: Amount, shiftedBytes: Limbs, carryBytes: Limbs,
    nextPc: Limbs, nextPcCarries: Carries3, isDummy: int)

  datatype SraColumns = SraColumns(
    pc: Limbs, timestamp: int, rd: int, rs1: int, rs2: int,
    rs1Bytes: Limbs, rs2Value: Limbs, oldRdValue: Limbs, rdBytes: Limbs,
    amount: Amount, shiftedBytes: Limbs, carryBytes: Limbs,
    signBit: int, fillByte: int, rs1Byte3Low7: int, srlFfShifted: int, srlFfCarry: int,
    nextPc: Limbs, nextPcCarries: Carries3, isDummy: int)

  // The shift amount.

  ghost predicate AmountConstraints(p: int, a: Amount, rs2Byte0: int)
    requires p > 0
  {
    && BoolColumns(p, a.isBs)
    && Eq(p, a.isBs[0] + a.isBs[1] + a.isBs[2] + a.isBs[3], 1)
    && Eq(p, a.byteShamt, a.isBs[1] + a.isBs[2] * 2 + a.isBs[3] * 3)
    && Eq(p, rs2Byte0, a.bitShamt + a.byteShamt * 8 + a.rs2ShamtHigh * 32)
  }

  predicate OneHot(isBs: Limbs, k: int) {
    forall j :: 0 <= j < 4 ==> isBs[j] == if j == k then 1 else 0
  }

  /** The shift-amount equation has one solution once its parts are range checked. */
  lemma {:induction false} AmountForced(p: int, a: Amount, rs2Byte0: int)
    requires LargePrime(p) && Residue(p, a.byteShamt) && AmountConstraints(p, a, rs2Byte0)
    requires IsByte(rs2Byte0) && IsByte(a.rs2ShamtHigh) && 0 <= a.bitShamt < 8
    ensures a.bitShamt == rs2Byte0 % 8 && a.byteShamt == (rs2Byte0 / 8) % 4 && a.rs2ShamtHigh == rs2Byte0 / 32
    ensures OneHot(a.isBs, a.byteShamt)
  {
    BoolsForced(p, a.isBs);
    Lift(p, a.isBs[0] + a.isBs[1] + a.isBs[2] + a.isBs[3] - 1);
    Lift(p, a.byteShamt - (a.isBs[1] + a.isBs[2] * 2 + a.isBs[3] * 3));
    Lift(p, rs2Byte0 - (a.bitShamt + a.byteShamt * 8 + a.rs2ShamtHigh * 32));
  }

  /** The shift-amount witness of the trace builders. */
  function AmountOf(rs2: word): Amount {
    var shamt := rs2 % 32;
    Amount(shamt % 8, shamt / 8, (rs2 % 256) / 32,
           [Flag(shamt / 8 == 0), Flag(shamt / 8 == 1), Flag(shamt / 8 == 2), Flag(shamt / 8 == 3)])
  }

  lemma {:induction false} AmountOneHot(rs2: word)
    ensures OneHot(AmountOf(rs2).isBs, AmountOf(rs2).byteShamt) && 0 <= AmountOf(rs2).byteShamt < 4
    ensures AreBits(AmountOf(rs2).isBs)
  {
  }

  lemma {:induction false} AmountAdds(rs2: word)
    ensures var a := AmountOf(rs2);
            ToLimbs(rs2)[0] == a.bitShamt + a.byteShamt * 8 + a.rs2ShamtHigh * 32
  {
    LowFiveBits(rs2);
    var b := rs2 % 256;
    assert ToLimbs(rs2)[0] == b;
    hide ToLimbs;
    assert (b % 32) % 8 + ((b % 32) / 8) * 8 + (b / 32) * 32 == b;
  }

  lemma {:induction false} LowFiveBits(x: int)
    ensures x % 32 == (x % 256) % 32
  {
    var b := x % 256;
    RemainderUnique(32, 8 * (x / 256) + b / 32, b % 32);
  }

  lemma {:induction false} OneHotSums(isBs: Limbs, k: int)
    requires OneHot(isBs, k) && 0 <= k < 4
    ensures isBs[0] + isBs[1] + isBs[2] + isBs[3] == 1 && k == isBs[1] + isBs[2] * 2 + isBs[3] * 3
  {
  }

  lemma {:induction false} AmountAccepted(p: int, rs2: word)
    requires p > 1
    ensures AmountConstraints(p, AmountOf(rs2), ToLimbs(rs2)[0])
  {
    var a := AmountOf(rs2);
    AmountOneHot(rs2);
    AmountAdds(rs2);
    hide AmountOf, ToLimbs;
    OneHotSums(a.isBs, a.byteShamt);
    BoolsAccepted(p, a.isBs);
    MultipleIsZero(p, 0);
  }

  lemma {:induction false} AmountIsShamt(rs2: Limbs)
    requires AreBytes(rs2)
    ensures Value(rs2) % 32 == rs2[0] % 8 + 8 * ((rs2[0] / 8) % 4)
  {
  }

  lemma {:induction false} Regroup(a: int, b: int, c: int)
    ensures (a * b) * c == b * (a * c)
  {
  }

  lemma {:induction false} ShamtPower(s: nat, k: nat, x: int)
    ensures Pow2(s + 8 * k) * x == Pow2(8 * k) * (Pow2(s) * x)
  {
    hide Pow2;
    Pow2Sum(s, 8 * k);
    Regroup(Pow2(s), Pow2(8 * k), x);
  }

  lemma {:induction false} BytePowers(k: nat)
    requires k < 4
    ensures Pow2(8 * k) == [1, 256, 65536, 16777216][k]
  {
    assert Pow2(8) == 256;
    Pow2Sum(8, 8);
    Pow2Sum(8, 16);
  }

  // SLL.

  /** The bytes after the within-byte left shift; carries go to the next higher byte. */
  function InterLeft(shifted: Limbs, carry: Limbs): Limbs {
    [shifted[0], shifted[1] + carry[0], shifted[2] + carry[1], shifted[3] + carry[2]]
  }

  function MovedLeft(x: Limbs, k: int): Limbs {
    if k == 0 then x
    else if k == 1 then [0, x[0], x[1], x[2]]
    else if k == 2 then [0, 0, x[0], x[1]]
    else [0, 0, 0, x[0]]
  }

  predicate MoveLeftConstraints(p: int, rd: Limbs, isBs: Limbs, x: Limbs)
    requires p > 0
  {
    && Eq(p, rd[0], isBs[0] * x[0])
    && Eq(p, rd[1], isBs[0] * x[1] + isBs[1] * x[0])
    && Eq(p, rd[2], isBs[0] * x[2] + isBs[1] * x[1] + isBs[2] * x[0])
    && Eq(p, rd[3], isBs[0] * x[3] + isBs[1] * x[2] + isBs[2] * x[1] + isBs[3] * x[0])
  }

  ghost predicate SllEval(p: int, r: SllColumns)
    requires p > 0
  {
    && Bool(p, r.isDummy)
    && U32PlusFour(p, r.pc, r.nextPc, r.nextPcCarries)
    && AmountConstraints(p, r.amount, r.rs2Value[0])
    && MoveLeftConstraints(p, r.rdBytes, r.amount.isBs, InterLeft(r.shiftedBytes, r.carryBytes))
  }

  /** The four tuples a row sends to `byte_sll` are in the table. */
  ghost predicate SllTuples(b: Limbs, s: int, shifted: Limbs, carry: Limbs) {
    forall i :: 0 <= i < 4 ==> InSllTable(ShiftRow(b[i], s, shifted[i], carry[i]))
  }

  /** What the `byte_sll` and `bytes` lookups of a real row guarantee. */
  ghost predicate SllLookups(r: SllColumns) {
    && SllTuples(r.rs1Bytes, r.amount.bitShamt, r.shiftedBytes, r.carryBytes)
    && AreBytes(r.rs2Value) && IsByte(r.amount.rs2ShamtHigh) && AreBytes(r.rdBytes)
  }

  lemma {:induction false} MoveLeftForced(p: int, rd: Limbs, isBs: Limbs, x: Limbs, k: int)
    requires p > MIN_FIELD && 0 <= k < 4 && OneHot(isBs, k) && MoveLeftConstraints(p, rd, isBs, x)
    requires AreBytes(rd) && AreBytes(x)
    ensures rd == MovedLeft(x, k)
  {
    Lift(p, rd[0] - (isBs[0] * x[0]));
    Lift(p, rd[1] - (isBs[0] * x[1] + isBs[1] * x[0]));
    Lift(p, rd[2] - (isBs[0] * x[2] + isBs[1] * x[1] + isBs[2] * x[0]));
    Lift(p, rd[3] - (isBs[0] * x[3] + isBs[1] * x[2] + isBs[2] * x[1] + isBs[3] * x[0]));
  }

  lemma {:induction false} MoveLeftAccepted(p: int, isBs: Limbs, x: Limbs, k: int)
    requires p > 0 && 0 <= k < 4 && OneHot(isBs, k)
    ensures MoveLeftConstraints(p, MovedLeft(x, k), isBs, x)
  {
    MultipleIsZero(p, 0);
  }

  /** The bytes pushed out at the top by a move of k bytes. */
  function PushedOut(x: Limbs, k: int): int {
    if k == 0 then 0
    else if k == 1 then x[3]
    else if k == 2 then x[2] + 256 * x[3]
    else x[1] + 256 * x[2] + 65536 * x[3]
  }

  lemma {:induction false} MovedLeftValue(x: Limbs, k: nat)
    requires k < 4
    ensures Value(MovedLeft(x, k)) + TWO32 * PushedOut(x, k) == Pow2(8 * k) * Value(x)
  {
    BytePowers(k);
  }

  lemma {:induction false} ScaledValue(m: int, b: Limbs)
    ensures Value([m * b[0], m * b[1], m * b[2], m * b[3]]) == m * Value(b)
  {
  }

  lemma {:induction false} InterLeftValue(m: int, b: Limbs, shifted: Limbs, carry: Limbs)
    requires forall i :: 0 <= i < 4 ==> shifted[i] + 256 * carry[i] == m * b[i]
    ensures Value(InterLeft(shifted, carry)) + TWO32 * carry[3] == m * Value(b)
  {
    var y := [m * b[0], m * b[1], m * b[2], m * b[3]];
    ScaledValue(m, b);
    assert Value(InterLeft(shifted, carry)) + TWO32 * carry[3] == Value(y);
  }

  /** Shifting bytes through the table and moving them is multiplication by 2^shamt modulo 2^32. */
  lemma {:induction false} LeftShiftMeans(b: Limbs, s: nat, k: nat, shifted: Limbs, carry: Limbs)
    requires s < 8 && k < 4 && AreBytes(b)
    requires SllTuples(b, s, shifted, carry)
    ensures AreBytes(InterLeft(shifted, carry)) && AreBytes(MovedLeft(InterLeft(shifted, carry), k))
    ensures Value(MovedLeft(InterLeft(shifted, carry), k)) == Shl(Value(b), s + 8 * k)
  {
    var m, x := Pow2(s), InterLeft(shifted, carry);
    forall i | 0 <= i < 4
      ensures shifted[i] + 256 * carry[i] == m * b[i] && 0 <= shifted[i] <= 256 - m && 0 <= carry[i] < m
    {
      SllRowSplits(ShiftRow(b[i], s, shifted[i], carry[i]));
    }
    hide SllTuples, InSllTable;
    PowersMultiply(s);
    ProductOrder(m, 1, Pow2(8 - s));
    InterLeftValue(m, b, shifted, carry);
    MovedLeftValue(x, k);
    ShamtPower(s, k, Value(b));
    ValueToLimbs(b);
    ValueToLimbs(MovedLeft(x, k));
    LeftShiftWraps(Value(b), s, k, Value(x), carry[3], PushedOut(x, k), Value(MovedLeft(x, k)));
  }

  lemma {:induction false} ScaleSum(d: int, inter: int, top: int, moved: int, out: int)
    requires moved + TWO32 * out == d * inter
    ensures d * (inter + TWO32 * top) == moved + TWO32 * (out + d * top)
  {
  }

  lemma {:induction false} LeftShiftWraps(v: word, s: nat, k: nat, inter: int, top: int, out: int, moved: int)
    requires 0 <= moved < TWO32
    requires inter + TWO32 * top == Pow2(s) * v
    requires moved + TWO32 * out == Pow2(8 * k) * inter
    ensures moved == Shl(v, s + 8 * k)
  {
    hide Pow2, Wrap;
    ShamtPower(s, k, v);
    var d := Pow2(8 * k);
    ScaleSum(d, inter, top, moved, out);
    WrapIs(v * Pow2(s + 8 * k), out + d * top, moved);
  }

  /**
   * Every accepted SLL row writes rs1 shifted left by rs2 mod 32, and advances the pc by four when
   * the limbs of the two addresses are bytes.
   */
  lemma {:induction false} SllSound(p: int, r: SllColumns)
    requires LargePrime(p) && Residue(p, r.amount.byteShamt) && SllEval(p, r) && SllLookups(r)
    ensures AreBytes(r.rs1Bytes)
    ensures Value(r.rdBytes) == Shl(Value(r.rs1Bytes), Value(r.rs2Value) % 32)
    ensures AreBytes(r.pc) && AreBytes(r.nextPc) ==> Value(r.nextPc) == Value(r.pc) + 4
  {
    var a, x := r.amount, InterLeft(r.shiftedBytes, r.carryBytes);
    SllTuplesAreBytes(r.rs1Bytes, a.bitShamt, r.shiftedBytes, r.carryBytes);
    AmountForced(p, a, r.rs2Value[0]);
    hide SllTuples, InSllTable;
    LeftShiftMeans(r.rs1Bytes, a.bitShamt, a.byteShamt, r.shiftedBytes, r.carryBytes);
    MoveLeftForced(p, r.rdBytes, a.isBs, x, a.byteShamt);
    AmountIsShamt(r.rs2Value);
    if AreBytes(r.pc) && AreBytes(r.nextPc) {
      U32PlusFourMeans(p, r.pc, r.nextPc, r.nextPcCarries);
    }
  }

  /** `fill_row` of the SLL trace builder. */
  function FillSll(pc: word, timestamp: nat, rd: reg, rs1: reg, rs2: reg,
                   rs1Value: word, rs2Value: word, oldRd: word, rdNew: word): SllColumns
    requires pc + 4 < TWO32
  {
    var a, b := AmountOf(rs2Value), ToLimbs(rs1Value);
    SllColumns(ToLimbs(pc), timestamp, rd, rs1, rs2,
               b, ToLimbs(rs2Value), ToLimbs(oldRd), ToLimbs(rdNew),
               a, [SllRow(b[0], a.bitShamt).shifted, SllRow(b[1], a.bitShamt).shifted,
                   SllRow(b[2], a.bitShamt).shifted, SllRow(b[3], a.bitShamt).shifted],
               [SllRow(b[0], a.bitShamt).carry, SllRow(b[1], a.bitShamt).carry,
                SllRow(b[2], a.bitShamt).carry, SllRow(b[3], a.bitShamt).carry],
               ToLimbs(pc + 4), PcPlus4Carries(pc), 1)
  }

  lemma {:induction false} SllTuplesAreBytes(b: Limbs, s: int, shifted: Limbs, carry: Limbs)
    requires SllTuples(b, s, shifted, carry)
    ensures AreBytes(b) && 0 <= s < 8
  {
    assert InSllTable(ShiftRow(b[0], s, shifted[0], carry[0])) && InSllTable(ShiftRow(b[1], s, shifted[1], carry[1]));
    assert InSllTable(ShiftRow(b[2], s, shifted[2], carry[2])) && InSllTable(ShiftRow(b[3], s, shifted[3], carry[3]));
  }

  lemma {:induction false} SllTuplesBuilt(b: Limbs, s: nat, shifted: Limbs, carry: Limbs)
    requires AreBytes(b) && s < 8
    requires forall i :: 0 <= i < 4 ==> IsByte(b[i]) && ShiftRow(b[i], s, shifted[i], carry[i]) == SllRow(b[i], s)
    ensures SllTuples(b, s, shifted, carry)
  {
    hide SllRow;
  }

  /** The SLL trace builder only makes accepted rows. */
  lemma {:induction false} SllComplete(p: int, pc: word, timestamp: nat, rd: reg, rs1: reg, rs2: reg,
                    rs1Value: word, rs2Value: word, oldRd: word, rdNew: word)
    requires p > 1 && pc + 4 < TWO32
    requires rdNew == Shl(rs1Value, rs2Value % 32)
    ensures var r := FillSll(pc, timestamp, rd, rs1, rs2, rs1Value, rs2Value, oldRd, rdNew);
            SllEval(p, r) && SllLookups(r)
  {
    var r := FillSll(pc, timestamp, rd, rs1, rs2, rs1Value, rs2Value, oldRd, rdNew);
    var a, x := r.amount, InterLeft(r.shiftedBytes, r.carryBytes);
    ToLimbsValue(rs1Value);
    ToLimbsValue(rs2Value);
    ToLimbsValue(Shl(rs1Value, rs2Value % 32));
    hide ToLimbs, SllRow, Pow2;
    SllTuplesBuilt(r.rs1Bytes, a.bitShamt, r.shiftedBytes, r.carryBytes);
    hide SllTuples, InSllTable;
    LeftShiftMeans(r.rs1Bytes, a.bitShamt, a.byteShamt, r.shiftedBytes, r.carryBytes);
    ValueToLimbs(MovedLeft(x, a.byteShamt));
    assert r.rdBytes == MovedLeft(x, a.byteShamt) by {
      assert a.bitShamt + 8 * a.byteShamt == rs2Value % 32;
    }
    AmountOneHot(rs2Value);
    AmountAccepted(p, rs2Value);
    MoveLeftAccepted(p, a.isBs, x, a.byteShamt);
    PlusFourWitness(p, pc);
    MultipleIsZero(p, 0);
  }

  // SRA.

  /** The bytes after the within-byte right shift; carries go to the next lower byte, sign bits to the top. */
  function InterRight(shifted: Limbs, carry: Limbs, sign: int, ffCarry: int): Limbs {
    [shifted[0] + carry[1], shifted[1] + carry[2], shifted[2] + carry[3], shifted[3] + sign * ffCarry]
  }

  function MovedRight(x: Limbs, fill: int, k: int): Limbs {
    if k == 0 then x
    else if k == 1 then [x[1], x[2], x[3], fill]
    else if k == 2 then [x[2], x[3], fill, fill]
    else [x[3], fill, fill, fill]
  }

  predicate MoveRightConstraints(p: int, rd: Limbs, isBs: Limbs, x: Limbs, fill: int)
    requires p > 0
  {
    && Eq(p, rd[3], isBs[0] * x[3] + (isBs[1] + isBs[2] + isBs[3]) * fill)
    && Eq(p, rd[2], isBs[0] * x[2] + isBs[1] * x[3] + (isBs[2] + isBs[3]) * fill)
    && Eq(p, rd[1], isBs[0] * x[1] + isBs[1] * x[2] + isBs[2] * x[3] + isBs[3] * fill)
    && Eq(p, rd[0], isBs[0] * x[0] + isBs[1] * x[1] + isBs[2] * x[2] + isBs[3] * x[3])
  }

  predicate SignConstraints(p: int, sign: int, fill: int, low7: int, top: int)
    requires p > 0
  {
    Bool(p, sign) && Eq(p, fill, sign * 255) && Eq(p, top, sign * 128 + low7)
  }

  ghost predicate SraEval(p: int, r: SraColumns)
    requires p > 0
  {
    && Bool(p, r.isDummy)
    && U32PlusFour(p, r.pc, r.nextPc, r.nextPcCarries)
    && AmountConstraints(p, r.amount, r.rs2Value[0])
    && SignConstraints(p, r.signBit, r.fillByte, r.rs1Byte3Low7, r.rs1Bytes[3])
    && MoveRightConstraints(p, r.rdBytes, r.amount.isBs, SraInter(r), r.fillByte)
  }

  /** The four tuples a row sends to `byte_srl` for the bytes of rs1 are in the table. */
  ghost predicate SrlTuples(b: Limbs, s: int, shifted: Limbs, carry: Limbs) {
    forall i :: 0 <= i < 4 ==> InSrlTable(ShiftRow(b[i], s, shifted[i], carry[i]))
  }

  function SraFfTuple(r: SraColumns): ShiftRow {
    ShiftRow(0xFF, r.amount.bitShamt, r.srlFfShifted, r.srlFfCarry)
  }

  /** What the `byte_srl` and `bytes` lookups of a real row guarantee. */
  ghost predicate SraLookups(r: SraColumns) {
    && SrlTuples(r.rs1Bytes, r.amount.bitShamt, r.shiftedBytes, r.carryBytes)
    && InSrlTable(SraFfTuple(r))
    && AreBytes(r.rs2Value) && IsByte(r.amount.rs2ShamtHigh) && AreBytes(r.rdBytes)
    && IsByte(r.rs1Byte3Low7)
  }

  predicate SraResidues(p: int, r: SraColumns) {
    Residue(p, r.amount.byteShamt) && Residue(p, r.signBit) && Residue(p, r.fillByte)
  }

  /** The 0xFF row of the right-shift table masks the bits an arithmetic shift fills. */
  lemma {:induction false} SignMask(r: ShiftRow)
    requires InSrlTable(r) && r.byteVal == 0xFF
    ensures r.carry == 256 - Pow2(8 - r.bitShamt)
  {
    SrlRowSplits(r);
    hide SrlTuples, InSrlTable;
    var n := Pow2(8 - r.bitShamt);
    assert r.carry + n + 256 * (r.shifted - n) == 0;
  }

  lemma {:induction false} SignForced(p: int, sign: int, fill: int, low7: int, top: int)
    requires LargePrime(p) && Residue(p, sign) && Residue(p, fill) && SignConstraints(p, sign, fill, low7, top)
    requires IsByte(top) && IsByte(low7)
    ensures fill == 255 * sign && top == sign * 128 + low7
    ensures sign == if low7 < 128 && top >= 128 then 1 else 0
  {
    BoolResidue(p, sign);
    Lift(p, fill - sign * 255);
    Lift(p, top - (sign * 128 + low7));
  }

  lemma {:induction false} MoveRightForced(p: int, rd: Limbs, isBs: Limbs, x: Limbs, fill: int, k: int)
    requires p > MIN_FIELD && 0 <= k < 4 && OneHot(isBs, k) && MoveRightConstraints(p, rd, isBs, x, fill)
    requires AreBytes(rd) && AreBytes(x) && IsByte(fill)
    ensures rd == MovedRight(x, fill, k)
  {
    Lift(p, rd[3] - (isBs[0] * x[3] + (isBs[1] + isBs[2] + isBs[3]) * fill));
    Lift(p, rd[2] - (isBs[0] * x[2] + isBs[1] * x[3] + (isBs[2] + isBs[3]) * fill));
    Lift(p, rd[1] - (isBs[0] * x[1] + isBs[1] * x[2] + isBs[2] * x[3] + isBs[3] * fill));
    Lift(p, rd[0] - (isBs[0] * x[0] + isBs[1] * x[1] + isBs[2] * x[2] + isBs[3] * x[3]));
  }

  lemma {:induction false} MoveRightAccepted(p: int, isBs: Limbs, x: Limbs, fill: int, k: int)
    requires p > 0 && 0 <= k < 4 && OneHot(isBs, k)
    ensures MoveRightConstraints(p, MovedRight(x, fill, k), isBs, x, fill)
  {
    MultipleIsZero(p, 0);
  }

  /** The low bytes a move of k bytes discards. */
  function Discarded(x: Limbs, k: int): int {
    if k == 0 then 0
    else if k == 1 then x[0]
    else if k == 2 then x[0] + 256 * x[1]
    else x[0] + 256 * x[1] + 65536 * x[2]
  }

  lemma {:induction false} MovedRightValue(x: Limbs, sign: int, k: nat)
    requires k < 4 && AreBytes(x) && (sign == 0 || sign == 1)
    ensures var d := Pow2(8 * k);
            d * (Value(MovedRight(x, 255 * sign, k)) - TWO32 * sign) + Discarded(x, k) == Value(x) - TWO32 * sign
    ensures 0 <= Discarded(x, k) < Pow2(8 * k) && AreBytes(MovedRight(x, 255 * sign, k))
  {
    BytePowers(k);
  }

  lemma {:induction false} InterRightValue(n: int, b: Limbs, shifted: Limbs, carry: Limbs, sign: int)
    requires forall i :: 0 <= i < 4 ==> carry[i] + 256 * shifted[i] == n * b[i]
    requires sign == 0 || sign == 1
    ensures 256 * (Value(InterRight(shifted, carry, sign, 256 - n)) - TWO32 * sign) + carry[0]
         == n * (Value(b) - TWO32 * sign)
  {
    var y := [n * b[0], n * b[1], n * b[2], n * b[3]];
    ScaledValue(n, b);
    var x := InterRight(shifted, carry, sign, 256 - n);
    assert 256 * Value(x) + carry[0] == Value(y) + TWO32 * (sign * (256 - n));
  }

  /** Division by 2^s from multiplication by 2^(8-s) and a discarded byte. */
  lemma {:induction false} ByteQuotient(n: nat, d: nat, u: int, z: int, low: int)
    requires n * d == 256 && 0 <= low < 256 && 256 * z + low == n * u
    ensures 0 <= u - d * z < d
  {
    var e := u - d * z;
    assert n * e == low by {
      assert n * (d * z) == 256 * z;
    }
    assert n > 0;
    if e < 0 {
      ProductOrder(n, e, -1);
    }
    if e >= d {
      ProductOrder(n, d, e);
    }
  }

  lemma {:induction false} NestedQuotient(u: int, d: nat, z: int, c: nat, w: int, low: int)
    requires d > 0 && c > 0 && 0 <= u - d * z < d && z == c * w + low && 0 <= low < c
    ensures u / (d * c) == w
  {
    var e := u - d * z;
    ProductOrder(d, low, c - 1);
    ProductOrder(d, 0, low);
    assert u == w * (d * c) + (d * low + e) by {
      assert d * (c * w + low) == w * (d * c) + d * low;
    }
    RemainderUnique(d * c, w, d * low + e);
  }

  /** The within-byte right shift yields bytes. */
  lemma {:induction false} InterRightBytes(b: Limbs, s: nat, shifted: Limbs, carry: Limbs, sign: int)
    requires s < 8 && (sign == 0 || sign == 1)
    requires SrlTuples(b, s, shifted, carry)
    ensures AreBytes(InterRight(shifted, carry, sign, 256 - Pow2(8 - s)))
    ensures forall i :: 0 <= i < 4 ==> carry[i] + 256 * shifted[i] == Pow2(8 - s) * b[i]
    ensures IsByte(carry[0])
  {
    var n := Pow2(8 - s);
    forall i | 0 <= i < 4
      ensures carry[i] + 256 * shifted[i] == n * b[i] && 0 <= carry[i] <= 256 - n && 0 <= shifted[i] < n
    {
      SrlRowSplits(ShiftRow(b[i], s, shifted[i], carry[i]));
    }
    hide SrlTuples, InSrlTable, Pow2;
    assert sign * (256 - n) == 0 || sign * (256 - n) == 256 - n;
  }

  /** Shifting bytes through the table, filling and moving them is division by 2^shamt. */
  lemma {:induction false} RightShiftMeans(b: Limbs, s: nat, k: nat, shifted: Limbs, carry: Limbs, sign: int)
    requires s < 8 && k < 4 && AreBytes(b) && (sign == 0 || sign == 1)
    requires SrlTuples(b, s, shifted, carry)
    ensures var x := InterRight(shifted, carry, sign, 256 - Pow2(8 - s));
            && AreBytes(x) && AreBytes(MovedRight(x, 255 * sign, k))
            && Value(MovedRight(x, 255 * sign, k)) == ShiftDown(Value(b) - TWO32 * sign, s + 8 * k)
  {
    hide *;
    InterRightBytes(b, s, shifted, carry, sign);
    var n: int := Pow2(8 - s);
    var x := InterRight(shifted, carry, sign, 256 - n);
    InterRightValue(n, b, shifted, carry, sign);
    MovedRightValue(x, sign, k);
    var moved := MovedRight(x, 255 * sign, k);
    ValueToLimbs(moved);
    RightShiftWraps(s, k, Value(b) - TWO32 * sign, Value(x) - TWO32 * sign, carry[0],
                    Value(moved), sign, Discarded(x, k));
  }

  /** The word that floor division by 2^n leaves of an integer. */
  function ShiftDown(u: int, n: nat): word {
    Wrap(u / Pow2(n))
  }

  lemma {:induction false} RightShiftWraps(s: nat, k: nat, u: int, z: int, low: int, moved: int, sign: int, discarded: int)
    requires s < 8 && IsByte(low) && 256 * z + low == Pow2(8 - s) * u
    requires 0 <= moved < TWO32
    requires Pow2(8 * k) * (moved - TWO32 * sign) + discarded == z && 0 <= discarded < Pow2(8 * k)
    ensures moved == ShiftDown(u, s + 8 * k)
  {
    PowersMultiply(s);
    Pow2Sum(s, 8 * k);
    hide Pow2, Wrap;
    ByteQuotient(Pow2(8 - s), Pow2(s), u, z, low) by {
      assert Pow2(8 - s) * Pow2(s) == Pow2(s) * Pow2(8 - s);
    }
    NestedQuotient(u, Pow2(s), z, Pow2(8 * k), moved - TWO32 * sign, discarded);
    WrapIs(moved - TWO32 * sign, -sign, moved);
  }

  /** The columns an accepted SRA row is forced to hold beside its result. */
  predicate SraColumnsAsBuilt(r: SraColumns) {
    var a := r.amount;
    && AreBytes(r.rs1Bytes) && 0 <= a.bitShamt < 8 && 0 <= a.byteShamt < 4 && OneHot(a.isBs, a.byteShamt)
    && Value(r.rs2Value) % 32 == a.bitShamt + 8 * a.byteShamt
    && r.srlFfCarry == 256 - Pow2(8 - a.bitShamt)
    && r.fillByte == 255 * r.signBit
    && r.signBit == if r.rs1Byte3Low7 < 128 && r.rs1Bytes[3] >= 128 then 1 else 0
  }

  lemma {:induction false} SraColumnsForced(p: int, r: SraColumns)
    requires LargePrime(p) && SraResidues(p, r) && SraEval(p, r) && SraLookups(r)
    ensures SraColumnsAsBuilt(r) && (r.rs1Byte3Low7 >= 128 ==> r.rs1Bytes[3] >= 128)
  {
    SrlTuplesAreBytes(r.rs1Bytes, r.amount.bitShamt, r.shiftedBytes, r.carryBytes);
    SignMask(SraFfTuple(r));
    hide SrlRow, Pow2, MoveRightConstraints, Value;
    SignForced(p, r.signBit, r.fillByte, r.rs1Byte3Low7, r.rs1Bytes[3]);
    AmountForced(p, r.amount, r.rs2Value[0]);
    AmountIsShamt(r.rs2Value);
  }

  function SraInter(r: SraColumns): Limbs {
    InterRight(r.shiftedBytes, r.carryBytes, r.signBit, r.srlFfCarry)
  }

  lemma {:induction false} SraShifts(r: SraColumns)
    requires SraColumnsAsBuilt(r) && SrlTuples(r.rs1Bytes, r.amount.bitShamt, r.shiftedBytes, r.carryBytes)
    ensures var moved := MovedRight(SraInter(r), r.fillByte, r.amount.byteShamt);
            && AreBytes(SraInter(r)) && AreBytes(moved)
            && Value(moved) == ShiftDown(Value(r.rs1Bytes) - TWO32 * r.signBit, Value(r.rs2Value) % 32)
  {
    var a := r.amount;
    hide SrlTuples, Pow2, ShiftDown, InterRight, MovedRight, Value;
    RightShiftMeans(r.rs1Bytes, a.bitShamt, a.byteShamt, r.shiftedBytes, r.carryBytes, r.signBit);
  }

  /** An accepted SRA row divides by 2^shamt the reading of rs1 in which its sign column is the sign. */
  lemma {:induction false} SraForced(p: int, r: SraColumns)
    requires LargePrime(p) && SraResidues(p, r) && SraEval(p, r) && SraLookups(r)
    ensures SraColumnsAsBuilt(r) && (r.rs1Byte3Low7 >= 128 ==> r.rs1Bytes[3] >= 128)
    ensures Value(r.rdBytes) == ShiftDown(Value(r.rs1Bytes) - TWO32 * r.signBit, Value(r.rs2Value) % 32)
  {
    SraColumnsForced(p, r);
    SraShifts(r);
    hide Pow2, ShiftDown, SraInter, MovedRight, Value, SrlTuples, AmountConstraints, SignConstraints, U32PlusFour, MoveRightConstraints;
    MoveRightForced(p, r.rdBytes, r.amount.isBs, SraInter(r), r.fillByte, r.amount.byteShamt);
  }

  lemma {:induction false} TopBitIsSign(x: Limbs)
    requires AreBytes(x)
    ensures 0 <= Value(x) < TWO32
    ensures Signed(Value(x)) == Value(x) - TWO32 * (if x[3] >= 128 then 1 else 0)
  {
  }

  lemma {:induction false} HalvedBelow(v: int, d: int)
    requires 0 <= v < TWO32 && d >= 2
    ensures 0 <= v / d < TWO31
  {
    var q := v / d;
    QuotientBounds(v, d);
    assert v == d * q + v % d;
    if q >= TWO31 {
      ProductOrder(d, TWO31, q);
    }
  }

  lemma {:induction false} ShiftsOfNegative(v: word, d: int)
    requires v >= TWO31 && d >= 2
    ensures Wrap(v / d) < TWO31 <= Wrap((v - TWO32) / d)
  {
    HalvedBelow(v, d);
    var u := v - TWO32;
    NegativeQuotient(u, d, u / d) by {
      assert u == d * (u / d) + u % d;
    }
  }

  /** A logical and an arithmetic right shift of a negative word agree only for amount 0. */
  lemma {:induction false} LogicalIsNotArithmetic(v: word, s: nat)
    requires v >= TWO31
    ensures ShiftDown(v, s) == Sra32(v, s) <==> s == 0
  {
    if s > 0 {
      assert Pow2(s) == 2 * Pow2(s - 1);
      hide Pow2;
      ShiftsOfNegative(v, Pow2(s));
    }
  }

  lemma {:induction false} NegativeQuotient(u: int, d: int, z: int)
    requires -TWO31 <= u < 0 && d >= 1 && d * z <= u < d * z + d
    ensures -TWO31 <= z < 0
  {
    if z >= 0 {
      ProductOrder(d, 0, z);
    }
    if z < -TWO31 {
      ProductOrder(d, z, -TWO31 - 1);
      ProductOrder(TWO31 + 1, 1, d);
    }
  }

  /**
   * An accepted SRA row is the arithmetic right shift of rs1 by rs2 mod 32 exactly when the low-7
   * column is below 128 or the shift amount is 0: the column is only checked to be a byte.
   */
  lemma {:induction false} SraSound(p: int, r: SraColumns)
    requires LargePrime(p) && SraResidues(p, r) && SraEval(p, r) && SraLookups(r)
    ensures AreBytes(r.rs1Bytes) && 0 <= Value(r.rs1Bytes) < TWO32
    ensures var shamt := Value(r.rs2Value) % 32;
            Value(r.rdBytes) == Sra32(Value(r.rs1Bytes), shamt) <==> r.rs1Byte3Low7 < 128 || shamt == 0
    ensures AreBytes(r.pc) && AreBytes(r.nextPc) ==> Value(r.nextPc) == Value(r.pc) + 4
  {
    SraForced(p, r);
    TopBitIsSign(r.rs1Bytes);
    if AreBytes(r.pc) && AreBytes(r.nextPc) {
      U32PlusFourMeans(p, r.pc, r.nextPc, r.nextPcCarries);
    }
    hide SraEval, SraLookups, AreBytes, Value, Pow2;
    if r.rs1Byte3Low7 >= 128 {
      LogicalIsNotArithmetic(Value(r.rs1Bytes), Value(r.rs2Value) % 32);
    }
  }

  /** `fill_row` of the SRA trace builder. */
  function FillSra(pc: word, timestamp: nat, rd: reg, rs1: reg, rs2: reg,
                   rs1Value: word, rs2Value: word, oldRd: word, rdNew: word): SraColumns
    requires pc + 4 < TWO32
  {
    var a, b := AmountOf(rs2Value), ToLimbs(rs1Value);
    var sign := rs1Value / TWO31;
    var ff := SrlRow(0xFF, a.bitShamt);
    SraColumns(ToLimbs(pc), timestamp, rd, rs1, rs2,
               b, ToLimbs(rs2Value), ToLimbs(oldRd), ToLimbs(rdNew),
               a, [SrlRow(b[0], a.bitShamt).shifted, SrlRow(b[1], a.bitShamt).shifted,
                   SrlRow(b[2], a.bitShamt).shifted, SrlRow(b[3], a.bitShamt).shifted],
               [SrlRow(b[0], a.bitShamt).carry, SrlRow(b[1], a.bitShamt).carry,
                SrlRow(b[2], a.bitShamt).carry, SrlRow(b[3], a.bitShamt).carry],
               sign, sign * 255, b[3] % 128, ff.shifted, ff.carry,
               ToLimbs(pc + 4), PcPlus4Carries(pc), 1)
  }

  lemma {:induction false} SrlTuplesAreBytes(b: Limbs, s: int, shifted: Limbs, carry: Limbs)
    requires SrlTuples(b, s, shifted, carry)
    ensures AreBytes(b) && 0 <= s < 8
  {
    assert InSrlTable(ShiftRow(b[0], s, shifted[0], carry[0])) && InSrlTable(ShiftRow(b[1], s, shifted[1], carry[1]));
    assert InSrlTable(ShiftRow(b[2], s, shifted[2], carry[2])) && InSrlTable(ShiftRow(b[3], s, shifted[3], carry[3]));
  }

  lemma {:induction false} SrlTuplesBuilt(b: Limbs, s: nat, shifted: Limbs, carry: Limbs)
    requires AreBytes(b) && s < 8
    requires forall i :: 0 <= i < 4 ==> IsByte(b[i]) && ShiftRow(b[i], s, shifted[i], carry[i]) == SrlRow(b[i], s)
    ensures SrlTuples(b, s, shifted, carry)
  {
    hide SrlRow;
  }

  lemma {:induction false} SignColumns(p: int, v: word)
    requires p > 1
    ensures var b, sign := ToLimbs(v), v / TWO31;
            && (sign == 0 || sign == 1) && Signed(v) == v - TWO32 * sign
            && SignConstraints(p, sign, sign * 255, b[3] % 128, b[3]) && IsByte(b[3] % 128)
  {
    MultipleIsZero(p, 0);
    assert ToLimbs(v)[3] == (v / TWO31) * 128 + ToLimbs(v)[3] % 128;
  }

  lemma {:induction false} SraBuiltColumns(pc: word, timestamp: nat, rd: reg, rs1: reg, rs2: reg,
                        rs1Value: word, rs2Value: word, oldRd: word, rdNew: word)
    requires pc + 4 < TWO32
    requires rdNew == Sra32(rs1Value, rs2Value % 32)
    ensures var r := FillSra(pc, timestamp, rd, rs1, rs2, rs1Value, rs2Value, oldRd, rdNew);
            SraColumnsAsBuilt(r) && SraLookups(r) && r.rs1Byte3Low7 < 128 && Signed(rs1Value) == rs1Value - TWO32 * r.signBit
  {
    var r := FillSra(pc, timestamp, rd, rs1, rs2, rs1Value, rs2Value, oldRd, rdNew);
    var a := r.amount;
    ToLimbsValue(rs1Value);
    ToLimbsValue(rs2Value);
    ToLimbsValue(Sra32(rs1Value, rs2Value % 32));
    SignColumns(2, rs1Value);
    AmountOneHot(rs2Value);
    assert a.bitShamt + 8 * a.byteShamt == rs2Value % 32;
    hide ToLimbs, SrlRow, Pow2, Signed, Sra32, InterRight, MovedRight, PcPlus4Carries, SignConstraints, Value, OneHot;
    SrlTuplesBuilt(r.rs1Bytes, a.bitShamt, r.shiftedBytes, r.carryBytes);
    SignMask(SraFfTuple(r));
  }

  /** The SRA trace builder only makes accepted rows, with a low-7 column below 128. */
  lemma {:induction false} SraComplete(p: int, pc: word, timestamp: nat, rd: reg, rs1: reg, rs2: reg,
                    rs1Value: word, rs2Value: word, oldRd: word, rdNew: word)
    requires p > 1 && pc + 4 < TWO32
    requires rdNew == Sra32(rs1Value, rs2Value % 32)
    ensures var r := FillSra(pc, timestamp, rd, rs1, rs2, rs1Value, rs2Value, oldRd, rdNew);
            SraEval(p, r) && SraLookups(r) && r.rs1Byte3Low7 < 128
  {
    var r := FillSra(pc, timestamp, rd, rs1, rs2, rs1Value, rs2Value, oldRd, rdNew);
    SraBuiltColumns(pc, timestamp, rd, rs1, rs2, rs1Value, rs2Value, oldRd, rdNew);
    SraShifts(r);
    SignColumns(p, rs1Value);
    AmountAccepted(p, rs2Value);
    ToLimbsValue(rs1Value);
    ToLimbsValue(rs2Value);
    ValueToLimbs(MovedRight(SraInter(r), r.fillByte, r.amount.byteShamt));
    hide ToLimbs, SrlRow, Pow2, Signed, Wrap, SraInter, MovedRight, SrlTuples, AmountConstraints, SignConstraints, Value;
    MoveRightAccepted(p, r.amount.isBs, SraInter(r), r.fillByte, r.amount.byteShamt);
    PlusFourWitness(p, pc);
    MultipleIsZero(p, 0);
  }

  /** sra x1, x2, x3 with x2 = 2^31 and x3 = 1: low-7 column 128, sign column 0, result 2^30. */
  const LOGICAL_SRA := SraColumns(
    [0, 0, 0, 0], 0, 1, 2, 3, [0, 0, 0, 128], [1, 0, 0, 0], [0, 0, 0, 0], [0, 0, 0, 64],
    Amount(1, 0, 0, [1, 0, 0, 0]), [0, 0, 0, 64], [0, 0, 0, 0], 0, 0, 128, 127, 128, [4, 0, 0, 0], [0, 0, 0], 1)

  lemma {:induction false} LogicalLookups()
    ensures SraLookups(LOGICAL_SRA)
  {
    assert SrlRow(0, 1) == ShiftRow(0, 1, 0, 0) && SrlRow(128, 1) == ShiftRow(128, 1, 64, 0);
    assert SrlRow(0xFF, 1) == ShiftRow(0xFF, 1, 127, 128);
    hide SrlRow;
  }

  lemma {:induction false} LogicalEval(p: int)
    requires p > 1
    ensures SraEval(p, LOGICAL_SRA)
  {
    BoolsAccepted(p, [0, 0, 0]);
    BoolsAccepted(p, LOGICAL_SRA.amount.isBs);
    MultipleIsZero(p, 0);
  }

  /** An accepted SRA row that shifts logically: the low-7 column is a byte, but not below 128. */
  lemma {:induction false} LogicalRowAccepted(p: int)
    requires LargePrime(p)
    ensures var r := LOGICAL_SRA;
            && SraResidues(p, r) && SraEval(p, r) && SraLookups(r)
            && Value(r.rs1Bytes) == TWO31 && Value(r.rs2Value) % 32 == 1
            && Value(r.rdBytes) == 0x4000_0000 && Sra32(TWO31, 1) == 0xC000_0000
  {
    LogicalLookups();
    LogicalEval(p);
    assert Pow2(1) == 2;
    hide SraEval, SraLookups, IsPrime;
  }
}
