/** The memory table: constraints on neighbouring rows and the buses that keep it sorted. */
module MemoryAir {
  import opened Words
  import opened PrimeField
  import opened Rv32
  import opened Vm
  import opened OfflineMemory
  import opened U32Ops
  import opened U32LessThan
  import opened Bus

  datatype MemoryColumns = MemoryColumns(
    memoryType: int, address: Limbs, timestamp: int, read: Limbs, write: Limbs,
    isMemoryTypeEqual: int, isTimestampEqual: int, isAddressEqual: int, isPadding: int)

  /** `assert_eq` under `when(condition)`. */
  predicate WhenEq(p: int, condition: int, a: int, b: int)
    requires p > 0
  {
    Zero(p, condition * (a - b))
  }

  predicate WhenEqLimbs(p: int, condition: int, a: Limbs, b: Limbs)
    requires p > 0
  {
    && WhenEq(p, condition, a[0], b[0]) && WhenEq(p, condition, a[1], b[1])
    && WhenEq(p, condition, a[2], b[2]) && WhenEq(p, condition, a[3], b[3])
  }

  /** Constraints between a row and the next one, on every row but the last. */
  predicate Transition(p: int, local: MemoryColumns, next: MemoryColumns)
    requires p > 0
  {
    && WhenEq(p, local.isPadding, next.isPadding, 1)
    && WhenEq(p, local.isMemoryTypeEqual, next.memoryType, local.memoryType)
    && TypesDiffer(p, 1 - local.isMemoryTypeEqual, local.memoryType + next.memoryType)
    && WhenEq(p, local.memoryType, next.memoryType, 1)
    && WhenEqLimbs(p, 1 - local.isAddressEqual, next.read, ZERO_LIMBS)
    && WhenEqLimbs(p, local.isAddressEqual, next.read, local.write)
  }

  /** Under the condition, the sum s of two types is 1 or 2. */
  predicate TypesDiffer(p: int, condition: int, s: int)
    requires p > 0
  {
    Zero(p, condition * ((s - 1) * (s - 2)))
  }

  predicate RowConstraints(p: int, local: MemoryColumns)
    requires p > 0
  {
    Bool(p, local.isPadding) && Bool(p, local.isMemoryTypeEqual)
  }

  ghost predicate MemoryEval(p: int, rows: seq<MemoryColumns>)
    requires p > 0
  {
    && (forall i :: 0 <= i < |rows| ==> RowConstraints(p, rows[i]))
    && (|rows| > 0 ==> WhenEqLimbs(p, 1, rows[0].read, ZERO_LIMBS))
    && forall i :: 0 <= i < |rows| - 1 ==> TransitionAt(p, rows, i)
  }

  predicate TransitionAt(p: int, rows: seq<MemoryColumns>, i: nat)
    requires p > 0 && i < |rows| - 1
  {
    Transition(p, rows[i], rows[i + 1])
  }

  // Lookups. The next row of the last row is the first one.

  datatype LtTuple = LtTuple(x: Limbs, y: Limbs, isEqual: int)

  function NextOf(rows: seq<MemoryColumns>, i: nat): MemoryColumns
    requires i < |rows|
  {
    if i + 1 < |rows| then rows[i + 1] else rows[0]
  }

  function AddressSend(local: MemoryColumns, next: MemoryColumns): Entry<LtTuple> {
    Entry(LtTuple(local.address, next.address, local.isAddressEqual), local.isMemoryTypeEqual * (1 - next.isPadding))
  }

  function AddressSends(rows: seq<MemoryColumns>): seq<Entry<LtTuple>> {
    seq(|rows|, i requires 0 <= i < |rows| => AddressSend(rows[i], NextOf(rows, i)))
  }

  function LtReceives(table: seq<U32LtColumns>): seq<Entry<LtTuple>> {
    seq(|table|, i requires 0 <= i < |table| => Entry(LtTuple(table[i].x, table[i].y, table[i].isEqual), table[i].mult))
  }

  /** The comparison table by its constraints alone. */
  ghost predicate LtConstraints(p: int, table: seq<U32LtColumns>)
    requires p > 0
  {
    forall i :: 0 <= i < |table| ==> U32LtResidues(p, table[i]) && U32LtEval(p, table[i])
  }

  /** The comparison table with what its own lookups guarantee. */
  ghost predicate LtTableAccepted(p: int, table: seq<U32LtColumns>)
    requires p > 0
  {
    forall i :: 0 <= i < |table| ==>
      U32LtResidues(p, table[i]) && U32LtEval(p, table[i]) && U32LtLookups(table[i])
  }

  // Real rows.

  /**
   * What the memory bus guarantees of a real row: its access is one an instruction row sent, to a
   * register, writing bytes. Nothing is said of the read column.
   */
  predicate WriterRow(r: MemoryColumns) {
    r.memoryType == 0 && AreBytes(r.address) && AreBytes(r.write) && 0 <= r.timestamp < TWO32
  }

  ghost predicate MemoryResidues(p: int, rows: seq<MemoryColumns>) {
    forall i :: 0 <= i < |rows| ==>
      Residue(p, rows[i].isPadding) && Residue(p, rows[i].isMemoryTypeEqual) && ReadResidues(p, rows[i].read)
  }

  predicate ReadResidues(p: int, read: Limbs) {
    Residue(p, read[0]) && Residue(p, read[1]) && Residue(p, read[2]) && Residue(p, read[3])
  }

  ghost predicate WritersOnly(rows: seq<MemoryColumns>) {
    forall i :: 0 <= i < RealCount(rows) ==> WriterRow(rows[i])
  }

  ghost predicate ReadsAreBytes(rows: seq<MemoryColumns>) {
    forall i :: 0 <= i < RealCount(rows) ==> AreBytes(rows[i].read)
  }

  function RealCount(rows: seq<MemoryColumns>): (n: nat)
    ensures n <= |rows|
    ensures forall i :: 0 <= i < n ==> rows[i].isPadding == 0
    ensures n < |rows| ==> rows[n].isPadding != 0
  {
    if |rows| == 0 || rows[0].isPadding != 0 then 0 else 1 + RealCount(rows[1..])
  }

  /** The operation a row records; on byte limbs no value wraps. */
  function OpOf(r: MemoryColumns): MemoryOp {
    MemoryOp(Register, Wrap(Value(r.address)), Wrap(r.timestamp), Wrap(Value(r.read)), Wrap(Value(r.write)))
  }

  lemma {:induction false} WrapBytes(x: Limbs)
    requires AreBytes(x)
    ensures Wrap(Value(x)) == Value(x)
  {
    ValueToLimbs(x);
  }

  /** The operations the real rows record. */
  function RealOps(rows: seq<MemoryColumns>): seq<MemoryOp> {
    seq(RealCount(rows), i requires 0 <= i < RealCount(rows) => OpOf(rows[i]))
  }

  lemma {:induction false} PaddingStays(p: int, a: int, b: int)
    requires p > 1 && a == 1 && Residue(p, b) && WhenEq(p, a, b, 1)
    ensures b == 1
  {
    Lift(p, b - 1);
  }

  /** Padding rows follow all real rows. */
  lemma {:induction false} PaddingIsSuffix(p: int, rows: seq<MemoryColumns>, i: nat)
    requires IsPrime(p) && MemoryResidues(p, rows) && MemoryEval(p, rows) && RealCount(rows) <= i < |rows|
    ensures rows[i].isPadding == 1
    decreases i
  {
    assert RowConstraints(p, rows[i]);
    BoolResidue(p, rows[i].isPadding);
    if i > RealCount(rows) {
      var k := i - 1;
      PaddingIsSuffix(p, rows, k);
      assert TransitionAt(p, rows, k);
      PaddingStays(p, rows[k].isPadding, rows[k + 1].isPadding);
    }
  }

  /** Between register rows the type flag is on: two zero types cannot pass as different. */
  lemma {:induction false} TypeFlagForced(p: int, flag: int)
    requires LargePrime(p) && Residue(p, flag) && Bool(p, flag) && TypesDiffer(p, 1 - flag, 0)
    ensures flag == 1
  {
    BoolResidue(p, flag);
    if flag == 0 {
      Lift(p, 2);
    }
  }

  lemma {:induction false} LimbsForced(p: int, a: Limbs, b: Limbs)
    requires p > 256 && ReadResidues(p, a) && AreBytes(b) && WhenEqLimbs(p, 1, a, b)
    ensures a == b
  {
    Lift(p, a[0] - b[0]);
    Lift(p, a[1] - b[1]);
    Lift(p, a[2] - b[2]);
    Lift(p, a[3] - b[3]);
  }

  /** The next read is the last write on the same address, and 0 on a new one. */
  lemma {:induction false} ReadForced(p: int, local: MemoryColumns, next: MemoryColumns)
    requires p > 256 && Transition(p, local, next) && WriterRow(local) && ReadResidues(p, next.read)
    requires local.isAddressEqual == Flag(local.address == next.address)
    ensures next.read == if local.address == next.address then local.write else ZERO_LIMBS
  {
    if local.address == next.address {
      LimbsForced(p, next.read, local.write);
    } else {
      LimbsForced(p, next.read, ZERO_LIMBS);
    }
  }

  // The address comparison.

  ghost predicate AddressBus(p: int, rows: seq<MemoryColumns>, table: seq<U32LtColumns>)
    requires p > 0
  {
    Balanced(p, AddressSends(rows), LtReceives(table))
  }

  lemma {:induction false} GateIsBit(flag: int, padding: int)
    requires IsBit(flag) && IsBit(padding)
    ensures IsBit(flag * (1 - padding))
  {
  }

  lemma {:induction false} RowBits(p: int, rows: seq<MemoryColumns>, i: nat)
    requires IsPrime(p) && MemoryResidues(p, rows) && MemoryEval(p, rows) && i < |rows|
    ensures IsBit(rows[i].isPadding) && IsBit(rows[i].isMemoryTypeEqual)
  {
    assert RowConstraints(p, rows[i]);
    hide MemoryEval;
    BoolResidue(p, rows[i].isPadding);
    BoolResidue(p, rows[i].isMemoryTypeEqual);
  }

  lemma {:induction false} SendSelectors(p: int, rows: seq<MemoryColumns>)
    requires IsPrime(p) && MemoryResidues(p, rows) && MemoryEval(p, rows)
    ensures Selectors(AddressSends(rows))
  {
    hide MemoryEval, MemoryResidues, IsPrime;
    forall i | 0 <= i < |rows|
      ensures AddressSends(rows)[i].multiplicity == 0 || AddressSends(rows)[i].multiplicity == 1
    {
      RowBits(p, rows, i);
      RowBits(p, rows, if i + 1 < |rows| then i + 1 else 0);
      GateIsBit(rows[i].isMemoryTypeEqual, NextOf(rows, i).isPadding);
    }
  }

  /** A live comparison is answered by an accepted row of the comparison table. */
  lemma {:induction false} ComparisonHolds(p: int, rows: seq<MemoryColumns>, table: seq<U32LtColumns>, i: nat)
    requires LargePrime(p) && MemoryResidues(p, rows) && MemoryEval(p, rows) && |rows| < p
    requires LtTableAccepted(p, table) && AddressBus(p, rows, table)
    requires i < |rows| && AddressSends(rows)[i].multiplicity == 1
    requires AreBytes(rows[i].address) && AreBytes(NextOf(rows, i).address)
    ensures Value(rows[i].address) <= Value(NextOf(rows, i).address)
    ensures rows[i].isAddressEqual == Flag(Value(rows[i].address) == Value(NextOf(rows, i).address))
  {
    var sends, receives := AddressSends(rows), LtReceives(table);
    SendSelectors(p, rows);
    LiveBound(sends);
    LiveHas(sends, i);
    SentIsReceived(p, sends, receives, sends[i].tuple);
    var k :| 0 <= k < |receives| && receives[k].tuple == sends[i].tuple && receives[k].multiplicity != 0;
    hide U32LtEval, U32LtResidues, U32LtLookups, Value, AddressBus, MemoryEval;
    U32LtSound(p, table[k]);
  }

  lemma {:induction false} RealPair(p: int, rows: seq<MemoryColumns>, i: nat)
    requires LargePrime(p) && MemoryResidues(p, rows) && MemoryEval(p, rows) && WritersOnly(rows)
    requires i + 1 < RealCount(rows)
    ensures WriterRow(rows[i]) && WriterRow(rows[i + 1]) && Transition(p, rows[i], rows[i + 1])
    ensures ReadResidues(p, rows[i + 1].read)
    ensures AddressSends(rows)[i].multiplicity == 1
  {
    var local, next := rows[i], rows[i + 1];
    assert TransitionAt(p, rows, i) && RowConstraints(p, local);
    hide MemoryEval;
    TypeFlagForced(p, local.isMemoryTypeEqual);
  }

  /** Neighbouring real rows: addresses do not decrease, and reads continue the writes. */
  lemma {:induction false} NeighboursForced(p: int, rows: seq<MemoryColumns>, table: seq<U32LtColumns>, i: nat)
    requires LargePrime(p) && MemoryResidues(p, rows) && MemoryEval(p, rows) && WritersOnly(rows) && |rows| < p
    requires LtTableAccepted(p, table) && AddressBus(p, rows, table) && i + 1 < RealCount(rows)
    ensures Value(rows[i].address) <= Value(rows[i + 1].address)
    ensures rows[i + 1].read == if Value(rows[i].address) == Value(rows[i + 1].address) then rows[i].write else ZERO_LIMBS
  {
    hide MemoryEval, LtTableAccepted, AddressBus, Value, Transition, MemoryResidues, WritersOnly, AddressSends;
    RealPair(p, rows, i);
    ComparisonHolds(p, rows, table, i);
    SameValue(rows[i].address, rows[i + 1].address);
    ReadForced(p, rows[i], rows[i + 1]);
  }

  lemma {:induction false} SameValue(x: Limbs, y: Limbs)
    requires AreBytes(x) && AreBytes(y)
    ensures Value(x) == Value(y) <==> x == y
  {
    ValueToLimbs(x);
    ValueToLimbs(y);
  }

  ghost predicate Ascending(ops: seq<MemoryOp>) {
    forall i, j :: 0 <= i < j < |ops| ==> ops[i].address <= ops[j].address
  }

  /** The accesses of one address are one contiguous block. */
  ghost predicate Contiguous(ops: seq<MemoryOp>) {
    forall i, j, k :: 0 <= i < j < k < |ops| && ops[i].address == ops[k].address ==> ops[j].address == ops[i].address
  }

  lemma {:induction false} AscendingFromSteps(ops: seq<MemoryOp>, i: nat, j: nat)
    requires forall k :: 0 <= k < |ops| - 1 ==> ops[k].address <= ops[k + 1].address
    requires i < j < |ops|
    ensures ops[i].address <= ops[j].address
    decreases j
  {
    var k := j - 1;
    assert ops[k].address <= ops[k + 1].address;
    if i < k {
      AscendingFromSteps(ops, i, k);
    }
  }

  /** The first access reads 0. */
  lemma {:induction false} FirstReadForced(p: int, rows: seq<MemoryColumns>)
    requires LargePrime(p) && MemoryResidues(p, rows) && MemoryEval(p, rows) && |rows| > 0
    ensures rows[0].read == ZERO_LIMBS
  {
    LimbsForced(p, rows[0].read, ZERO_LIMBS);
  }

  /** No lookup checks the read columns; they are bytes because each is the previous write or 0. */
  lemma {:induction false} ReadsForced(p: int, rows: seq<MemoryColumns>, table: seq<U32LtColumns>)
    requires LargePrime(p) && MemoryResidues(p, rows) && MemoryEval(p, rows) && WritersOnly(rows) && |rows| < p
    requires LtTableAccepted(p, table) && AddressBus(p, rows, table)
    ensures ReadsAreBytes(rows)
  {
    hide MemoryEval, LtTableAccepted, AddressBus, LargePrime, MemoryResidues;
    forall i | 0 <= i < RealCount(rows) ensures AreBytes(rows[i].read) {
      if i == 0 {
        FirstReadForced(p, rows);
      } else {
        NeighboursForced(p, rows, table, i - 1);
        assert WriterRow(rows[i - 1]);
      }
    }
  }

  /**
   * The real rows of an accepted memory table, whose comparisons are answered by an accepted
   * comparison table, read bytes, go through the addresses once, in order, and pass the neighbour
   * checks.
   */
  lemma {:induction false} MemorySound(p: int, rows: seq<MemoryColumns>, table: seq<U32LtColumns>)
    requires LargePrime(p) && MemoryResidues(p, rows) && MemoryEval(p, rows) && WritersOnly(rows) && |rows| < p
    requires LtTableAccepted(p, table) && AddressBus(p, rows, table)
    ensures ReadsAreBytes(rows)
    ensures Adjacent(RealOps(rows)) && Ascending(RealOps(rows)) && Contiguous(RealOps(rows))
  {
    var ops := RealOps(rows);
    ReadsForced(p, rows, table);
    hide MemoryEval, LtTableAccepted, AddressBus, LargePrime, MemoryResidues;
    assert Value(ZERO_LIMBS) == 0;
    forall i | 0 <= i < |ops| - 1
      ensures ops[i].address <= ops[i + 1].address
      ensures ops[i + 1].read == if CellOf(ops[i]) == CellOf(ops[i + 1]) then ops[i].write else 0
    {
      NeighboursForced(p, rows, table, i);
      assert WriterRow(rows[i]) && WriterRow(rows[i + 1]);
      hide Value, Wrap;
      WrapBytes(rows[i].address);
      WrapBytes(rows[i + 1].address);
      WrapBytes(ZERO_LIMBS);
    }
    if |ops| > 0 {
      FirstReadForced(p, rows);
    }
    forall i, j | 0 <= i < j < |ops| ensures ops[i].address <= ops[j].address {
      AscendingFromSteps(ops, i, j);
    }
  }

  /** Timestamps increase along the rows of an address. */
  ghost predicate TimestampsIncrease(ops: seq<MemoryOp>) {
    forall i :: 0 <= i < |ops| - 1 && ops[i].address == ops[i + 1].address ==> ops[i].timestamp < ops[i + 1].timestamp
  }

  lemma {:induction false} KeysFromSteps(ops: seq<MemoryOp>, i: nat, j: nat)
    requires forall k :: 0 <= k < |ops| ==> ops[k].memoryType == Register
    requires forall k :: 0 <= k < |ops| - 1 ==> KeyLess(ops[k], ops[k + 1])
    requires i < j < |ops|
    ensures KeyLess(ops[i], ops[j])
    decreases j
  {
    var k := j - 1;
    assert KeyLess(ops[k], ops[k + 1]);
    if i < k {
      KeysFromSteps(ops, i, k);
    }
  }

  lemma {:induction false} AcceptedIsKeyOrdered(p: int, rows: seq<MemoryColumns>, table: seq<U32LtColumns>)
    requires LargePrime(p) && MemoryResidues(p, rows) && MemoryEval(p, rows) && WritersOnly(rows) && |rows| < p
    requires LtTableAccepted(p, table) && AddressBus(p, rows, table) && TimestampsIncrease(RealOps(rows))
    ensures KeyOrdered(RealOps(rows))
  {
    var ops := RealOps(rows);
    MemorySound(p, rows, table);
    hide MemoryEval, LtTableAccepted, AddressBus, Adjacent;
    assert forall k :: 0 <= k < |ops| ==> ops[k].memoryType == Register;
    hide RealOps;
    forall k | 0 <= k < |ops| - 1 ensures KeyLess(ops[k], ops[k + 1]) {
      assert ops[k].address <= ops[k + 1].address;
    }
    forall i, j | 0 <= i < j < |ops| ensures KeyLess(ops[i], ops[j]) {
      KeysFromSteps(ops, i, j);
    }
  }
}
