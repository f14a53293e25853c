/**
 * From rows to an execution. What the decode buses say about the instruction at the pc of a row, and
 * the execution that is left when rows that carry out their instructions balance on the trace, decode
 * and memory buses.
 */
module InstructionRows {
  import opened Words
  import opened PrimeField
  import opened Rv32
  import opened Vm
  import opened OfflineMemory
  import opened VmLog
  import opened U32Ops
  import opened U32LessThan
  import opened TimestampLessThan
  import opened Decode
  import opened Jal
  import opened ProgramRom
  import opened DecodeBus
  import opened RowBuses
  import opened Bus
  import opened TraceBus
  import opened MemoryAir
  import opened MemoryTimes
  import opened EndToEnd

  // What a row must carry out.

  /** The decode columns of the row are the fields of instruction i. */
  predicate RowDenotes(r: BusRow, i: Instruction) {
    Denotes(i, r.id, r.rd, r.rs1, r.field4, r.low8)
  }

  /** The row carries out instruction i: bytes throughout, the result of i in newRd, its successor in nextPc. */
  predicate CarriesOut(r: BusRow, i: Instruction) {
    && AreBytes(r.v1) && AreBytes(r.v2) && AreBytes(r.newRd) && AreBytes(r.pc) && AreBytes(r.nextPc)
    && 0 <= Value(r.pc) < TWO32 && 0 <= Value(r.v1) < TWO32 && 0 <= Value(r.v2) < TWO32
    && Value(r.newRd) == Result(i, Value(r.pc), Value(r.v1), Value(r.v2))
    && Value(r.nextPc) == NextPcFrom(i, Value(r.pc), Value(r.v1))
    && (!IsRType(i) ==> r.v2 == ZERO_LIMBS) && (UsesLow8(i) ==> r.v1 == ZERO_LIMBS)
    && (i.Jal? ==> r.links == Flag(r.rd != 0)) && !(i.Jalr? && i.rd == 0)
  }

  /** Over byte pcs, whatever instruction the decode columns denote is carried out. */
  ghost predicate RowForced(r: BusRow) {
    AreBytes(r.pc) && AreBytes(r.nextPc) ==> forall i: Instruction :: RowDenotes(r, i) ==> CarriesOut(r, i)
  }

  lemma {:induction false} BytesAreWord(x: Limbs)
    requires AreBytes(x)
    ensures 0 <= Value(x) < TWO32
  {
    ValueToLimbs(x);
  }

  lemma {:induction false} ZeroBytes()
    ensures Value(ZERO_LIMBS) == 0 && AreBytes(ZERO_LIMBS)
  {
  }

  /** The pc columns are bytes and the decode columns denote instruction i. */
  predicate ByteRowFor(r: BusRow, i: Instruction) {
    AreBytes(r.pc) && AreBytes(r.nextPc) && RowDenotes(r, i)
  }

  // The instruction at the pc of a row.

  /** The row stands where the program holds the instruction of its decode columns. */
  predicate Placed(program: seq<byte>, r: BusRow) {
    Holds(program, Value(r.pc), r.id, r.rd, r.rs1, r.field4, r.low8)
  }

  /** The decode table reads the program, and its three buses balance with the instruction rows. */
  ghost predicate DecodeBuses(p: int, program: seq<byte>, rows: seq<BusRow>, decode: seq<DecodeColumns>, rom: seq<ProgramColumns>)
    requires p > 0
  {
    && DecodesProgram(p, program, decode, rom)
    && Balanced(p, StandardSends(rows), StandardReceives(decode))
    && Balanced(p, UpperSends(rows), UpperReceives(decode))
    && Balanced(p, JumpSends(rows), JumpReceives(decode))
  }

  lemma {:induction false} FormatOfHeld(program: seq<byte>, r: BusRow, rs1: int, low8: int)
    ensures !IsStandardId(r.id) ==>
              (Placed(program, r) <==> Holds(program, Value(r.pc), r.id, r.rd, rs1, r.field4, r.low8))
    ensures IsStandardId(r.id) ==>
              (Placed(program, r) <==> Holds(program, Value(r.pc), r.id, r.rd, r.rs1, r.field4, low8))
  {
    hide InstructionAt, Offset, SignExtend12, Id;
    if InstructionAt(program, Value(r.pc)).Some? {
      FormatOfId(InstructionAt(program, Value(r.pc)).value);
    }
  }

  /** A live row of a standard table stands at its instruction. */
  lemma {:induction false} StandardPlaced(p: int, program: seq<byte>, rows: seq<BusRow>, decode: seq<DecodeColumns>,
                                          rom: seq<ProgramColumns>, k: nat)
    requires LargePrime(p) && DecodeBuses(p, program, rows, decode, rom) && RowSelectors(rows) && |rows| < p
    requires k < |rows| && rows[k].isDummy == 1 && IsStandardId(rows[k].id) && AreBytes(rows[k].pc)
    ensures Placed(program, rows[k])
  {
    hide DecodesProgram, Balanced, Selectors, StandardSends, UpperSends, JumpSends, Live, LargePrime, Placed, Holds, Value, AreBytes,
         IsStandardId;
    DecodeSelectors(rows);
    SendsItsTuple(rows, k);
    StandardFetched(p, program, decode, rom, StandardSends(rows), DecodeTupleOf(rows[k]));
    FormatOfHeld(program, rows[k], 0, 0);
  }

  /**
   * A live LUI, AUIPC or JAL row stands at its instruction exactly when the program holds the same
   * instruction at its pc and wherever the decode rows that offer its tuple fetch from.
   */
  lemma {:induction false} UpperPlacedIff(p: int, program: seq<byte>, rows: seq<BusRow>, decode: seq<DecodeColumns>,
                                          rom: seq<ProgramColumns>, k: nat)
    requires LargePrime(p) && DecodeBuses(p, program, rows, decode, rom) && RowSelectors(rows) && |rows| < p
    requires k < |rows| && rows[k].isDummy == 1 && !IsStandardId(rows[k].id)
    ensures Placed(program, rows[k]) <==> InPlace(p, program, decode, Value(rows[k].pc), UpperTupleOf(rows[k]))
  {
    hide DecodesProgram, Balanced, Selectors, StandardSends, UpperSends, JumpSends, Live, LargePrime, Placed, Holds, Value, InPlace;
    DecodeSelectors(rows);
    SendsItsTuple(rows, k);
    FormatOfHeld(program, rows[k], 0, 0);
    if rows[k].id == JAL_ID {
      UpperFetchedIff(p, program, decode, rom, JumpSends(rows), UpperTupleOf(rows[k]), Value(rows[k].pc));
    } else {
      UpperFetchedIff(p, program, decode, rom, UpperSends(rows), UpperTupleOf(rows[k]), Value(rows[k].pc));
    }
  }

  /** The condition on all LUI, AUIPC and JAL rows. */
  ghost predicate UpperRowsInPlace(p: int, program: seq<byte>, rows: seq<BusRow>, decode: seq<DecodeColumns>)
    requires p > 0
  {
    forall k :: 0 <= k < |rows| && rows[k].isDummy == 1 && !IsStandardId(rows[k].id) ==>
      InPlace(p, program, decode, Value(rows[k].pc), UpperTupleOf(rows[k]))
  }

  lemma {:induction false} AllPlaced(p: int, program: seq<byte>, rows: seq<BusRow>, decode: seq<DecodeColumns>,
                                     rom: seq<ProgramColumns>, k: nat)
    requires LargePrime(p) && DecodeBuses(p, program, rows, decode, rom) && RowSelectors(rows) && |rows| < p
    requires UpperRowsInPlace(p, program, rows, decode)
    requires k < |rows| && rows[k].isDummy == 1 && AreBytes(rows[k].pc)
    ensures Placed(program, rows[k])
  {
    hide DecodeBuses, InPlace, RowSelectors, Placed, LargePrime, Value, AreBytes;
    if IsStandardId(rows[k].id) {
      StandardPlaced(p, program, rows, decode, rom, k);
    } else {
      UpperPlacedIff(p, program, rows, decode, rom, k);
    }
  }

  // The trace bus.

  /** Successor addresses are byte limbs: an assumption of the limb arithmetic, not a constraint. */
  ghost predicate ByteNextPcs(rows: seq<BusRow>) {
    forall k :: 0 <= k < |rows| && rows[k].isDummy == 1 ==> AreBytes(rows[k].nextPc)
  }

  ghost predicate TimeResidues(p: int, rows: seq<BusRow>) {
    forall k :: 0 <= k < |rows| ==> Residue(p, rows[k].timestamp)
  }

  /** Every pc is the origin or a successor address, so it is made of bytes too. */
  lemma {:induction false} PcIsByte(p: int, live: seq<BusRow>, end: Point, k: nat)
    requires p > 0 && Conserves(BusHops(p, live), ORIGIN, end) && k < |live|
    requires forall j :: 0 <= j < |live| ==> AreBytes(live[j].nextPc)
    ensures AreBytes(live[k].pc)
  {
    var hops := BusHops(p, live);
    var point := hops[k].before;
    assert Befores(hops)[k] == point;
    assert point in multiset(Befores(hops)) + multiset{end};
    assert point in multiset{ORIGIN} + multiset(Afters(hops));
    if point != ORIGIN {
      assert point in Afters(hops);
      var j :| 0 <= j < |hops| && Afters(hops)[j] == point;
    }
  }

  lemma {:induction false} HopsAdvance(p: int, live: seq<BusRow>)
    requires p > 0 && TimeResidues(p, live)
    ensures AllAdvance(p, BusHops(p, live))
  {
    forall k | 0 <= k < |live| ensures Advances(p, BusHops(p, live)[k]) {
      assert BusHops(p, live)[k].after.ts == Later(p, live[k].timestamp, TicksOf(live[k].id));
    }
  }

  /** Row j of a chain starts at most three ticks per earlier row after the start. */
  lemma {:induction false} ChainBounds(p: int, order: seq<Hop>, start: Point, end: Point, j: nat)
    requires p > 0 && AllAdvance(p, order) && Chain(order, start, end) && j < |order|
    requires 0 <= start.ts && start.ts + 3 * |order| < p
    ensures order[j].before.ts <= start.ts + 3 * j
  {
    if j > 0 {
      HopAdvances(p, order[0]);
      ChainBounds(p, order[1..], order[0].after, end, j - 1);
    }
  }

  /** Every row starts early enough for its accesses not to wrap around. */
  lemma {:induction false} TimesBounded(p: int, live: seq<BusRow>, end: Point, k: nat)
    requires p > 0 && Conserves(BusHops(p, live), ORIGIN, end) && TimeResidues(p, live) && 3 * |live| < p && k < |live|
    ensures 0 <= live[k].timestamp && live[k].timestamp + 3 <= 3 * |live|
  {
    var hops := BusHops(p, live);
    HopsAdvance(p, live);
    assert |hops| == |live|;
    hide Chain, Advances, Conserves;
    var order := OneChain(p, hops, ORIGIN, end);
    assert |order| == |multiset(order)| == |multiset(hops)| == |live|;
    assert hops[k] in multiset(order);
    var j :| 0 <= j < |order| && order[j] == hops[k];
    SubsetAdvances(p, order, hops);
    ChainBounds(p, order, ORIGIN, end, j);
  }

  // The memory bus.

  /** The accesses of a live row, one by one. */
  function AccessList(p: int, r: BusRow): seq<MemoryTuple>
    requires p > 0
  {
    if IsRTypeId(r.id) then [ReadEntry(p, r, 0, r.rs1, r.v1).tuple, ReadEntry(p, r, 1, r.field4, r.v2).tuple, WriteEntry(p, r, 2, 1).tuple]
    else if IsUpperId(r.id) then [WriteEntry(p, r, 0, 1).tuple]
    else if r.id == JAL_ID then (if r.links == 1 then [WriteEntry(p, r, 0, 1).tuple] else [])
    else [ReadEntry(p, r, 0, r.rs1, r.v1).tuple, WriteEntry(p, r, 1, 1).tuple]
  }

  lemma {:induction false} LiveOne(e: Entry<MemoryTuple>)
    ensures Live([e]) == if e.multiplicity == 1 then [e.tuple] else []
  {
    assert [e][1..] == [];
  }

  lemma {:induction false} LiveTwo(a: Entry<MemoryTuple>, b: Entry<MemoryTuple>)
    requires a.multiplicity == 1
    ensures Live([a, b]) == [a.tuple] + Live([b])
  {
    assert [a, b][1..] == [b];
  }

  lemma {:induction false} LiveThree(a: Entry<MemoryTuple>, b: Entry<MemoryTuple>, c: Entry<MemoryTuple>)
    requires a.multiplicity == 1
    ensures Live([a, b, c]) == [a.tuple] + Live([b, c])
  {
    assert [a, b, c][1..] == [b, c];
  }

  lemma {:induction false} AccessesAre(p: int, r: BusRow)
    requires p > 0 && r.isDummy == 1
    ensures Accesses(p, r) == AccessList(p, r)
  {
    var read0, read1 := ReadEntry(p, r, 0, r.rs1, r.v1), ReadEntry(p, r, 1, r.field4, r.v2);
    hide Live, Later;
    if IsRTypeId(r.id) {
      LiveThree(read0, read1, WriteEntry(p, r, 2, 1));
      LiveTwo(read1, WriteEntry(p, r, 2, 1));
      LiveOne(WriteEntry(p, r, 2, 1));
    } else if IsUpperId(r.id) {
      LiveOne(WriteEntry(p, r, 0, 1));
    } else if r.id == JAL_ID {
      LiveOne(WriteEntry(p, r, 0, r.links));
    } else {
      LiveTwo(read0, WriteEntry(p, r, 1, 1));
      LiveOne(WriteEntry(p, r, 1, 1));
    }
  }

  /** The operation a tuple of the memory bus records; on byte limbs no value wraps. */
  function OpOfTuple(t: MemoryTuple): MemoryOp {
    MemoryOp(Register, Wrap(Value(t.address)), Wrap(t.timestamp), Wrap(Value(t.read)), Wrap(Value(t.write)))
  }

  function OpsOfTuples(ts: seq<MemoryTuple>): seq<MemoryOp> {
    seq(|ts|, i requires 0 <= i < |ts| => OpOfTuple(ts[i]))
  }

  lemma {:induction false} OpsWithout(b: seq<MemoryTuple>, i: nat)
    requires i < |b|
    ensures multiset(OpsOfTuples(b)) == multiset{OpOfTuple(b[i])} + multiset(OpsOfTuples(b[..i] + b[i + 1..]))
  {
    hide OpOfTuple;
    var rest := b[..i] + b[i + 1..];
    WithoutIndex(OpsOfTuples(b), i);
    assert OpsOfTuples(rest) == OpsOfTuples(b)[..i] + OpsOfTuples(b)[i + 1..];
  }

  lemma {:induction false} OpsPermute(a: seq<MemoryTuple>, b: seq<MemoryTuple>)
    requires multiset(a) == multiset(b)
    ensures multiset(OpsOfTuples(a)) == multiset(OpsOfTuples(b))
  {
    hide OpOfTuple, OpsOfTuples;
    assert |a| == |multiset(a)| == |b|;
    if |a| == 0 {
      assert a == b;
    } else {
      assert a[0] in multiset(b);
      var i :| 0 <= i < |b| && b[i] == a[0];
      var rest := b[..i] + b[i + 1..];
      WithoutIndex(b, i);
      assert a == [a[0]] + a[1..];
      Cancel(a[0], multiset(a[1..]), multiset(rest));
      OpsPermute(a[1..], rest);
      OpsWithout(b, i);
      OpsWithout(a, 0);
      assert a[..0] + a[1..] == a[1..];
    }
  }

  lemma {:induction false} RealOpsAreTuples(memory: seq<MemoryColumns>)
    ensures RealOps(memory) == OpsOfTuples(RealTuples(memory))
  {
    hide Value, Wrap;
  }

  // From bus rows to rows of an execution.

  /** A live row that stands at its instruction and carries it out. */
  predicate RightRow(program: seq<byte>, r: BusRow) {
    Placed(program, r) && r.timestamp >= 0 && CarriesOut(r, InstructionAt(program, Value(r.pc)).value)
  }

  ghost predicate RightRows(program: seq<byte>, live: seq<BusRow>) {
    forall k :: 0 <= k < |live| ==> live[k].isDummy == 1 && RightRow(program, live[k])
  }

  ghost predicate TimesFit(p: int, live: seq<BusRow>) {
    forall k :: 0 <= k < |live| ==> live[k].timestamp + 3 <= MAX_TIMESTAMP && live[k].timestamp + 3 < p
  }

  function RowOf(program: seq<byte>, r: BusRow): Row
    requires RightRow(program, r)
  {
    Row(Wrap(Value(r.pc)), r.timestamp, InstructionAt(program, Value(r.pc)).value, Wrap(Value(r.v1)), Wrap(Value(r.v2)),
        Wrap(Value(r.oldRd)), Wrap(Value(r.newRd)), Wrap(Value(r.nextPc)))
  }

  ghost function RowsOf(program: seq<byte>, live: seq<BusRow>): seq<Row>
    requires RightRows(program, live)
  {
    seq(|live|, k requires 0 <= k < |live| => RowOf(program, live[k]))
  }

  lemma {:induction false} WordOf(x: Limbs)
    requires AreBytes(x)
    ensures 0 <= Value(x) < TWO32 && Wrap(Value(x)) == Value(x) && ToLimbs(Value(x)) == x
  {
    ValueToLimbs(x);
  }

  lemma {:induction false} RightIsOk(program: seq<byte>, r: BusRow)
    requires RightRow(program, r) && r.timestamp < MAX_TIMESTAMP
    ensures RowOk(program, RowOf(program, r))
  {
    hide Value, AreBytes, DecodeInstruction, WordAt, Denotes, Result, NextPcFrom, Wrap, ToLimbs;
    WordOf(r.pc);
    WordOf(r.v1);
    WordOf(r.v2);
    WordOf(r.newRd);
    WordOf(r.nextPc);
    ZeroBytes();
  }

  lemma {:induction false} RightHop(p: int, program: seq<byte>, r: BusRow)
    requires p > 0 && RightRow(program, r) && r.isDummy == 1
    ensures RowHop(p, RowOf(program, r)) == BusHop(p, r)
  {
    FormatOfId(InstructionAt(program, Value(r.pc)).value);
    hide Value, AreBytes, InstructionAt, Result, NextPcFrom, Wrap, ToLimbs, Later, TicksOf, Ticks;
    WordOf(r.pc);
    WordOf(r.nextPc);
  }

  lemma {:induction false} RightHops(p: int, program: seq<byte>, live: seq<BusRow>)
    requires p > 0 && RightRows(program, live)
    ensures RowHops(p, RowsOf(program, live)) == BusHops(p, live)
  {
    hide RowHop, BusHop, RowOf, RightRow;
    forall k | 0 <= k < |live| ensures RowHop(p, RowOf(program, live[k])) == BusHop(p, live[k]) {
      RightHop(p, program, live[k]);
    }
  }

  lemma {:induction false} RegisterValue(a: reg)
    ensures AreBytes(RegisterAddress(a)) && Wrap(Value(RegisterAddress(a))) == a
  {
  }

  lemma {:induction false} EntryOp(p: int, ts: int, k: int, a: reg, read: Limbs, write: Limbs)
    requires p > 0 && 0 <= k < 3 && 0 <= ts && ts + 3 <= MAX_TIMESTAMP && ts + 3 < p
    ensures OpOfTuple(MemoryTuple(Later(p, ts, k), 0, RegisterAddress(a), read, write))
         == Access(a, ts + k, Wrap(Value(read)), Wrap(Value(write)))
    ensures Later(p, ts, k) == ts + k
  {
    RegisterValue(a);
    LaterExact(p, ts, k);
    assert Wrap(ts + k) == ts + k;
    hide Value, Wrap, Later, RegisterAddress;
  }

  lemma {:induction false} DenotedFields(r: BusRow, i: Instruction)
    requires RowDenotes(r, i)
    ensures IsRTypeId(r.id) == IsRType(i) && IsUpperId(r.id) == IsUType(i) && (r.id == JAL_ID <==> i.Jal?)
    ensures i.rd == r.rd && (!UsesLow8(i) ==> i.rs1 == r.rs1) && (IsRType(i) ==> i.rs2 == r.field4)
  {
    FormatOfId(i);
    hide Offset, SignExtend12, IsRTypeId, IsUpperId;
  }

  /** The accesses of a row with the operands of instruction i. */
  function OpsOf(r: BusRow, i: Instruction): seq<MemoryOp>
    requires 0 <= r.timestamp < MAX_TIMESTAMP
  {
    var v1, v2, oldRd, newRd := Wrap(Value(r.v1)), Wrap(Value(r.v2)), Wrap(Value(r.oldRd)), Wrap(Value(r.newRd));
    if IsRType(i) then
      [Access(i.rs1, r.timestamp, v1, v1), Access(i.rs2, r.timestamp + 1, v2, v2), Access(i.rd, r.timestamp + 2, oldRd, newRd)]
    else if IsUType(i) then [Access(i.rd, r.timestamp, oldRd, newRd)]
    else if i.Jal? then (if i.rd == 0 then [] else [Access(i.rd, r.timestamp, oldRd, newRd)])
    else [Access(i.rs1, r.timestamp, v1, v1), Access(i.rd, r.timestamp + 1, oldRd, newRd)]
  }

  lemma {:induction false} RowOpsAre(program: seq<byte>, r: BusRow)
    requires RightRow(program, r) && r.timestamp < MAX_TIMESTAMP
    ensures RowOps(RowOf(program, r)) == OpsOf(r, InstructionAt(program, Value(r.pc)).value)
  {
    hide Value, InstructionAt, CarriesOut, Placed, Wrap;
  }

  lemma {:induction false} RTypeOpsAre(p: int, r: BusRow, i: Instruction)
    requires p > 0 && RowDenotes(r, i) && 0 <= r.timestamp && r.timestamp + 3 <= MAX_TIMESTAMP && r.timestamp + 3 < p
    requires IsRType(i)
    ensures OpsOfTuples(AccessList(p, r)) == OpsOf(r, i)
  {
    DenotedFields(r, i);
    hide Value, Wrap, Later, OpOfTuple, RegisterAddress, IsRTypeId, IsUpperId, RowDenotes;
    EntryOp(p, r.timestamp, 0, i.rs1, r.v1, r.v1);
    EntryOp(p, r.timestamp, 1, i.rs2, r.v2, r.v2);
    EntryOp(p, r.timestamp, 2, i.rd, r.oldRd, r.newRd);
  }

  lemma {:induction false} TupleOpsAre(p: int, r: BusRow, i: Instruction)
    requires p > 0 && RowDenotes(r, i) && 0 <= r.timestamp && r.timestamp + 3 <= MAX_TIMESTAMP && r.timestamp + 3 < p
    requires i.Jal? ==> r.links == Flag(r.rd != 0)
    ensures OpsOfTuples(AccessList(p, r)) == OpsOf(r, i)
  {
    DenotedFields(r, i);
    hide Value, Wrap, Later, OpOfTuple, RegisterAddress, IsRTypeId, IsUpperId, RowDenotes;
    if IsRType(i) {
      RTypeOpsAre(p, r, i);
    } else if UsesLow8(i) {
      EntryOp(p, r.timestamp, 0, i.rd, r.oldRd, r.newRd);
    } else {
      EntryOp(p, r.timestamp, 0, i.rs1, r.v1, r.v1);
      EntryOp(p, r.timestamp, 1, i.rd, r.oldRd, r.newRd);
    }
  }

  lemma {:induction false} RightFields(program: seq<byte>, r: BusRow)
    requires RightRow(program, r)
    ensures InstructionAt(program, Value(r.pc)).Some?
    ensures var i := InstructionAt(program, Value(r.pc)).value;
            RowDenotes(r, i) && r.timestamp >= 0 && (i.Jal? ==> r.links == Flag(r.rd != 0))
  {
    hide Denotes, InstructionAt, Value, Result, NextPcFrom, AreBytes;
  }

  /** The accesses a right row sends are those of its instruction. */
  lemma {:induction false} RightOps(p: int, program: seq<byte>, r: BusRow)
    requires p > 0 && RightRow(program, r) && r.timestamp + 3 <= MAX_TIMESTAMP && r.timestamp + 3 < p
    ensures RowOps(RowOf(program, r)) == OpsOfTuples(AccessList(p, r))
  {
    hide *;
    RightFields(program, r);
    RowOpsAre(program, r);
    TupleOpsAre(p, r, InstructionAt(program, Value(r.pc)).value);
  }

  lemma {:induction false} AllRightOps(p: int, program: seq<byte>, live: seq<BusRow>)
    requires p > 0 && RightRows(program, live) && TimesFit(p, live)
    ensures InRange(RowsOf(program, live)) && AllOps(RowsOf(program, live)) == OpsOfTuples(AllAccesses(p, live))
  {
    hide RowOps, RightRow, OpOfTuple, Accesses, AccessList;
    if |live| > 0 {
      var n := |live| - 1;
      var before, last := live[..n], live[n];
      AllRightOps(p, program, before);
      RightOps(p, program, last);
      AccessesAre(p, last);
      assert RowsOf(program, live) == RowsOf(program, before) + [RowOf(program, last)];
      assert RowsOf(program, live)[..n] == RowsOf(program, before);
    }
  }

  /** A tuple a memory row may be built from: a register below 32, bytes written, a time that fits. */
  predicate WriterTuple(t: MemoryTuple) {
    t.memoryType == 0 && AreBytes(t.address) && AreBytes(t.write) && 0 <= t.timestamp < TWO32
  }

  ghost predicate WriterTuples(ts: seq<MemoryTuple>) {
    forall k :: 0 <= k < |ts| ==> WriterTuple(ts[k])
  }

  lemma {:induction false} EntryWrites(p: int, ts: int, k: int, a: reg, read: Limbs, write: Limbs)
    requires p > 0 && 0 <= k < 3 && 0 <= ts && ts + 3 <= MAX_TIMESTAMP && ts + 3 < p && AreBytes(write)
    ensures WriterTuple(MemoryTuple(Later(p, ts, k), 0, RegisterAddress(a), read, write))
  {
    RegisterValue(a);
    LaterExact(p, ts, k);
    hide Later, RegisterAddress, AreBytes;
  }

  lemma {:induction false} RightWrites(p: int, program: seq<byte>, r: BusRow)
    requires p > 0 && RightRow(program, r) && r.timestamp + 3 <= MAX_TIMESTAMP && r.timestamp + 3 < p
    ensures WriterTuples(AccessList(p, r))
  {
    var i := InstructionAt(program, Value(r.pc)).value;
    DenotedFields(r, i);
    hide Value, AreBytes, InstructionAt, Result, NextPcFrom, Wrap, Later, RegisterAddress, IsRTypeId, IsUpperId, Id, Denotes, WriterTuple;
    if IsRType(i) {
      EntryWrites(p, r.timestamp, 0, i.rs1, r.v1, r.v1);
      EntryWrites(p, r.timestamp, 1, i.rs2, r.v2, r.v2);
      EntryWrites(p, r.timestamp, 2, i.rd, r.oldRd, r.newRd);
    } else if UsesLow8(i) {
      EntryWrites(p, r.timestamp, 0, i.rd, r.oldRd, r.newRd);
    } else {
      EntryWrites(p, r.timestamp, 0, i.rs1, r.v1, r.v1);
      EntryWrites(p, r.timestamp, 1, i.rd, r.oldRd, r.newRd);
    }
  }

  lemma {:induction false} AllWrite(p: int, program: seq<byte>, live: seq<BusRow>)
    requires p > 0 && RightRows(program, live) && TimesFit(p, live)
    ensures WriterTuples(AllAccesses(p, live))
  {
    hide RightRow, Accesses, AccessList, WriterTuple;
    if |live| > 0 {
      var n := |live| - 1;
      AllWrite(p, program, live[..n]);
      RightWrites(p, program, live[n]);
      AccessesAre(p, live[n]);
    }
  }

  /** What the memory bus guarantees of the real rows of the memory table. */
  lemma {:induction false} BusGivesWriters(accesses: seq<MemoryTuple>, memory: seq<MemoryColumns>)
    requires WriterTuples(accesses) && multiset(accesses) == multiset(RealTuples(memory))
    ensures WritersOnly(memory)
  {
    hide AreBytes, RealCount;
    forall i | 0 <= i < RealCount(memory) ensures WriterRow(memory[i]) {
      assert RealTuples(memory)[i] == TupleOf(memory[i]);
      assert TupleOf(memory[i]) in multiset(accesses);
      var k :| 0 <= k < |accesses| && accesses[k] == TupleOf(memory[i]);
    }
  }

  // Everything together.

  /** Live rows that carry out whatever instruction their decode columns denote. */
  ghost predicate RowsForced(p: int, rows: seq<BusRow>) {
    && RowSelectors(rows) && TimeResidues(p, rows) && ByteNextPcs(rows)
    && forall k :: 0 <= k < |rows| && rows[k].isDummy == 1 ==> RowForced(rows[k])
  }

  lemma {:induction false} LiveConserves(p: int, rows: seq<BusRow>, data: seq<int>)
    requires p > 2 && 3 * |rows| < p && |data| == 4 * BOUNDARY_COLUMNS && RowSelectors(rows)
    requires TraceBusBalances(p, BusHops(p, rows), data)
    ensures Conserves(BusHops(p, LiveRows(rows)), ORIGIN, BoundaryPoint(data, 3)) && |LiveRows(rows)| <= |rows|
  {
    LiveRowsHop(p, rows);
    LiveRowsAre(rows);
    assert HopSelectors(BusHops(p, rows));
    assert |LiveHops(BusHops(p, rows))| == |LiveRows(rows)|;
    hide BusHops, LiveRows, LiveHops, BoundaryPoint, TraceBusBalances, Conserves;
    BalanceIsConservation(p, BusHops(p, rows), data);
  }

  lemma {:induction false} LiveMember(rows: seq<BusRow>, j: nat) returns (k: nat)
    requires j < |LiveRows(rows)|
    ensures k < |rows| && rows[k] == LiveRows(rows)[j] && rows[k].isDummy == 1
  {
    LiveRowsAre(rows);
    hide LiveRows;
    assert LiveRows(rows)[j] in rows;
    k :| k < |rows| && rows[k] == LiveRows(rows)[j];
  }

  lemma {:induction false} LiveBytes(rows: seq<BusRow>)
    requires ByteNextPcs(rows)
    ensures forall j :: 0 <= j < |LiveRows(rows)| ==> AreBytes(LiveRows(rows)[j].nextPc)
  {
    hide LiveRows;
    forall j | 0 <= j < |LiveRows(rows)| ensures AreBytes(LiveRows(rows)[j].nextPc) {
      var k := LiveMember(rows, j);
    }
  }

  lemma {:induction false} LiveTimes(p: int, rows: seq<BusRow>)
    requires TimeResidues(p, rows)
    ensures TimeResidues(p, LiveRows(rows))
  {
    hide LiveRows;
    forall j | 0 <= j < |LiveRows(rows)| ensures Residue(p, LiveRows(rows)[j].timestamp) {
      var k := LiveMember(rows, j);
    }
  }

  lemma {:induction false} ForcedIsRight(program: seq<byte>, r: BusRow)
    requires Placed(program, r) && RowForced(r) && AreBytes(r.pc) && AreBytes(r.nextPc) && r.timestamp >= 0
    ensures RightRow(program, r)
  {
    hide CarriesOut, InstructionAt, Value, Denotes, AreBytes;
    assert RowDenotes(r, InstructionAt(program, Value(r.pc)).value);
  }

  /** Every live row is right. */
  lemma {:induction false} LiveAreRight(p: int, program: seq<byte>, rows: seq<BusRow>, decode: seq<DecodeColumns>,
                                        rom: seq<ProgramColumns>, end: Point)
    requires LargePrime(p) && 3 * |rows| < p && RowsForced(p, rows)
    requires DecodeBuses(p, program, rows, decode, rom) && UpperRowsInPlace(p, program, rows, decode)
    requires Conserves(BusHops(p, LiveRows(rows)), ORIGIN, end)
    ensures RightRows(program, LiveRows(rows))
  {
    var live := LiveRows(rows);
    LiveBytes(rows);
    hide LiveRows, Conserves, DecodeBuses, UpperRowsInPlace, RowForced, RightRow, Placed, AreBytes, BusHops, LargePrime, RowSelectors;
    forall j | 0 <= j < |live| ensures live[j].isDummy == 1 && RightRow(program, live[j]) {
      var k := LiveMember(rows, j);
      PcIsByte(p, live, end, j);
      AllPlaced(p, program, rows, decode, rom, k);
      ForcedIsRight(program, rows[k]);
    }
  }

  lemma {:induction false} LiveTimesFit(p: int, rows: seq<BusRow>, end: Point)
    requires p > 0 && 3 * |rows| < p && 3 * |rows| <= MAX_TIMESTAMP && TimeResidues(p, rows)
    requires Conserves(BusHops(p, LiveRows(rows)), ORIGIN, end)
    ensures TimesFit(p, LiveRows(rows))
  {
    var live := LiveRows(rows);
    LiveTimes(p, rows);
    LiveRowsAre(rows);
    hide LiveRows, Conserves, BusHops;
    forall k | 0 <= k < |live| ensures live[k].timestamp + 3 <= MAX_TIMESTAMP && live[k].timestamp + 3 < p {
      TimesBounded(p, live, end, k);
    }
  }

  lemma {:induction false} RightAreOk(p: int, program: seq<byte>, live: seq<BusRow>)
    requires RightRows(program, live) && TimesFit(p, live)
    ensures var rows := RowsOf(program, live);
            |rows| == |live| && RowsOk(program, rows) && InRange(rows) && forall k :: 0 <= k < |rows| ==> rows[k].ts < p
  {
    hide RowOk, RightRow;
    forall k | 0 <= k < |live|
      ensures RowOk(program, RowOf(program, live[k])) && RowOf(program, live[k]).ts < MAX_TIMESTAMP && RowOf(program, live[k]).ts < p
    {
      RightIsOk(program, live[k]);
    }
  }

  /** The accesses of the live rows are the operations the memory table records. */
  lemma {:induction false} MemoryIsOps(p: int, program: seq<byte>, rows: seq<BusRow>, memory: seq<MemoryColumns>)
    requires LargePrime(p) && RowSelectors(rows) && 3 * |rows| < p && |memory| < p
    requires RightRows(program, LiveRows(rows)) && TimesFit(p, LiveRows(rows))
    requires MemoryResidues(p, memory) && MemoryEval(p, memory) && MemoryBus(p, rows, memory)
    ensures InRange(RowsOf(program, LiveRows(rows)))
    ensures WritersOnly(memory) && multiset(AllOps(RowsOf(program, LiveRows(rows)))) == multiset(RealOps(memory))
  {
    hide *;
    var live := LiveRows(rows);
    LargeIsPrime(p);
    MemoryBusMoves(p, rows, memory);
    LiveRowsAccess(p, rows);
    AllWrite(p, program, live);
    BusGivesWriters(AllAccesses(p, live), memory);
    AllRightOps(p, program, live);
    OpsPermute(AllAccesses(p, live), RealTuples(memory));
    RealOpsAreTuples(memory);
  }

  lemma {:induction false} LargeIsPrime(p: int)
    requires LargePrime(p)
    ensures IsPrime(p) && p > 2
  {
  }

  /** Right rows in the order of an execution, over a memory table whose timestamp rows ascend, are the run. */
  lemma {:induction false} OrderedIsTheRun(p: int, program: seq<byte>, rows: seq<Row>, end: Point, memory: seq<MemoryColumns>,
                                           lt: seq<U32LtColumns>, times: seq<TimestampLtColumns>)
    requires LargePrime(p) && 3 * |rows| < p && RowsOk(program, rows) && InRange(rows)
    requires forall k :: 0 <= k < |rows| ==> rows[k].ts < p
    requires Conserves(RowHops(p, rows), ORIGIN, end)
    requires MemoryResidues(p, memory) && MemoryEval(p, memory) && WritersOnly(memory) && |memory| < p
    requires LtTableAccepted(p, lt) && AddressBus(p, memory, lt)
    requires TimeTableAccepted(p, times) && TimestampBus(p, memory, times) && AnswersAscend(memory, times)
    requires multiset(AllOps(rows)) == multiset(RealOps(memory))
    ensures Execute(program, |rows|).Stepped?
    ensures var s := Execute(program, |rows|).state;
            ToLimbs(s.pc) == end.pc && s.timestamp == end.ts && multiset(Ops(s)) == multiset(RealOps(memory))
  {
    LargeIsPrime(p);
    hide LargePrime, RowsOk, Conserves, MemoryResidues, MemoryEval, WritersOnly, LtTableAccepted, AddressBus, TimeTableAccepted,
         TimestampBus, AnswersAscend, AllOps, RealOps, RowHops, Execute, Ops, ToLimbs, TimesBelow, Reaches, Faithful, KeyOrdered,
         Adjacent, Replays;
    var ordered, pc := OrderedExecution(p, rows, end);
    SameRows(program, ordered, rows);
    SameRange(ordered, rows);
    AllOpsPermute(ordered, rows);
    OpsTimeOrdered(ordered, pc, end.ts);
    AcceptedMemoryReplays(p, memory, lt, times, AllOps(ordered));
    RowsRun(program, ordered, pc, end.ts);
  }

  /**
   * Live rows that carry out what their decode columns denote, over trace, decode and memory buses
   * that balance and comparison tables whose own lookups hold, are the run of the machine.
   */
  lemma {:induction false} ForcedRowsAreTheRun(p: int, program: seq<byte>, rows: seq<BusRow>, decode: seq<DecodeColumns>,
                                               rom: seq<ProgramColumns>, data: seq<int>, memory: seq<MemoryColumns>,
                                               lt: seq<U32LtColumns>, times: seq<TimestampLtColumns>)
    requires LargePrime(p) && 3 * |rows| < p && 3 * |rows| <= MAX_TIMESTAMP && RowsForced(p, rows)
    requires DecodeBuses(p, program, rows, decode, rom) && UpperRowsInPlace(p, program, rows, decode)
    requires |data| == 4 * BOUNDARY_COLUMNS && TraceBusBalances(p, BusHops(p, rows), data)
    requires MemoryResidues(p, memory) && MemoryEval(p, memory) && |memory| < p && MemoryBus(p, rows, memory)
    requires LtTableAccepted(p, lt) && AddressBus(p, memory, lt)
    requires TimeTableAccepted(p, times) && TimestampBus(p, memory, times) && AnswersAscend(memory, times)
    ensures Execute(program, |LiveRows(rows)|).Stepped?
    ensures var s, end := Execute(program, |LiveRows(rows)|).state, BoundaryPoint(data, 3);
            ToLimbs(s.pc) == end.pc && s.timestamp == end.ts && multiset(Ops(s)) == multiset(RealOps(memory))
  {
    var live, end := LiveRows(rows), BoundaryPoint(data, 3);
    ForcedSelectors(p, rows);
    hide *;
    LargeIsPrime(p);
    LiveConserves(p, rows, data);
    LiveAreRight(p, program, rows, decode, rom, end);
    LiveTimesFit(p, rows, end);
    RightAreOk(p, program, live);
    RightHops(p, program, live);
    MemoryIsOps(p, program, rows, memory);
    OrderedIsTheRun(p, program, RowsOf(program, live), end, memory, lt, times);
  }

  lemma {:induction false} ForcedSelectors(p: int, rows: seq<BusRow>)
    requires RowsForced(p, rows)
    ensures RowSelectors(rows) && TimeResidues(p, rows) && ByteNextPcs(rows)
  {
  }
}
