/**
 * The instruction rows of a run as the shared buses see them: they carry out their instructions, stand
 * where the program holds them, and balance on the trace, decode and memory buses.
 */
module RunBuses {
  import opened Words
  import opened PrimeField
  import opened Rv32
  import opened Vm
  import opened OfflineMemory
  import opened VmLog
  import opened Encoding
  import opened U32Ops
  import opened Bits
  import opened Heights
  import opened Bus
  import opened TraceBus
  import opened RunRows
  import opened Decode
  import opened Jal
  import opened ProgramRom
  import opened ProgramFetch
  import opened DecodeBus
  import opened RowBuses
  import opened MemoryAir
  import opened MemoryTrace
  import opened MemoryComplete
  import opened EndToEnd
  import opened InstructionRows

  /** The last decode columns: rs2, a shift amount, or the fields of an immediate. */
  function LastField(i: Instruction): int {
    if IsRType(i) then i.rs2
    else if IsShiftImm(i) then i.imm
    else if IsUType(i) then i.imm / 256
    else if i.Jal? then Rescrambled(i.imm).0
    else Wrap(i.imm) % 4096
  }

  function LowField(i: Instruction): int {
    if IsUType(i) then i.imm % 256 else if i.Jal? then Rescrambled(i.imm).1 else 0
  }

  predicate SilentJal(i: Instruction) {
    i.Jal? && i.rd == 0
  }

  /** The columns the row of instruction i in state s puts on the buses. */
  function MachineBusRow(s: VmState, i: Instruction): BusRow
    requires Fits(s, i)
  {
    var regs := LastRegisters(s.trace);
    BusRow(Id(i), ToLimbs(s.pc), s.timestamp, i.rd, if UsesLow8(i) then 0 else i.rs1, LastField(i), LowField(i),
           ToLimbs(Rs1Value(i, regs)), ToLimbs(Rs2Value(i, regs)), ToLimbs(if SilentJal(i) then 0 else regs[i.rd]),
           ToLimbs(ResultIn(i, regs, s.pc)), ToLimbs(NextPc(i, regs, s.pc)), Flag(!SilentJal(i)), 1)
  }

  /** The bus rows of the first n steps. */
  ghost function MachineBusRows(program: seq<byte>, n: nat): seq<BusRow>
    requires Execute(program, n).Stepped?
  {
    if n == 0 then []
    else
      var s := Execute(program, n - 1).state;
      MachineBusRows(program, n - 1) + [MachineBusRow(s, DecodeInstruction(WordAt(s.program, s.pc)).value)]
  }

  // One row.

  lemma {:induction false} FieldsDecode(i: Instruction)
    requires HasEncoding(i)
    ensures Denotes(i, Id(i), i.rd, if UsesLow8(i) then 0 else i.rs1, LastField(i), LowField(i))
  {
    if i.Jal? {
      EncodableIsOffset(i.imm);
    } else if !UsesLow8(i) && !IsRType(i) && !IsShiftImm(i) {
      TwelveBits(Twelve(i.imm));
      assert SignExtend12(Twelve(i.imm)) == i.imm;
    }
    hide Wrap, Offset, Rescrambled, Id;
  }

  lemma {:induction false} TwelveBits(f: int)
    requires 0 <= f < 4096
    ensures Wrap(SignExtend12(f)) % 4096 == f
  {
  }

  lemma {:induction false} EncodedFits(i: Instruction)
    requires HasEncoding(i)
    ensures (i.Jal? ==> Encodable(i.imm)) && (i.Jalr? ==> -2048 <= i.imm < 2048)
    ensures i.SlliI? || i.SrliI? || i.SraiI? ==> 0 <= i.imm < 32
  {
  }

  /** The row denotes its instruction and carries it out. */
  lemma {:induction false} MachineRowForced(s: VmState, i: Instruction)
    requires Fits(s, i) && HasEncoding(i) && !(i.Jalr? && i.rd == 0)
    ensures var b := MachineBusRow(s, i); RowDenotes(b, i) && CarriesOut(b, i) && RowForced(b)
  {
    var b, regs := MachineBusRow(s, i), LastRegisters(s.trace);
    FieldsDecode(i);
    ToLimbsValue(s.pc);
    ToLimbsValue(Rs1Value(i, regs));
    ToLimbsValue(Rs2Value(i, regs));
    ToLimbsValue(ResultIn(i, regs, s.pc));
    ToLimbsValue(NextPc(i, regs, s.pc));
    ZeroWord();
    hide ToLimbs, Value, AreBytes, Denotes, Result, NextPcFrom, LastField, LowField, HasEncoding;
    forall j | RowDenotes(b, j) ensures j == i {
      DenotesOne(i, j, b.id, b.rd, b.rs1, b.field4, b.low8);
    }
  }

  lemma {:induction false} MachineRowPlaced(s: VmState, i: Instruction)
    requires Fits(s, i) && HasEncoding(i) && s.pc + 3 < |s.program| && DecodeInstruction(WordAt(s.program, s.pc)) == Some(i)
    ensures Placed(s.program, MachineBusRow(s, i)) && AreBytes(MachineBusRow(s, i).nextPc)
  {
    FieldsDecode(i);
    ToLimbsValue(s.pc);
    ToLimbsValue(NextPc(i, LastRegisters(s.trace), s.pc));
    hide ToLimbs, Value, AreBytes, Denotes, DecodeInstruction, WordAt, LastField, LowField, HasEncoding, Result, NextPcFrom;
  }

  // Decode.

  /** A decode row offers on each bus what an instruction row sends there. */
  ghost predicate OffersRow(r: DecodeColumns, b: BusRow) {
    && StandardReceive(r).multiplicity == Flag(IsStandardId(b.id)) && (IsStandardId(b.id) ==> StandardReceive(r).tuple == DecodeTupleOf(b))
    && UpperReceive(r).multiplicity == Flag(IsUpperId(b.id)) && (IsUpperId(b.id) ==> UpperReceive(r).tuple == UpperTupleOf(b))
    && JumpReceive(r).multiplicity == Flag(b.id == JAL_ID) && (b.id == JAL_ID ==> JumpReceive(r).tuple == UpperTupleOf(b))
  }

  lemma {:induction false} FilledDecodes(p: int, pc: word, w: word)
    requires LargePrime(p) && DecodeInstruction(w).Some?
    ensures Decodes(FillDecode(pc, w), w)
  {
    var r := FillDecode(pc, w);
    assert r.instruction == ToLimbs(w) && p > 1;
    hide FillDecode, DecodeResidues, DecodeEval, DecodeInstruction, LargePrime, ToLimbs, Value;
    FilledDecodeResidues(p, pc, w);
    DecodeComplete(p, pc, w);
    DecodeSound(p, r);
    ToLimbsValue(w);
  }

  lemma {:induction false} FilledJump(pc: word, w: word)
    requires DecodeInstruction(w).Some? && DecodeInstruction(w).value.Jal?
    ensures var r := FillDecode(pc, w);
            && JumpReceive(r) == Entry(UpperTuple(21, RdField(w), High12(w), Lo8(w)), 1)
            && StandardGate(r.flags) == 0 && UpperGate(r.flags) == 0
  {
    var r := FillDecode(pc, w);
    FilledFlags(w);
    FilledBits(w);
    JalFormIsHigh12(r.decompositions, w);
    FormatOfFlags(r.flags, DecodeInstruction(w).value);
    DecodersAgree(w, 21);
    hide DecodeInstruction, Matches, PackedOf, FlagsOf, JalForm, High12, RdField, ToLimbs, ByteBits, FromBits, Bits32, AllBits, OneHot,
         UpperGate;
  }

  /** The fields of a standard instruction, and of LUI and AUIPC, are determined. */
  lemma {:induction false} FieldsOne(i: Instruction, id: int, rd: int, rs1: int, field4: int, low8: int)
    requires Denotes(i, id, rd, rs1, field4, low8) && !i.Jal? && 0 <= low8 < 256
    ensures id == Id(i) && rd == i.rd && field4 == LastField(i) && (!UsesLow8(i) ==> rs1 == i.rs1) && (IsUType(i) ==> low8 == LowField(i))
  {
    if !UsesLow8(i) && !IsRType(i) && !IsShiftImm(i) {
      TwelveBits(field4);
    }
    hide Wrap, SignExtend12, Offset;
  }

  lemma {:induction false} FilledColumns(pc: word, w: word)
    ensures var r := FillDecode(pc, w); r.mult == 1 && r.pc == ToLimbs(pc) && 0 <= r.immLow8 < 256
  {
    hide ToLimbs;
  }

  lemma {:induction false} FlagsOfDecoded(r: DecodeColumns, w: word)
    requires Decodes(r, w)
    ensures var i := DecodeInstruction(w).value; r.flags[21] == Flag(i.Jal?) && r.packed == Id(i) && r.rd == i.rd
  {
    FormatOfFlags(r.flags, DecodeInstruction(w).value);
    hide DecodeInstruction, Id, OneHot;
  }

  lemma {:induction false} StandardOffered(p: int, s: VmState, w: word, i: Instruction)
    requires LargePrime(p) && Fits(s, i) && DecodeInstruction(w) == Some(i) && !i.Jal?
    ensures OffersRow(FillDecode(s.pc, w), MachineBusRow(s, i))
  {
    var r := FillDecode(s.pc, w);
    hide FillDecode, DecodeInstruction, LargePrime, ToLimbs, Denotes, LastField, LowField, StandardGate, UpperGate, Field4, JalForm, IsUType,
         IsRType, IsShiftImm, ResultIn, NextPc, Decodes, OneHot, Id, IsStandardId, IsUpperId, Fits, LastRegisters;
    FilledColumns(s.pc, w);
    FilledDecodes(p, s.pc, w);
    FieldsDenote(r, w);
    FlagsOfDecoded(r, w);
    FormatOfId(i);
    if UsesLow8(i) {
      FieldsOne(i, r.packed, r.rd, 0, r.imm, r.immLow8);
    } else {
      FieldsOne(i, r.packed, r.rd, r.rs1, Field4(r), 0);
    }
  }

  lemma {:induction false} JumpOffered(p: int, s: VmState, w: word, i: Instruction)
    requires LargePrime(p) && Fits(s, i) && DecodeInstruction(w) == Some(i) && i.Jal?
    ensures OffersRow(FillDecode(s.pc, w), MachineBusRow(s, i))
  {
    var r := FillDecode(s.pc, w);
    assert r.rd == RdField(w) && r.mult == 1;
    hide FillDecode, DecodeInstruction, LargePrime, StandardGate, UpperGate, Field4, JalForm, Rescrambled, ImmJ, High12, Lo8, OneHot, ToLimbs,
         ResultIn, NextPc;
    FilledJump(s.pc, w);
    FilledDecodes(p, s.pc, w);
    JumpWordOf(w, i);
    RescrambledImmJ(w);
  }

  lemma {:induction false} JumpWordOf(w: word, i: Instruction)
    requires DecodeInstruction(w) == Some(i) && i.Jal?
    ensures i.imm == ImmJ(w) && i.rd == RdField(w) && Id(i) == 21
  {
    hide ImmJ, ImmI, ImmU, Opcode, Funct3, Funct7, RdField, Rs1Field, Rs2Field;
  }

  // Trace.

  lemma {:induction false} RowHopIs(p: int, s: VmState, w: word, i: Instruction)
    requires p > 0 && Fits(s, i) && s.timestamp + Ticks(i) < p
    ensures BusHop(p, MachineBusRow(s, i)) == StepHop(p, StepOf(s, w, i), s.timestamp)
  {
    hide MachineBusRow, ToLimbs, Reduce, Later, StepHop, StepOf, NextPc, StateAfter, TicksOf, Fits, LastRegisters;
    MachineColumns(s, i);
    HopOfStep(p, s, w, i);
    ReduceLater(p, s.timestamp, Ticks(i));
    SmallTime(p, s, w, i);
    SmallReduce(p, s.timestamp);
  }

  lemma {:induction false} SmallTime(p: int, s: VmState, w: word, i: Instruction)
    requires Fits(s, i) && s.timestamp + Ticks(i) < p
    ensures StateAfter(s, w, i).pc == NextPc(i, LastRegisters(s.trace), s.pc) && StateAfter(s, w, i).timestamp == s.timestamp + Ticks(i)
  {
    hide NextPc, RegistersAfter, OperationsOf;
  }

  lemma {:induction false} SmallReduce(p: int, x: int)
    requires 0 <= x < p
    ensures Reduce(p, x) == x
  {
  }

  // Memory.

  /** The tuple of an access. */
  function OpTuple(o: MemoryOp): MemoryTuple {
    MemoryTuple(o.timestamp, 0, ToLimbs(o.address), ToLimbs(o.read), ToLimbs(o.write))
  }

  function OpTuples(ops: seq<MemoryOp>): seq<MemoryTuple> {
    seq(|ops|, k requires 0 <= k < |ops| => OpTuple(ops[k]))
  }

  lemma {:induction false} RegisterLimbs(a: reg)
    ensures ToLimbs(a) == RegisterAddress(a)
  {
  }

  lemma {:induction false} ThreeTuples(a: MemoryOperation, b: MemoryOperation, c: MemoryOperation)
    ensures OpTuples(ToOps([a, b, c])) == [OpTuple(ToOp(a)), OpTuple(ToOp(b)), OpTuple(ToOp(c))]
    ensures OpTuples(ToOps([a, b])) == [OpTuple(ToOp(a)), OpTuple(ToOp(b))]
  {
    hide ToOp, OpTuple;
  }

  lemma {:induction false} RTypeList(p: int, b: BusRow, i: Instruction, regs: Registers, pc: word, ts: nat)
    requires ts + 3 < p && ts + 3 < TWO32 && IsRType(i) && IsRTypeId(b.id) && b.timestamp == ts
    requires b.rs1 == i.rs1 && b.field4 == i.rs2 && b.rd == i.rd && b.v1 == ToLimbs(regs[i.rs1]) && b.v2 == ToLimbs(regs[i.rs2])
    requires b.oldRd == ToLimbs(regs[i.rd]) && b.newRd == ToLimbs(ResultIn(i, regs, pc))
    ensures ts + Ticks(i) < TWO32 && AccessList(p, b) == OpTuples(ToOps(OperationsOf(i, regs, pc, ts)))
  {
    hide ToLimbs, Later, ResultIn, IsRTypeId, RegisterAddress, OpTuples, ToOps;
    ThreeTuples(Read(Register, i.rs1, ts, regs[i.rs1]), Read(Register, i.rs2, ts + 1, regs[i.rs2]),
                Write(Register, i.rd, ts + 2, regs[i.rd], ResultIn(i, regs, pc)));
    RegisterLimbs(i.rs1);
    RegisterLimbs(i.rs2);
    RegisterLimbs(i.rd);
    LaterExact(p, ts, 0);
    LaterExact(p, ts, 1);
    LaterExact(p, ts, 2);
  }

  lemma {:induction false} UpperList(p: int, b: BusRow, i: Instruction, regs: Registers, pc: word, ts: nat)
    requires ts + 1 < p && ts + 1 < TWO32 && UsesLow8(i) && b.timestamp == ts && b.rd == i.rd
    requires !IsRTypeId(b.id) && IsUpperId(b.id) == IsUType(i) && (b.id == JAL_ID <==> i.Jal?)
    requires !SilentJal(i) ==> b.oldRd == ToLimbs(regs[i.rd])
    requires b.newRd == ToLimbs(ResultIn(i, regs, pc)) && b.links == Flag(!SilentJal(i))
    ensures ts + Ticks(i) < TWO32 && AccessList(p, b) == OpTuples(ToOps(OperationsOf(i, regs, pc, ts)))
  {
    hide ToLimbs, Later, ResultIn, IsRTypeId, IsUpperId, RegisterAddress;
    RegisterLimbs(i.rd);
    LaterExact(p, ts, 0);
  }

  lemma {:induction false} SourceList(p: int, b: BusRow, i: Instruction, regs: Registers, pc: word, ts: nat)
    requires ts + 2 < p && ts + 2 < TWO32 && !IsRType(i) && !UsesLow8(i) && b.timestamp == ts && b.rs1 == i.rs1 && b.rd == i.rd
    requires !IsRTypeId(b.id) && !IsUpperId(b.id) && b.id != JAL_ID && b.v1 == ToLimbs(regs[i.rs1])
    requires b.oldRd == ToLimbs(regs[i.rd]) && b.newRd == ToLimbs(ResultIn(i, regs, pc))
    ensures ts + Ticks(i) < TWO32 && AccessList(p, b) == OpTuples(ToOps(OperationsOf(i, regs, pc, ts)))
  {
    hide ToLimbs, Later, ResultIn, IsRTypeId, IsUpperId, RegisterAddress, OpTuples, ToOps;
    var write := Write(Register, i.rd, ts + 1, regs[i.rd], ResultIn(i, regs, pc));
    ThreeTuples(Read(Register, i.rs1, ts, regs[i.rs1]), write, write);
    RegisterLimbs(i.rs1);
    RegisterLimbs(i.rd);
    LaterExact(p, ts, 0);
    LaterExact(p, ts, 1);
  }

  /** The columns of the row, one by one. */
  lemma {:induction false} MachineColumns(s: VmState, i: Instruction)
    requires Fits(s, i)
    ensures var b, regs := MachineBusRow(s, i), LastRegisters(s.trace);
            && IsRTypeId(b.id) == IsRType(i) && IsUpperId(b.id) == IsUType(i) && (b.id == JAL_ID <==> i.Jal?) && TicksOf(b.id) == Ticks(i)
            && b.pc == ToLimbs(s.pc) && b.timestamp == s.timestamp && b.rd == i.rd && (!UsesLow8(i) ==> b.rs1 == i.rs1)
            && (IsRType(i) ==> b.field4 == i.rs2)
            && b.v1 == ToLimbs(Rs1Value(i, regs)) && b.v2 == ToLimbs(Rs2Value(i, regs)) && b.newRd == ToLimbs(ResultIn(i, regs, s.pc))
            && (!SilentJal(i) ==> b.oldRd == ToLimbs(regs[i.rd])) && b.nextPc == ToLimbs(NextPc(i, regs, s.pc))
            && b.links == Flag(!SilentJal(i)) && b.isDummy == 1
  {
    FormatOfId(i);
    hide ToLimbs, ResultIn, NextPc, IsRTypeId, IsUpperId, Id, LowField, TicksOf;
  }

  /** The accesses of the row are the operations of its step. */
  lemma {:induction false} RowAccesses(p: int, s: VmState, i: Instruction)
    requires Fits(s, i) && s.timestamp + Ticks(i) < p
    ensures AccessList(p, MachineBusRow(s, i)) == OpTuples(ToOps(OperationsOf(i, LastRegisters(s.trace), s.pc, s.timestamp)))
  {
    var b, regs := MachineBusRow(s, i), LastRegisters(s.trace);
    hide MachineBusRow, ToLimbs, ResultIn, NextPc, IsRTypeId, IsUpperId, OperationsOf, AccessList, OpTuples, ToOps, LastRegisters, TicksOf;
    MachineColumns(s, i);
    if IsRType(i) {
      RTypeList(p, b, i, regs, s.pc, s.timestamp);
    } else if UsesLow8(i) {
      UpperList(p, b, i, regs, s.pc, s.timestamp);
    } else {
      SourceList(p, b, i, regs, s.pc, s.timestamp);
    }
  }

  // All rows.

  /** What the rows of a run come to after s: one row per step, in place, with the hops and accesses of the machine. */
  ghost predicate RunRowsAre(p: int, b: seq<BusRow>, s: VmState)
    requires p > 0
  {
    && |b| == |s.trace| && BusHops(p, b) == HopsOf(p, s.trace) && Live(AllSends(p, b)) == OpTuples(Ops(s))
    && forall k :: 0 <= k < |b| ==> RowStands(s.program, s.trace[k], b[k])
  }

  /** The row stands where the program holds its instruction, which the decode row of its step offers. */
  ghost predicate RowStands(program: seq<byte>, step: ExecutionStep, r: BusRow) {
    && Placed(program, r) && AreBytes(r.nextPc) && r.isDummy == 1 && OffersRow(FillDecode(step.pc, step.instructionWord), r)
    && DecodeInstruction(step.instructionWord).Some?
  }

  lemma {:induction false} MachineRowStands(p: int, s: VmState, w: word, i: Instruction)
    requires LargePrime(p) && Fits(s, i) && s.pc + 3 < |s.program| && w == WordAt(s.program, s.pc) && DecodeInstruction(w) == Some(i)
    ensures RowStands(s.program, StepOf(s, w, i), MachineBusRow(s, i))
  {
    hide *;
    EncodeDecode(w);
    MachineRowPlaced(s, i);
    if i.Jal? {
      JumpOffered(p, s, w, i);
    } else {
      StandardOffered(p, s, w, i);
    }
    StandsFrom(s, w, i);
  }

  lemma {:induction false} StandsFrom(s: VmState, w: word, i: Instruction)
    requires Fits(s, i) && DecodeInstruction(w) == Some(i)
    requires Placed(s.program, MachineBusRow(s, i)) && AreBytes(MachineBusRow(s, i).nextPc)
    requires OffersRow(FillDecode(s.pc, w), MachineBusRow(s, i))
    ensures RowStands(s.program, StepOf(s, w, i), MachineBusRow(s, i))
  {
    hide Placed, AreBytes, OffersRow, FillDecode, DecodeInstruction, ToLimbs, ResultIn, NextPc, LastField, LowField, RegistersAfter,
         OperationsOf;
  }

  lemma {:induction false} TuplesAppend(a: seq<MemoryOp>, b: seq<MemoryOp>)
    ensures OpTuples(a + b) == OpTuples(a) + OpTuples(b)
  {
    hide OpTuple;
  }

  lemma {:induction false} RowLives(p: int, s: VmState, i: Instruction)
    requires Fits(s, i) && s.timestamp + Ticks(i) < p
    ensures Live(RowSends(p, MachineBusRow(s, i))) == OpTuples(ToOps(OperationsOf(i, LastRegisters(s.trace), s.pc, s.timestamp)))
  {
    assert MachineBusRow(s, i).isDummy == 1;
    assert Accesses(p, MachineBusRow(s, i)) == Live(RowSends(p, MachineBusRow(s, i)));
    hide *;
    RowAccesses(p, s, i);
    AccessesAre(p, MachineBusRow(s, i));
  }

  lemma {:induction false} OneMore(p: int, b: seq<BusRow>, r: BusRow)
    requires p > 0
    ensures BusHops(p, b + [r]) == BusHops(p, b) + [BusHop(p, r)] && AllSends(p, b + [r]) == AllSends(p, b) + RowSends(p, r)
  {
    hide BusHop, RowSends;
    assert (b + [r])[..|b|] == b;
  }

  lemma {:induction false} StepExtends(s: VmState, s': VmState, i: Instruction)
    requires Steps(s, s', i)
    ensures Fits(s, i) && s.pc + 3 < |s.program| && DecodeInstruction(WordAt(s.program, s.pc)) == Some(i)
    ensures s'.program == s.program && s'.timestamp == s.timestamp + Ticks(i)
    ensures s'.trace == s.trace + [StepOf(s, WordAt(s.program, s.pc), i)]
    ensures Ops(s') == Ops(s) + ToOps(OperationsOf(i, LastRegisters(s.trace), s.pc, s.timestamp))
  {
    LogAppended(s.trace, StepOf(s, WordAt(s.program, s.pc), i));
    hide DecodeInstruction, WordAt, NextPc, RegistersAfter, OperationsOf, ToOps;
  }

  /** One step of the machine adds one row. */
  lemma {:induction false} RowsExtended(p: int, b: seq<BusRow>, s: VmState, s': VmState, i: Instruction)
    requires LargePrime(p) && Steps(s, s', i) && s'.timestamp < p && EntryTime(s.trace, |s.trace|) == s.timestamp && RunRowsAre(p, b, s)
    ensures Fits(s, i) && RunRowsAre(p, b + [MachineBusRow(s, i)], s')
  {
    assert p > 0;
    StepExtends(s, s', i);
    hide *;
    var w, r := WordAt(s.program, s.pc), MachineBusRow(s, i);
    OneMore(p, b, r);
    RowHopIs(p, s, w, i);
    HopsExtended(p, s.trace, StepOf(s, w, i));
    LiveAppend(AllSends(p, b), RowSends(p, r));
    RowLives(p, s, i);
    TuplesAppend(Ops(s), ToOps(OperationsOf(i, LastRegisters(s.trace), s.pc, s.timestamp)));
    MachineRowStands(p, s, w, i);
    RowsAreFrom(p, b, r, s, s', StepOf(s, w, i));
  }

  lemma {:induction false} RowsAreFrom(p: int, b: seq<BusRow>, r: BusRow, s: VmState, s': VmState, step: ExecutionStep)
    requires p > 0 && RunRowsAre(p, b, s) && s'.program == s.program && s'.trace == s.trace + [step] && RowStands(s.program, step, r)
    requires BusHops(p, b + [r]) == HopsOf(p, s'.trace) && Live(AllSends(p, b + [r])) == OpTuples(Ops(s'))
    ensures RunRowsAre(p, b + [r], s')
  {
    hide BusHops, HopsOf, Live, AllSends, OpTuples, Ops, RowStands;
  }

  /** The rows of a run. */
  lemma {:induction false} RunMakesRows(p: int, program: seq<byte>, n: nat)
    requires LargePrime(p) && Execute(program, n).Stepped? && Execute(program, n).state.timestamp < p
    ensures RunRowsAre(p, MachineBusRows(program, n), Execute(program, n).state)
  {
    hide *;
    LargeIsPrime(p);
    if n == 0 {
      NoBusRows(p, program);
    } else {
      var s, s', i := LastSteps(program, n);
      StepExtends(s, s', i);
      RunMakesRows(p, program, n - 1);
      EntryTimeIsTimestamp(program, n - 1);
      RowsExtended(p, MachineBusRows(program, n - 1), s, s', i);
      LastBusRow(program, n, s, i);
    }
  }

  lemma {:induction false} NoBusRows(p: int, program: seq<byte>)
    requires p > 0
    ensures Execute(program, 0) == Stepped(InitialState(program)) && RunRowsAre(p, MachineBusRows(program, 0), InitialState(program))
  {
  }

  lemma {:induction false} LastBusRow(program: seq<byte>, n: nat, s: VmState, i: Instruction)
    requires n > 0 && Execute(program, n).Stepped? && Execute(program, n - 1) == Stepped(s)
    requires s.pc + 3 < |s.program| && DecodeInstruction(WordAt(s.program, s.pc)) == Some(i) && Fits(s, i)
    ensures MachineBusRows(program, n) == MachineBusRows(program, n - 1) + [MachineBusRow(s, i)]
  {
    hide MachineBusRow, DecodeInstruction, WordAt, Fits;
  }

  // The buses.

  /** The first n entries agree where they are live, and no later one is. */
  ghost predicate Agree<T(!new)>(sends: seq<Entry<T>>, receives: seq<Entry<T>>, n: nat) {
    && n <= |sends| && n <= |receives|
    && (forall k :: 0 <= k < n ==> sends[k].multiplicity == receives[k].multiplicity && IsBit(sends[k].multiplicity))
    && (forall k :: 0 <= k < n && sends[k].multiplicity == 1 ==> sends[k].tuple == receives[k].tuple)
    && (forall k :: n <= k < |sends| ==> sends[k].multiplicity == 0) && forall k :: n <= k < |receives| ==> receives[k].multiplicity == 0
  }

  lemma {:induction false} AgreeLive<T(!new)>(sends: seq<Entry<T>>, receives: seq<Entry<T>>, n: nat, k: nat)
    requires Agree(sends, receives, n) && k <= n
    ensures Live(sends[..k]) == Live(receives[..k])
  {
    if k > 0 {
      AgreeLive(sends, receives, n, k - 1);
      hide Live;
      LiveNext(sends, k - 1);
      LiveNext(receives, k - 1);
    }
  }

  lemma {:induction false} AgreeBalances<T(!new)>(p: int, sends: seq<Entry<T>>, receives: seq<Entry<T>>, n: nat)
    requires p > 0 && Agree(sends, receives, n)
    ensures Balanced(p, sends, receives)
  {
    AgreeLive(sends, receives, n, n);
    LivePrefix(sends, n);
    LivePrefix(receives, n);
    hide Live, Balanced;
    EqualBalances(p, sends, receives);
  }

  predicate OffersNothing(r: DecodeColumns) {
    StandardReceive(r).multiplicity == 0 && UpperReceive(r).multiplicity == 0 && JumpReceive(r).multiplicity == 0
  }

  lemma {:induction false} PaddingOffersNothing(trace: seq<ExecutionStep>, k: nat)
    requires |trace| <= k && |trace| > 0
    ensures k < |DecodeMatrix(trace)| ==> OffersNothing(DecodeMatrix(trace)[k])
  {
    hide PaddedHeight, FillDecode, StandardGate, UpperGate, Field4, JalForm;
  }

  lemma {:induction false} RealDecodeRows(trace: seq<ExecutionStep>)
    requires |trace| > 0
    ensures |trace| <= |DecodeMatrix(trace)|
    ensures forall k :: 0 <= k < |trace| ==> DecodeMatrix(trace)[k] == FillDecode(trace[k].pc, trace[k].instructionWord)
  {
    hide FillDecode, PaddedHeight;
  }

  ghost predicate Idle(rows: seq<BusRow>) {
    forall k :: 0 <= k < |rows| ==> rows[k].isDummy == 0
  }

  /** The three decode buses of a run balance, padding rows of both sides included. */
  lemma {:induction false} RunDecodes(p: int, program: seq<byte>, trace: seq<ExecutionStep>, b: seq<BusRow>, idle: seq<BusRow>)
    requires p > 0 && |b| == |trace| > 0 && (forall k :: 0 <= k < |b| ==> RowStands(program, trace[k], b[k])) && Idle(idle)
    ensures var rows, decode := b + idle, DecodeMatrix(trace);
            && Balanced(p, StandardSends(rows), StandardReceives(decode)) && Balanced(p, UpperSends(rows), UpperReceives(decode))
            && Balanced(p, JumpSends(rows), JumpReceives(decode))
  {
    hide *;
    var rows, decode := b + idle, DecodeMatrix(trace);
    RealDecodeRows(trace);
    forall k | |b| <= k < |decode| ensures OffersNothing(decode[k]) {
      PaddingOffersNothing(trace, k);
    }
    forall k | 0 <= k < |b| ensures OffersRow(decode[k], b[k]) && b[k].isDummy == 1 {
      StandsOffers(program, trace[k], b[k]);
    }
    OffersAgree(b, idle, decode);
    AgreeBalances(p, StandardSends(rows), StandardReceives(decode), |b|);
    AgreeBalances(p, UpperSends(rows), UpperReceives(decode), |b|);
    AgreeBalances(p, JumpSends(rows), JumpReceives(decode), |b|);
  }

  lemma {:induction false} StandsOffers(program: seq<byte>, step: ExecutionStep, r: BusRow)
    requires RowStands(program, step, r)
    ensures OffersRow(FillDecode(step.pc, step.instructionWord), r) && r.isDummy == 1
  {
  }

  lemma {:induction false} OffersAgree(b: seq<BusRow>, idle: seq<BusRow>, decode: seq<DecodeColumns>)
    requires |b| <= |decode| && Idle(idle)
    requires forall k :: 0 <= k < |b| ==> OffersRow(decode[k], b[k]) && b[k].isDummy == 1
    requires forall k :: |b| <= k < |decode| ==> OffersNothing(decode[k])
    ensures var rows := b + idle;
            && Agree(StandardSends(rows), StandardReceives(decode), |b|) && Agree(UpperSends(rows), UpperReceives(decode), |b|)
            && Agree(JumpSends(rows), JumpReceives(decode), |b|)
  {
    hide StandardReceive, UpperReceive, JumpReceive, IsStandardId, IsUpperId, DecodeTupleOf, UpperTupleOf;
  }

  lemma {:induction false} IdleSends(p: int, b: seq<BusRow>, idle: seq<BusRow>)
    requires p > 0 && Idle(idle)
    ensures Live(AllSends(p, b + idle)) == Live(AllSends(p, b)) && BusHops(p, b + idle) == BusHops(p, b) + BusHops(p, idle)
    ensures forall k :: 0 <= k < |BusHops(p, idle)| ==> BusHops(p, idle)[k].isDummy == 0
  {
    hide Live, RowSends;
    if |idle| == 0 {
      assert b + idle == b;
    } else {
      var n := |idle| - 1;
      IdleSends(p, b, idle[..n]);
      assert (b + idle)[..|b + idle| - 1] == b + idle[..n];
      LiveAppend(AllSends(p, b + idle[..n]), RowSends(p, idle[n]));
      NothingSent(p, idle[n]);
    }
  }

  lemma {:induction false} NothingSent(p: int, r: BusRow)
    requires p > 0 && r.isDummy == 0
    ensures Live(RowSends(p, r)) == []
  {
    hide Later;
    assert forall k :: 0 <= k < |RowSends(p, r)| ==> RowSends(p, r)[k].multiplicity == 0;
    NoneLive(RowSends(p, r));
  }

  lemma {:induction false} TuplesWithout(b: seq<MemoryOp>, i: nat)
    requires i < |b|
    ensures multiset(OpTuples(b)) == multiset{OpTuple(b[i])} + multiset(OpTuples(b[..i] + b[i + 1..]))
  {
    hide OpTuple;
    var rest := b[..i] + b[i + 1..];
    WithoutIndex(OpTuples(b), i);
    assert OpTuples(rest) == OpTuples(b)[..i] + OpTuples(b)[i + 1..];
  }

  lemma {:induction false} TuplesPermute(a: seq<MemoryOp>, b: seq<MemoryOp>)
    requires multiset(a) == multiset(b)
    ensures multiset(OpTuples(a)) == multiset(OpTuples(b))
  {
    hide OpTuple, OpTuples;
    assert |a| == |multiset(a)| == |b|;
    if |a| == 0 {
      assert a == b;
    } else {
      assert a[0] in multiset(b);
      var i :| 0 <= i < |b| && b[i] == a[0];
      var rest := b[..i] + b[i + 1..];
      WithoutIndex(b, i);
      assert a == [a[0]] + a[1..];
      Cancel(a[0], multiset(a[1..]), multiset(rest));
      TuplesPermute(a[1..], rest);
      TuplesWithout(b, i);
      TuplesWithout(a, 0);
      assert a[..0] + a[1..] == a[1..];
    }
  }

  lemma {:induction false} BuiltTuple(s: seq<MemoryOp>, i: nat)
    requires i < |s| && s[i].memoryType == Register
    ensures BuiltRow(s, i).isPadding == 0 && TupleOf(BuiltRow(s, i)) == OpTuple(s[i])
  {
    hide ToLimbs, PaddedHeight;
  }

  /** The real rows of the built memory table are the sorted accesses. */
  lemma {:induction false} BuiltTuples(s: seq<MemoryOp>)
    requires AllRegisters(s)
    ensures RealTuples(Matrix(s)) == OpTuples(s)
  {
    var rows := Matrix(s);
    forall i | 0 <= i < |s| ensures rows[i].isPadding == 0 && TupleOf(rows[i]) == OpTuple(s[i]) {
      BuiltTuple(s, i);
    }
    assert |s| < |rows| ==> rows[|s|].isPadding == 1;
    hide BuiltRow, TupleOf, OpTuple, PaddedHeight;
    RealRowsOf(rows, |s|);
  }

  /** The memory bus of a run balances with the memory table built from its log. */
  lemma {:induction false} RunMemoryBus(p: int, b: seq<BusRow>, idle: seq<BusRow>, ops: seq<MemoryOp>, sorted: seq<MemoryOp>)
    requires LargePrime(p) && Live(AllSends(p, b)) == OpTuples(ops) && Idle(idle) && AllRegisters(sorted) && multiset(sorted) == multiset(ops)
    requires RowSelectors(b + idle) && 3 * |b + idle| < p
    requires MemoryResidues(p, Matrix(sorted)) && MemoryEval(p, Matrix(sorted)) && |Matrix(sorted)| < p
    ensures MemoryBus(p, b + idle, Matrix(sorted))
  {
    hide *;
    LargeIsPrime(p);
    IdleSends(p, b, idle);
    BuiltTuples(sorted);
    TuplesPermute(sorted, ops);
    MemoryBusMoves(p, b + idle, Matrix(sorted));
  }

  /** LUI, AUIPC and JAL rows of a run stand where the program holds what their decode row read. */
  lemma {:induction false} RunInPlace(p: int, program: seq<byte>, b: seq<BusRow>, idle: seq<BusRow>, decode: seq<DecodeColumns>,
                                      rom: seq<ProgramColumns>)
    requires LargePrime(p) && DecodeBuses(p, program, b + idle, decode, rom) && RowSelectors(b + idle) && |b + idle| < p && Idle(idle)
    requires forall k :: 0 <= k < |b| ==> Placed(program, b[k])
    ensures UpperRowsInPlace(p, program, b + idle, decode)
  {
    var rows := b + idle;
    hide LargePrime, DecodeBuses, RowSelectors, Placed, InPlace, IsStandardId;
    forall k | 0 <= k < |rows| && rows[k].isDummy == 1 && !IsStandardId(rows[k].id)
      ensures InPlace(p, program, decode, Value(rows[k].pc), UpperTupleOf(rows[k]))
    {
      UpperPlacedIff(p, program, rows, decode, rom, k);
    }
  }
}
