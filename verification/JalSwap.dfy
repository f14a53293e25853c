/**
 * Two JAL rows that trade places. The decode_j tuple has no pc, so the honest rows of a program with its
 * two jumps exchanged balance every bus with the decode and program tables of the original, and describe
 * an execution the original does not perform.
 */
module JalSwap {
  import opened Words
  import opened PrimeField
  import opened Rv32
  import opened Vm
  import opened OfflineMemory
  import opened VmLog
  import opened U32Ops
  import opened Heights
  import opened Bus
  import opened TraceBus
  import opened ProgramRom
  import opened Decode
  import opened ProgramFetch
  import opened DecodeBus
  import opened RowBuses
  import opened U32LessThan
  import opened TimestampLessThan
  import opened MemoryAir
  import opened MemoryTimes
  import opened MemoryTrace
  import opened ByteCounts
  import opened MemoryComplete
  import opened InstructionRows
  import opened Lookups
  import opened Multiplicities
  import opened RunRows
  import opened TableRows
  import opened RunBuses
  import opened RunComplete
  import opened Jal

  /** jal x1, 8; nop; jal x1, 4 */
  const TWO_JUMPS: seq<byte> := [0xEF, 0x00, 0x80, 0x00, 0x13, 0x00, 0x00, 0x00, 0xEF, 0x00, 0x40, 0x00]

  /** jal x1, 4; jal x1, 8; nop */
  const NEAR_FIRST: seq<byte> := [0xEF, 0x00, 0x40, 0x00, 0xEF, 0x00, 0x80, 0x00, 0x13, 0x00, 0x00, 0x00]

  /** The accesses of the second program. */
  const SWAPPED_LOG: seq<MemoryOp> := [MemoryOp(Register, 1, 0, 0, 4), MemoryOp(Register, 1, 1, 4, 8)]

  // The machine.

  /** The program starts with a jump of a to another of b. */
  ghost predicate JumpsTwice(program: seq<byte>, a: nat, b: nat) {
    && |program| == 12 && a <= 8 && b <= 8
    && DecodeInstruction(WordAt(program, 0)) == Some(Jal(1, a)) && DecodeInstruction(WordAt(program, a)) == Some(Jal(1, b))
  }

  lemma {:induction false} JumpWords()
    ensures WordAt(TWO_JUMPS, 0) == WordAt(NEAR_FIRST, 4) == 0x0080_00EF && WordAt(TWO_JUMPS, 8) == WordAt(NEAR_FIRST, 0) == 0x0040_00EF
    ensures |TWO_JUMPS| == |NEAR_FIRST| == 12
  {
  }

  lemma {:induction false} JumpInstructions()
    ensures DecodeInstruction(0x0080_00EF) == Some(Jal(1, 8)) && DecodeInstruction(0x0040_00EF) == Some(Jal(1, 4))
  {
  }

  lemma {:induction false} BothJump()
    ensures JumpsTwice(TWO_JUMPS, 8, 4) && JumpsTwice(NEAR_FIRST, 4, 8)
  {
    JumpWords();
    JumpInstructions();
    hide WordAt, DecodeInstruction;
  }

  lemma {:induction false} Jump(s: VmState, w: word, imm: nat)
    requires s.pc <= 8 && imm <= 8 && s.timestamp <= 1
    ensures Fits(s, Jal(1, imm))
    ensures var s', step := StateAfter(s, w, Jal(1, imm)), StepOf(s, w, Jal(1, imm));
            && s'.program == s.program && s'.pc == s.pc + imm && s'.timestamp == s.timestamp + 1
            && s'.trace == s.trace + [step] && LastRegisters(s'.trace)[1] == s.pc + 4
            && step.pc == s.pc && step.instruction == Jal(1, imm)
            && step.memoryOps == [Write(Register, 1, s.timestamp, LastRegisters(s.trace)[1], s.pc + 4)]
  {
  }

  /** What its row sends to decode_j. */
  function JumpTuple(imm: int): UpperTuple {
    UpperTuple(21, 1, Rescrambled(imm).0, Rescrambled(imm).1)
  }

  ghost predicate JumpRow(b: BusRow, imm: int) {
    b.id == 21 && b.isDummy == 1 && UpperTupleOf(b) == JumpTuple(imm)
  }

  lemma {:induction false} JumpRowOf(s: VmState, imm: int)
    requires Fits(s, Jal(1, imm))
    ensures JumpRow(MachineBusRow(s, Jal(1, imm)), imm)
  {
    hide ToLimbs, Rescrambled, NextPcFrom, Result;
  }

  lemma {:induction false} StartState(program: seq<byte>)
    ensures var s := InitialState(program);
            s.program == program && s.pc == 0 && s.timestamp == 0 && s.trace == [] && LastRegisters(s.trace)[1] == 0
            && Execute(program, 0) == Stepped(s) && MachineBusRows(program, 0) == []
  {
  }

  /** What a run of two jumps leaves. */
  ghost predicate AfterJumps(s: VmState, a: nat, b: nat) {
    && a <= 8 && s.pc == a + b && s.timestamp == 2 && |s.trace| == 2 && s.trace[0].pc == 0 && s.trace[1].pc == a
    && s.trace[0].instruction == Jal(1, a) && s.trace[1].instruction == Jal(1, b)
    && s.trace[0].memoryOps == [Write(Register, 1, 0, 0, 4)] && s.trace[1].memoryOps == [Write(Register, 1, 1, 4, a + 4)]
  }

  lemma {:induction false} JumpRun(program: seq<byte>, a: nat, b: nat) returns (s: VmState)
    requires JumpsTwice(program, a, b)
    ensures Execute(program, 2) == Stepped(s) && AfterJumps(s, a, b)
    ensures var rows := MachineBusRows(program, 2); |rows| == 2 && JumpRow(rows[0], a) && JumpRow(rows[1], b)
  {
    var s0, w0, w1 := InitialState(program), WordAt(program, 0), WordAt(program, a);
    assert |program| == 12 && a <= 8 && b <= 8 && DecodeInstruction(w0) == Some(Jal(1, a)) && DecodeInstruction(w1) == Some(Jal(1, b));
    hide *;
    StartState(program);
    Jump(s0, w0, a);
    ExecuteMore(program, 0, s0, w0, Jal(1, a));
    LastBusRow(program, 1, s0, Jal(1, a));
    JumpRowOf(s0, a);
    var s1 := StateAfter(s0, w0, Jal(1, a));
    Jump(s1, w1, b);
    ExecuteMore(program, 1, s1, w1, Jal(1, b));
    LastBusRow(program, 2, s1, Jal(1, b));
    JumpRowOf(s1, b);
    s := StateAfter(s1, w1, Jal(1, b));
    TwoSteps(s, StepOf(s0, w0, Jal(1, a)), StepOf(s1, w1, Jal(1, b)), a, b);
  }

  lemma {:induction false} TwoSteps(s: VmState, first: ExecutionStep, second: ExecutionStep, a: nat, b: nat)
    requires s.pc == a + b && s.timestamp == 2 && s.trace == [] + [first] + [second] && a <= 8
    requires first.pc == 0 && first.instruction == Jal(1, a) && first.memoryOps == [Write(Register, 1, 0, 0, 4)]
    requires second.pc == a && second.instruction == Jal(1, b) && second.memoryOps == [Write(Register, 1, 1, 4, a + 4)]
    ensures AfterJumps(s, a, b)
  {
  }

  lemma {:induction false} JumpOps(s: VmState, a: nat, b: nat)
    requires AfterJumps(s, a, b)
    ensures Ops(s) == [MemoryOp(Register, 1, 0, 0, 4), MemoryOp(Register, 1, 1, 4, a + 4)]
  {
    assert s.trace[..1][..0] == [];
    assert Log(s.trace[..1]) == [Write(Register, 1, 0, 0, 4)];
    assert Log(s.trace) == [Write(Register, 1, 0, 0, 4), Write(Register, 1, 1, 4, a + 4)];
  }

  lemma {:induction false} SwappedSorts()
    ensures SortByKey(SWAPPED_LOG) == SWAPPED_LOG && |SWAPPED_LOG| == 2
  {
    var one := SWAPPED_LOG[..1];
    assert one[..0] == [] && SortByKey(one) == [SWAPPED_LOG[0]];
    assert !KeyLess(SWAPPED_LOG[1], SWAPPED_LOG[0]);
    assert [SWAPPED_LOG[0]][1..] == [];
  }

  lemma {:induction false} LogsDiffer()
    ensures multiset([MemoryOp(Register, 1, 0, 0, 4), MemoryOp(Register, 1, 1, 4, 12)]) != multiset(SWAPPED_LOG)
  {
    var o := MemoryOp(Register, 1, 1, 4, 12);
    assert o in multiset([MemoryOp(Register, 1, 0, 0, 4), o]) && o !in multiset(SWAPPED_LOG);
  }

  lemma {:induction false} SwappedRecords()
    ensures RealOps(Matrix(SWAPPED_LOG)) == SWAPPED_LOG
  {
    MatrixRecords(SWAPPED_LOG);
  }

  // The run of the second program has tables.

  lemma {:induction false} JumpTrace(s: VmState, a: nat, b: nat)
    requires AfterJumps(s, a, b)
    ensures NoSilentJalr(s.trace) && Unsplits(s.trace) && ZeroesOnly(s.trace)
  {
    hide ResultAt;
  }

  lemma {:induction false} JumpsProvable(p: int, program: seq<byte>, s: VmState, a: nat, b: nat)
    requires LargePrime(p) && JumpsTwice(program, a, b) && Execute(program, 2) == Stepped(s) && AfterJumps(s, a, b)
    ensures Provable(p, program, 2) && Unsplits(s.trace) && Recordable(s) && p > 64
  {
    JumpTrace(s, a, b);
    JumpOps(s, a, b);
    assert s.timestamp == 2 && |program| == 12;
    hide Execute, IsPrime, Ops, JumpsTwice, AfterJumps, NoSilentJalr, Unsplits, ZeroesOnly;
  }

  lemma {:induction false} BusRowAt(rows: seq<TableRow>)
    ensures |BusRowsOf(rows)| == |rows| && forall k :: 0 <= k < |rows| ==> BusRowsOf(rows)[k] == BusRowOf(rows[k])
  {
  }

  lemma {:induction false} JumpLookups(p: int, rows: seq<TableRow>, s: VmState, a: nat, b: nat, rows': seq<BusRow>)
    requires p > 0 && AfterJumps(s, a, b) && RowsMade(p, rows, s.trace, rows')
    requires |rows'| == 2 && rows'[0].isDummy == 1 && rows'[1].isDummy == 1
    ensures |AllBytes(rows)| == 16 && AllLeft(rows) == [] && AllRight(rows) == []
  {
    hide *;
    MadeSends(p, rows, s.trace, rows');
    SentByJumps(s, a, b);
    BusRowAt(rows);
    LiveSizes(rows);
  }

  lemma {:induction false} SentByJumps(s: VmState, a: nat, b: nat)
    requires AfterJumps(s, a, b)
    ensures |Expand(AllSent(s.trace))| == 16 && AllShiftSends(s.trace, true) == [] && AllShiftSends(s.trace, false) == []
  {
    var first, second := s.trace[0], s.trace[1];
    assert |Sent(first)| == |Sent(second)| == 2 && forall k :: 0 <= k < 2 ==> Sent(first)[k].Whole? && Sent(second)[k].Whole?;
    assert ShiftSends(first, true) == [] && ShiftSends(first, false) == [] && ShiftSends(second, true) == [] && ShiftSends(second, false) == [];
    assert s.trace == [] + [first] + [second];
    hide Sent, ShiftSends, AfterJumps, Expand;
    RunComplete.SendsNext([], first);
    RunComplete.SendsNext([first], second);
    assert [] + [first] == [first];
    ExpandAppend(Sent(first), Sent(second));
    TwoWholes(Sent(first));
    TwoWholes(Sent(second));
  }

  lemma {:induction false} TwoWholes(items: seq<Item>)
    requires |items| == 2 && items[0].Whole? && items[1].Whole?
    ensures |Expand(items)| == 8
  {
    assert |ItemBytes(items[0])| == |ItemBytes(items[1])| == 4;
    hide ItemBytes;
    assert items[..1][..0] == [] && items[..1][0] == items[0];
    assert Expand(items[..1]) == ItemBytes(items[0]);
  }

  /** Where every row is live, everything sent is. */
  lemma {:induction false} LiveSizes(rows: seq<TableRow>)
    requires forall k :: 0 <= k < |rows| ==> BusRowOf(rows[k]).isDummy == 1
    ensures |AllBytes(rows)| == |Live(AllBytes(rows))| && |AllLeft(rows)| == |Live(AllLeft(rows))|
    ensures |AllRight(rows)| == |Live(AllRight(rows))|
  {
    hide BusRowOf, BytesOf, LeftOf, RightOf, Live;
    if |rows| > 0 {
      var n := |rows| - 1;
      LiveSizes(rows[..n]);
      assert rows[..n] + [rows[n]] == rows;
      LookupsNext(rows[..n], rows[n]);
    } else {
      NoneLive(AllBytes(rows));
      NoneLive(AllLeft(rows));
      NoneLive(AllRight(rows));
    }
  }

  lemma {:induction false} FitsFrom(p: int, program: seq<byte>, s: VmState, rows: seq<TableRow>, lt: seq<U32LtColumns>)
    requires Provable(p, program, 2) && Execute(program, 2) == Stepped(s) && rows == RowsOfTrace(p, s.trace) && |program| == 12
    requires p > 64 && 4 * |lt| < p && |AllBytes(rows)| == 16 && AllLeft(rows) == [] && AllRight(rows) == []
    ensures RunFits(p, program, 2, [], lt)
  {
    assert rows + [] == rows;
    assert |Ones<int>(program)| == 12;
    hide Execute, Provable, AllBytes, AllLeft, AllRight, RowsOfTrace, Ones;
  }

  lemma {:induction false} NoPadding(p: int)
    requires p > 0
    ensures Padding(p, [])
  {
  }

  lemma {:induction false} JumpPoint(p: int, s: VmState)
    requires p > 2 && s.pc == 12 && s.timestamp == 2
    ensures PointOf(p, s) == Point([12, 0, 0, 0], 2) && ToLimbs(s.pc) == [12, 0, 0, 0]
  {
  }

  lemma {:induction false} NearFirstFits(p: int, s: VmState, lt: seq<U32LtColumns>)
    requires LargePrime(p) && p > 0 && 4 * |lt| < p
    requires JumpsTwice(NEAR_FIRST, 4, 8) && Execute(NEAR_FIRST, 2) == Stepped(s) && AfterJumps(s, 4, 8)
    requires var rows := MachineBusRows(NEAR_FIRST, 2); |rows| == 2 && JumpRow(rows[0], 4) && JumpRow(rows[1], 8)
    ensures Provable(p, NEAR_FIRST, 2) && RunFits(p, NEAR_FIRST, 2, [], lt) && Unsplits(s.trace) && Recordable(s)
    ensures BusRowsOf(RowsOfTrace(p, s.trace)) == MachineBusRows(NEAR_FIRST, 2)
  {
    assert |NEAR_FIRST| == 12;
    assert MachineBusRows(NEAR_FIRST, 2)[0].isDummy == 1 && MachineBusRows(NEAR_FIRST, 2)[1].isDummy == 1;
    hide *;
    JumpsProvable(p, NEAR_FIRST, s, 4, 8);
    var rows := RowsOfTrace(p, s.trace);
    RunRowsMade(p, NEAR_FIRST, 2);
    MadeSends(p, rows, s.trace, MachineBusRows(NEAR_FIRST, 2));
    JumpLookups(p, rows, s, 4, 8, MachineBusRows(NEAR_FIRST, 2));
    FitsFrom(p, NEAR_FIRST, s, rows, lt);
  }

  /** The tables of the run of the second program. */
  lemma {:induction false} NearFirstIsProved(p: int, s: VmState, data: seq<int>, lt: seq<U32LtColumns>, times: seq<TimestampLtColumns>,
                                             pairs: seq<BytePair>, mults: seq<int>) returns (t: Tables)
    requires LargePrime(p) && |data| == 4 * BOUNDARY_COLUMNS && BoundaryPoint(data, 3) == Point([12, 0, 0, 0], 2)
    requires BuiltTables(p, SWAPPED_LOG, lt, times, pairs, mults) && 4 * |lt| < p
    requires JumpsTwice(NEAR_FIRST, 4, 8) && Execute(NEAR_FIRST, 2) == Stepped(s) && AfterJumps(s, 4, 8)
    requires var rows := MachineBusRows(NEAR_FIRST, 2); |rows| == 2 && JumpRow(rows[0], 4) && JumpRow(rows[1], 8)
    ensures p > 0 && Accepted(p, NEAR_FIRST, t) && AllOpenColumnsRight(t.rows) && ByteNextPcs(BusRowsOf(t.rows))
    ensures AnswersAscend(t.memory, t.times) && t.memory == Matrix(SWAPPED_LOG)
    ensures t.boundaries == data && t.hashed == Ones<int>(NEAR_FIRST) && BusRowsOf(t.rows) == MachineBusRows(NEAR_FIRST, 2)
  {
    hide *;
    LargeIsPrime(p);
    NearFirstFits(p, s, lt);
    NearFirstEnds(p, s);
    SwappedSorts();
    NoPadding(p);
    RunIsProved(p, NEAR_FIRST, 2, [], data, lt, times, pairs, mults);
    t := TablesOfRun(p, NEAR_FIRST, 2, [], data, lt, times, pairs, mults);
    TablesOfRunParts(p, NEAR_FIRST, 2, [], data, lt, times, pairs, mults);
    assert RowsOfTrace(p, s.trace) + [] == RowsOfTrace(p, s.trace);
  }

  lemma {:induction false} NearFirstEnds(p: int, s: VmState)
    requires p > 2 && AfterJumps(s, 4, 8)
    ensures Ops(s) == SWAPPED_LOG && PointOf(p, s) == Point([12, 0, 0, 0], 2)
  {
    JumpOps(s, 4, 8);
    JumpPoint(p, s);
    hide Ops, PointOf;
  }

  // The decode buses of the first program.

  lemma {:induction false} TotalTwo<T(!new)>(a: seq<Entry<T>>, t: T)
    requires |a| == 2
    ensures Total(a, t) == (if a[0].tuple == t then a[0].multiplicity else 0) + (if a[1].tuple == t then a[1].multiplicity else 0)
  {
    assert a[1..] == [a[1]] && a[1..][1..] == [];
    assert Total(a[1..], t) == if a[1].tuple == t then a[1].multiplicity else 0;
  }

  /** Two sends balance in either order, and silent sends whatever their tuples. */
  lemma {:induction false} SwapBalances<T(!new)>(p: int, a: seq<Entry<T>>, b: seq<Entry<T>>, receives: seq<Entry<T>>)
    requires p > 0 && |a| == |b| == 2 && Balanced(p, a, receives)
    requires (a[0] == b[1] && a[1] == b[0]) || (forall k :: 0 <= k < 2 ==> a[k].multiplicity == 0 && b[k].multiplicity == 0)
    ensures Balanced(p, b, receives)
  {
    hide Total, Zero;
    forall t ensures Total(a, t) == Total(b, t) {
      TotalTwo(a, t);
      TotalTwo(b, t);
    }
  }

  lemma {:induction false} JumpRowSends(rows: seq<BusRow>, a: int, b: int)
    requires |rows| == 2 && JumpRow(rows[0], a) && JumpRow(rows[1], b)
    ensures |StandardSends(rows)| == |UpperSends(rows)| == |JumpSends(rows)| == 2
    ensures forall k :: 0 <= k < 2 ==> StandardSends(rows)[k].multiplicity == 0 && UpperSends(rows)[k].multiplicity == 0
    ensures JumpSends(rows)[0] == Entry(JumpTuple(a), 1) && JumpSends(rows)[1] == Entry(JumpTuple(b), 1)
    ensures |LiveRows(rows)| == 2
  {
    assert rows[..1] == [rows[0]] && [rows[0]][..0] == [];
    assert LiveRows(rows[..1]) == [rows[0]];
  }

  /** The decode tables of one program answer the rows of the other. */
  lemma {:induction false} RowsSwap(p: int, program: seq<byte>, rows: seq<BusRow>, rows': seq<BusRow>, decode: seq<DecodeColumns>,
                                    rom: seq<ProgramColumns>, a: int, b: int)
    requires p > 0 && DecodeBuses(p, program, rows, decode, rom) && |rows| == |rows'| == 2
    requires JumpRow(rows[0], a) && JumpRow(rows[1], b) && JumpRow(rows'[0], b) && JumpRow(rows'[1], a)
    ensures DecodeBuses(p, program, rows', decode, rom)
  {
    JumpRowSends(rows, a, b);
    JumpRowSends(rows', b, a);
    hide StandardSends, UpperSends, JumpSends, JumpRow, StandardReceives, UpperReceives, JumpReceives, Balanced, DecodesProgram,
         JumpTuple;
    SwapBalances(p, StandardSends(rows), StandardSends(rows'), StandardReceives(decode));
    SwapBalances(p, UpperSends(rows), UpperSends(rows'), UpperReceives(decode));
    SwapBalances(p, JumpSends(rows), JumpSends(rows'), JumpReceives(decode));
  }

  /** The tables of the run of the second program over the decode and program tables of the first. */
  ghost function SwappedTables(t: Tables, trace: seq<ExecutionStep>): Tables
    requires |trace| > 0 && |TWO_JUMPS| <= MAX_PROGRAM
  {
    t.(decode := DecodeMatrix(trace), rom := RomMatrix(TWO_JUMPS, PcsOf(trace), 2))
  }

  lemma {:induction false} Replaced(p: int, t: Tables, trace: seq<ExecutionStep>)
    requires p > 0 && |trace| > 0 && |TWO_JUMPS| <= MAX_PROGRAM && Accepted(p, NEAR_FIRST, t)
    requires DecodeBuses(p, TWO_JUMPS, BusRowsOf(t.rows), DecodeMatrix(trace), RomMatrix(TWO_JUMPS, PcsOf(trace), 2))
    ensures Accepted(p, TWO_JUMPS, SwappedTables(t, trace))
  {
    hide RowsAccepted, DecodeBuses, TraceBusBalances, MemoryResidues, MemoryEval, MemoryBus, ComparisonBuses, DecodeMatrix, RomMatrix;
  }

  lemma {:induction false} HonestDecode(p: int, s: VmState)
    requires LargePrime(p) && JumpsTwice(TWO_JUMPS, 8, 4) && Execute(TWO_JUMPS, 2) == Stepped(s) && AfterJumps(s, 8, 4)
    ensures |s.trace| == 2 && |TWO_JUMPS| <= MAX_PROGRAM && p > 0
    ensures DecodeBuses(p, TWO_JUMPS, MachineBusRows(TWO_JUMPS, 2), DecodeMatrix(s.trace), RomMatrix(TWO_JUMPS, PcsOf(s.trace), 2))
  {
    assert |s.trace| == 2;
    hide *;
    JumpsProvable(p, TWO_JUMPS, s, 8, 4);
    FourHigh();
    ProvableParts(p, TWO_JUMPS, 2);
    RunMakesRows(p, TWO_JUMPS, 2);
    NoneIdle();
    RunDecodeBuses(p, TWO_JUMPS, 2, []);
    assert MachineBusRows(TWO_JUMPS, 2) + [] == MachineBusRows(TWO_JUMPS, 2);
  }

  lemma {:induction false} FourHigh()
    ensures PaddedHeight(2) == 4
  {
  }

  lemma {:induction false} NoneIdle()
    ensures Idle([])
  {
  }

  /**
   * The decode_j bus does not place JAL rows. The tables of the run of `jal x1, 4; jal x1, 8`, with the
   * decode and program tables of the run of `jal x1, 8; nop; jal x1, 4` in the place of its own, are
   * accepted for the second program on every bus and end where its run ends, after a different log:
   * every premise of `AcceptedProofIsTheRun` holds but the one on places.
   */
  lemma {:induction false} JalsCanSwap(p: int, data: seq<int>, lt: seq<U32LtColumns>, times: seq<TimestampLtColumns>,
                                       pairs: seq<BytePair>, mults: seq<int>) returns (s: VmState, t: Tables)
    requires LargePrime(p) && |data| == 4 * BOUNDARY_COLUMNS && BoundaryPoint(data, 3) == Point([12, 0, 0, 0], 2)
    requires BuiltTables(p, SWAPPED_LOG, lt, times, pairs, mults) && 4 * |lt| < p
    ensures Execute(TWO_JUMPS, 2) == Stepped(s) && |s.trace| == 2 && ToLimbs(s.pc) == [12, 0, 0, 0] && s.timestamp == 2
    ensures |TWO_JUMPS| <= MAX_PROGRAM && t.decode == DecodeMatrix(s.trace) && t.rom == RomMatrix(TWO_JUMPS, PcsOf(s.trace), 2)
    ensures t.boundaries == data && t.memory == Matrix(SWAPPED_LOG) && t.hashed == Ones<int>(NEAR_FIRST)
    ensures Accepted(p, TWO_JUMPS, t) && AllOpenColumnsRight(t.rows) && ByteNextPcs(BusRowsOf(t.rows))
    ensures !UpperRowsInPlace(p, TWO_JUMPS, BusRowsOf(t.rows), t.decode) && AnswersAscend(t.memory, t.times)
    ensures multiset(Ops(s)) != multiset(RealOps(t.memory))
  {
    hide *;
    BothJump();
    s := JumpRun(TWO_JUMPS, 8, 4);
    var o := JumpRun(NEAR_FIRST, 4, 8);
    var t0 := NearFirstIsProved(p, o, data, lt, times, pairs, mults);
    HonestDecode(p, s);
    var rows := BusRowsOf(t0.rows);
    RowsSwap(p, TWO_JUMPS, MachineBusRows(TWO_JUMPS, 2), rows, DecodeMatrix(s.trace), RomMatrix(TWO_JUMPS, PcsOf(s.trace), 2), 8, 4);
    JumpRowSends(rows, 4, 8);
    t := SwappedTables(t0, s.trace);
    SwappedParts(t0, s.trace);
    Replaced(p, t0, s.trace);
    JumpOps(s, 8, 4);
    LogsDiffer();
    SwappedRecords();
    EndsAt(p, s);
    if UpperRowsInPlace(p, TWO_JUMPS, BusRowsOf(t.rows), t.decode) {
      AcceptedProofIsTheRun(p, TWO_JUMPS, t);
    }
  }

  lemma {:induction false} SwappedParts(t: Tables, trace: seq<ExecutionStep>)
    requires |trace| > 0 && |TWO_JUMPS| <= MAX_PROGRAM
    ensures var r := SwappedTables(t, trace);
            && r.rows == t.rows && r.boundaries == t.boundaries && r.memory == t.memory && r.hashed == t.hashed && r.times == t.times
            && r.decode == DecodeMatrix(trace) && r.rom == RomMatrix(TWO_JUMPS, PcsOf(trace), 2)
  {
    hide DecodeMatrix, RomMatrix;
  }

  lemma {:induction false} EndsAt(p: int, s: VmState)
    requires LargePrime(p) && AfterJumps(s, 8, 4)
    ensures |s.trace| == 2 && ToLimbs(s.pc) == [12, 0, 0, 0] && s.timestamp == 2
  {
    hide IsPrime;
  }
}
