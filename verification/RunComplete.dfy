/**
 * Execution completeness. The tables trace generation makes of a run are accepted on every bus and
 * meet every condition of execution soundness.
 */
module RunComplete {
  import opened Words
  import opened PrimeField
  import opened Rv32
  import opened Vm
  import opened OfflineMemory
  import opened VmLog
  import opened U32Ops
  import opened Encoding
  import opened Heights
  import opened Bus
  import opened TraceBus
  import opened Decode
  import opened ProgramRom
  import opened ProgramFetch
  import opened DecodeBus
  import opened RowBuses
  import opened RunRows
  import opened Shifts
  import opened Subtract
  import opened JalAir
  import opened RTypeTrace
  import opened JalTrace
  import opened Lookups
  import opened Multiplicities
  import opened U32LessThan
  import opened TimestampLessThan
  import opened MemoryAir
  import opened MemoryTimes
  import opened MemoryTrace
  import opened MemoryBuses
  import opened ByteCounts
  import opened MemoryComplete
  import opened EndToEnd
  import opened InstructionRows
  import opened TableRows
  import opened RunBuses
  import opened RunTables

  /** No JALR names register 0: its row would write pc + 4 where the machine logs 0. */
  ghost predicate NoSilentJalr(trace: seq<ExecutionStep>) {
    forall k :: 0 <= k < |trace| ==> !(trace[k].instruction.Jalr? && trace[k].instruction.rd == 0)
  }

  /** The runs a proof can be made of; what else the tables need is said of the tables. */
  ghost predicate Provable(p: int, program: seq<byte>, n: nat) {
    && LargePrime(p) && Execute(program, n).Stepped? && |program| <= MAX_PROGRAM
    && NoSilentJalr(Execute(program, n).state.trace) && Execute(program, n).state.timestamp < p
  }

  /** The instruction rows of a run, in the order of its steps. */
  ghost function RowsOfTrace(p: int, trace: seq<ExecutionStep>): seq<TableRow>
    requires LargePrime(p)
  {
    seq(|trace|, k requires 0 <= k < |trace| => TableRowOf(p, trace[k], EntryTime(trace, k)))
  }

  // The rows.

  /** Rows that meet their constraints, show the given bus columns and look up what is counted for the trace. */
  ghost predicate RowsMade(p: int, rows: seq<TableRow>, trace: seq<ExecutionStep>, b: seq<BusRow>)
    requires p > 0
  {
    && |rows| == |trace| && BusRowsOf(rows) == b
    && (forall k :: 0 <= k < |rows| ==> Constrained(p, rows[k]) && OpenColumnsRight(rows[k]))
    && Live(AllBytes(rows)) == Expand(AllSent(trace))
    && Live(AllLeft(rows)) == AllShiftSends(trace, true) && Live(AllRight(rows)) == AllShiftSends(trace, false)
  }

  lemma {:induction false} GatedLive<T>(tuples: seq<T>)
    ensures Live(Gated(tuples, 1)) == tuples && Live(Gated(tuples, 0)) == []
  {
    OnesAreLive(tuples);
    NoneLive(Gated(tuples, 0));
  }

  /** One more row looks up its own tuples when it is live, and none when it is not. */
  lemma {:induction false} LookupsNext(rows: seq<TableRow>, t: TableRow)
    requires IsBit(BusRowOf(t).isDummy)
    ensures var on := BusRowOf(t).isDummy == 1;
            && Live(AllBytes(rows + [t])) == Live(AllBytes(rows)) + (if on then BytesOf(t) else [])
            && Live(AllLeft(rows + [t])) == Live(AllLeft(rows)) + (if on then LeftOf(t) else [])
            && Live(AllRight(rows + [t])) == Live(AllRight(rows)) + (if on then RightOf(t) else [])
    ensures BusRowsOf(rows + [t]) == BusRowsOf(rows) + [BusRowOf(t)]
  {
    hide BytesOf, LeftOf, RightOf, BusRowOf, Live, Gated;
    assert (rows + [t])[..|rows|] == rows;
    LiveAppend(AllBytes(rows), RowBytes(t));
    LiveAppend(AllLeft(rows), RowLeft(t));
    LiveAppend(AllRight(rows), RowRight(t));
    GatedLive(BytesOf(t));
    GatedLive(LeftOf(t));
    GatedLive(RightOf(t));
  }

  lemma {:induction false} SendsNext(trace: seq<ExecutionStep>, step: ExecutionStep)
    ensures Expand(AllSent(trace + [step])) == Expand(AllSent(trace)) + Expand(Sent(step))
    ensures AllShiftSends(trace + [step], true) == AllShiftSends(trace, true) + ShiftSends(step, true)
    ensures AllShiftSends(trace + [step], false) == AllShiftSends(trace, false) + ShiftSends(step, false)
  {
    hide Expand, Sent, ShiftSends;
    assert (trace + [step])[..|trace|] == trace;
    ExpandAppend(AllSent(trace), Sent(step));
  }

  lemma {:induction false} TraceNext(p: int, trace: seq<ExecutionStep>, step: ExecutionStep)
    requires LargePrime(p)
    ensures RowsOfTrace(p, trace + [step]) == RowsOfTrace(p, trace) + [TableRowOf(p, step, EntryTime(trace, |trace|))]
  {
    var more := trace + [step];
    assert RowsOfTrace(p, more) == RowsOfTrace(p, more)[..|trace|] + [RowsOfTrace(p, more)[|trace|]];
    hide TableRowOf, EntryTime, LargePrime;
    EntryTimePrefix(trace, step, |trace|);
    forall k | 0 <= k < |trace| ensures RowsOfTrace(p, more)[k] == RowsOfTrace(p, trace)[k] {
      EntryTimePrefix(trace, step, k);
    }
  }

  lemma {:induction false} MadeParts(p: int, t: TableRow, s: VmState, w: word, i: Instruction)
    requires p > 0 && Fits(s, i) && Made(p, t, s, w, i)
    ensures var step := StepOf(s, w, i);
            && Constrained(p, t) && OpenColumnsRight(t) && BusRowOf(t) == MachineBusRow(s, i) && BusRowOf(t).isDummy == 1
            && BytesOf(t) == Expand(Sent(step)) && LeftOf(t) == ShiftSends(step, true) && RightOf(t) == ShiftSends(step, false)
  {
    hide Constrained, OpenColumnsRight, BusRowOf, StepOf, BytesOf, LeftOf, RightOf, Expand, Sent, ShiftSends, ToLimbs, ResultIn, NextPc,
         LastField, LowField, Id;
  }

  lemma {:induction false} RowsMore(p: int, rows: seq<TableRow>, t: TableRow, trace: seq<ExecutionStep>, step: ExecutionStep, b: seq<BusRow>)
    requires p > 0 && RowsMade(p, rows, trace, b) && Constrained(p, t) && OpenColumnsRight(t) && BusRowOf(t).isDummy == 1
    requires BytesOf(t) == Expand(Sent(step)) && LeftOf(t) == ShiftSends(step, true) && RightOf(t) == ShiftSends(step, false)
    ensures RowsMade(p, rows + [t], trace + [step], b + [BusRowOf(t)])
  {
    hide Constrained, OpenColumnsRight, BusRowOf, BytesOf, LeftOf, RightOf, Expand, Sent, ShiftSends, AllSent, AllShiftSends, Live,
         AllBytes, AllLeft, AllRight, BusRowsOf;
    forall k | 0 <= k < |rows + [t]| ensures Constrained(p, (rows + [t])[k]) && OpenColumnsRight((rows + [t])[k]) {
    }
    LookupsNext(rows, t);
    SendsNext(trace, step);
  }

  lemma {:induction false} NoRows(p: int, program: seq<byte>)
    requires LargePrime(p)
    ensures Execute(program, 0) == Stepped(InitialState(program))
    ensures RowsMade(p, RowsOfTrace(p, InitialState(program).trace), InitialState(program).trace, MachineBusRows(program, 0))
  {
    hide IsPrime;
  }

  lemma {:induction false} ProvableBefore(p: int, program: seq<byte>, n: nat, s: VmState, s': VmState, i: Instruction)
    requires Provable(p, program, n) && n > 0 && Execute(program, n - 1) == Stepped(s) && Execute(program, n) == Stepped(s')
    requires Steps(s, s', i) && s'.trace == s.trace + [StepOf(s, WordAt(s.program, s.pc), i)]
    ensures Provable(p, program, n - 1) && s.program == program && s.pc + 4 < TWO32 && s.timestamp < p && !(i.Jalr? && i.rd == 0)
  {
    hide *;
    SameProgram(program, n - 1);
    StepExtends(s, s', i);
    StepSays(s, WordAt(s.program, s.pc), i);
    Silences(p, program, n, s');
    SilentBefore(s.trace, StepOf(s, WordAt(s.program, s.pc), i));
    ProvableFrom(p, program, n - 1, s);
  }

  lemma {:induction false} Silences(p: int, program: seq<byte>, n: nat, s: VmState)
    requires Provable(p, program, n) && Execute(program, n) == Stepped(s)
    ensures LargePrime(p) && |program| <= MAX_PROGRAM < TWO32 - 4 && NoSilentJalr(s.trace) && s.timestamp < p
  {
    hide Execute, LargePrime, NoSilentJalr;
  }

  lemma {:induction false} ProvableFrom(p: int, program: seq<byte>, n: nat, s: VmState)
    requires LargePrime(p) && |program| <= MAX_PROGRAM && Execute(program, n) == Stepped(s) && NoSilentJalr(s.trace) && s.timestamp < p
    ensures Provable(p, program, n)
  {
    hide Execute, LargePrime, NoSilentJalr;
  }

  lemma {:induction false} SilentBefore(trace: seq<ExecutionStep>, step: ExecutionStep)
    requires NoSilentJalr(trace + [step])
    ensures NoSilentJalr(trace) && !(step.instruction.Jalr? && step.instruction.rd == 0)
  {
    var more := trace + [step];
    assert more[|trace|] == step;
    forall k | 0 <= k < |trace| ensures trace[k] == more[k] {
    }
  }

  /** The rows of every run are made as their tables need them. */
  lemma {:induction false} RunRowsMade(p: int, program: seq<byte>, n: nat)
    requires Provable(p, program, n) && p > 0
    ensures var trace := Execute(program, n).state.trace; RowsMade(p, RowsOfTrace(p, trace), trace, MachineBusRows(program, n))
  {
    hide *;
    ProvableParts(p, program, n);
    if n == 0 {
      NoRows(p, program);
    } else {
      var s, s', i := LastSteps(program, n);
      var w := WordAt(s.program, s.pc);
      StepExtends(s, s', i);
      ProvableBefore(p, program, n, s, s', i);
      RunRowsMade(p, program, n - 1);
      EntryTimeIsTimestamp(program, n - 1);
      EncodeDecode(w);
      RowMade(p, s, w, i);
      var t, step := TableRowOf(p, StepOf(s, w, i), s.timestamp), StepOf(s, w, i);
      MadeParts(p, t, s, w, i);
      TraceNext(p, s.trace, step);
      RowsMore(p, RowsOfTrace(p, s.trace), t, s.trace, step, MachineBusRows(program, n - 1));
      LastBusRow(program, n, s, i);
    }
  }

  lemma {:induction false} ProvableParts(p: int, program: seq<byte>, n: nat)
    requires Provable(p, program, n)
    ensures LargePrime(p) && p > 2 && p > MIN_FIELD && Execute(program, n).Stepped? && |program| <= MAX_PROGRAM
    ensures |Execute(program, n).state.trace| == n <= PaddedHeight(n) && Execute(program, n).state.timestamp < p
    ensures Execute(program, n).state.program == program
    ensures |RowsOfTrace(p, Execute(program, n).state.trace)| == n
  {
    ExecutionLinks(program, n);
    SameProgram(program, n);
    hide Execute, NoSilentJalr, IsPrime;
  }

  // The lookup buses.

  /** Rows that are not live; they still meet the constraints of their tables. */
  ghost predicate Padding(p: int, rows: seq<TableRow>)
    requires p > 0
  {
    forall k :: 0 <= k < |rows| ==> Constrained(p, rows[k]) && BusRowOf(rows[k]).isDummy == 0
  }

  /** The padding rows of the modelled trace builders are such rows. */
  lemma {:induction false} BuiltPadding(p: int)
    requires LargePrime(p)
    ensures p > 0 && Padding(p, [InSra(SRA_PADDING), InSlt(SLT_PADDING), InSub(SUB_PADDING), InJal(JAL_PADDING)])
  {
    assert p > 1;
    hide Constrained, BusRowOf, LargePrime, SRA_PADDING, SLT_PADDING, SUB_PADDING, JAL_PADDING;
    ShiftPadding(p);
    BorrowPadding(p);
  }

  lemma {:induction false} BorrowPadding(p: int)
    requires p > 1
    ensures Constrained(p, InSlt(SLT_PADDING)) && BusRowOf(InSlt(SLT_PADDING)).isDummy == 0
    ensures Constrained(p, InSub(SUB_PADDING)) && BusRowOf(InSub(SUB_PADDING)).isDummy == 0
  {
    hide SltEval, SubEval, SltResidues, SLT_PADDING, SUB_PADDING;
    SltPaddingAccepted(p);
    SubPaddingAccepted(p);
  }

  lemma {:induction false} ShiftPadding(p: int)
    requires p > 1
    ensures Constrained(p, InSra(SRA_PADDING)) && BusRowOf(InSra(SRA_PADDING)).isDummy == 0
    ensures Constrained(p, InJal(JAL_PADDING)) && BusRowOf(InJal(JAL_PADDING)).isDummy == 0
  {
    hide SraEval, JalEval, SraResidues, JalResidues, SRA_PADDING, JAL_PADDING;
    SraPaddingAccepted(p);
    JalPaddingAccepted(p);
  }

  lemma {:induction false} PaddingIdles(p: int, rows: seq<TableRow>)
    requires p > 0 && Padding(p, rows)
    ensures Idle(BusRowsOf(rows)) && |BusRowsOf(rows)| == |rows|
  {
    hide BusRowOf, Constrained;
  }

  /** Padding rows add nothing live. */
  lemma {:induction false} PaddingLooksUpNothing(rows: seq<TableRow>, padding: seq<TableRow>)
    requires Idle(BusRowsOf(padding))
    ensures Live(AllBytes(rows + padding)) == Live(AllBytes(rows)) && BusRowsOf(rows + padding) == BusRowsOf(rows) + BusRowsOf(padding)
    ensures Live(AllLeft(rows + padding)) == Live(AllLeft(rows)) && Live(AllRight(rows + padding)) == Live(AllRight(rows))
  {
    hide Live, AllBytes, AllLeft, AllRight, BusRowOf;
    if |padding| == 0 {
      assert rows + padding == rows;
    } else {
      var n := |padding| - 1;
      assert BusRowsOf(padding)[..n] == BusRowsOf(padding[..n]) && BusRowsOf(padding)[n] == BusRowOf(padding[n]);
      PaddingLooksUpNothing(rows, padding[..n]);
      assert rows + padding == rows + padding[..n] + [padding[n]];
      LookupsNext(rows + padding[..n], padding[n]);
    }
  }

  /** The multiplicities trace generation stores in the byte and shift tables. */
  function CountersOf(trace: seq<ExecutionStep>, program: seq<byte>): Counters {
    Counters(ByteCounters(trace, program), Counts(AllShiftIndices(trace, true), 2048), Counts(AllShiftIndices(trace, false), 2048))
  }

  /** The rows, and the bytes of the program beside them, look up fewer tuples than the field has elements. */
  ghost predicate LookupsFit(p: int, rows: seq<TableRow>, program: seq<byte>) {
    |AllBytes(rows) + Ones<int>(program)| < p && |AllLeft(rows)| < p && |AllRight(rows)| < p
  }

  lemma {:induction false} BytesBalanceHere(p: int, trace: seq<ExecutionStep>, sends: seq<Entry<int>>, program: seq<byte>)
    requires p > 0 && WellLogged(trace) && Selectors(sends) && |sends + Ones<int>(program)| < p && Live(sends) == Expand(AllSent(trace))
    ensures TableBus(p, sends + Ones<int>(program), ByteTable(), ByteCounters(trace, program)) && Selectors(Ones<int>(program))
  {
    OnesAreLive<int>(program);
    LiveAppend(sends, Ones<int>(program));
    assert Selectors(sends + Ones<int>(program)) by { hide Live; }
    hide Selectors, Ones, Live, TableBus, ByteTable, ByteCounters, Expand, WellLogged;
    BytesBalance(p, trace, program, sends + Ones<int>(program));
  }

  lemma {:induction false} ShiftTables()
    ensures ShiftTable(true) == SllTable() && ShiftTable(false) == SrlTable()
  {
  }

  lemma {:induction false} LookupBusesFrom(p: int, rows: seq<TableRow>, program: seq<byte>, trace: seq<ExecutionStep>)
    requires p > 0 && Selectors(Ones<int>(program))
    requires TableBus(p, AllBytes(rows) + Ones<int>(program), ByteTable(), ByteCounters(trace, program))
    requires TableBus(p, AllLeft(rows), SllTable(), Counts(AllShiftIndices(trace, true), 2048))
    requires TableBus(p, AllRight(rows), SrlTable(), Counts(AllShiftIndices(trace, false), 2048))
    ensures LookupBuses(p, rows, Ones<int>(program), CountersOf(trace, program))
  {
    hide TableBus, AllBytes, AllLeft, AllRight, Ones, Selectors, ByteTable, SllTable, SrlTable, Counts, ByteCounters, AllShiftIndices;
  }

  lemma {:induction false} MadeSends(p: int, rows: seq<TableRow>, trace: seq<ExecutionStep>, b: seq<BusRow>)
    requires p > 0 && RowsMade(p, rows, trace, b)
    ensures |rows| == |trace| && BusRowsOf(rows) == b && Live(AllBytes(rows)) == Expand(AllSent(trace))
    ensures Live(AllLeft(rows)) == AllShiftSends(trace, true) && Live(AllRight(rows)) == AllShiftSends(trace, false)
  {
    hide Constrained, OpenColumnsRight, BusRowOf, Expand, AllSent, AllShiftSends, Live, AllBytes, AllLeft, AllRight;
  }

  lemma {:induction false} FitsParts(p: int, rows: seq<TableRow>, program: seq<byte>)
    requires LookupsFit(p, rows, program)
    ensures |AllBytes(rows) + Ones<int>(program)| < p && |AllLeft(rows)| < p && |AllRight(rows)| < p
  {
  }

  /** The byte and shift lookups of a run, padding included, balance with the stored multiplicities. */
  lemma {:induction false} RunLooksUp(p: int, program: seq<byte>, trace: seq<ExecutionStep>, run: seq<TableRow>, b: seq<BusRow>,
                                      padding: seq<TableRow>)
    requires p > 0 && WellLogged(trace) && RowsMade(p, run, trace, b) && Idle(BusRowsOf(padding))
    requires LookupsFit(p, run + padding, program) && BitSelectors(run + padding)
    ensures LookupBuses(p, run + padding, Ones<int>(program), CountersOf(trace, program))
  {
    hide *;
    var rows := run + padding;
    MadeSends(p, run, trace, b);
    FitsParts(p, rows, program);
    PaddingLooksUpNothing(run, padding);
    TableRows.SendSelectors(rows);
    BytesBalanceHere(p, trace, AllBytes(rows), program);
    ShiftTables();
    ShiftsBalance(p, trace, true, AllLeft(rows));
    ShiftsBalance(p, trace, false, AllRight(rows));
    LookupBusesFrom(p, rows, program, trace);
  }

  // The decode buses.

  lemma {:induction false} TableAccepted(p: int, steps: seq<ExecutionStep>)
    requires LargePrime(p) && |steps| > 0 && AllDecode(steps)
    ensures DecodeTableAccepted(p, DecodeMatrix(steps))
  {
    hide DecodeResidues, DecodeEval, DecodeRowOf, AllDecode, IsPrime;
    forall k | 0 <= k < |DecodeMatrix(steps)|
      ensures DecodeResidues(p, DecodeMatrix(steps)[k]) && DecodeEval(p, DecodeMatrix(steps)[k])
    {
      DecodeRowAccepted(p, steps, k);
    }
  }

  /** No instruction of the run crosses a multiple of 256. */
  ghost predicate Unsplits(trace: seq<ExecutionStep>) {
    forall k :: 0 <= k < |trace| ==> trace[k].pc % 256 <= 252
  }

  lemma {:induction false} RunIsUnsplit(program: seq<byte>, n: nat)
    requires n > 0 && Execute(program, n).Stepped? && |program| <= MAX_PROGRAM && Unsplits(Execute(program, n).state.trace)
    ensures UnsplitRun(program, Execute(program, n).state.trace)
  {
    hide Execute, UnsplitRun, InsideRun;
    RunReadsProgram(program, n);
  }

  lemma {:induction false} RowsStand(p: int, b: seq<BusRow>, s: VmState)
    requires p > 0 && RunRowsAre(p, b, s)
    ensures |b| == |s.trace| && BusHops(p, b) == HopsOf(p, s.trace) && Live(AllSends(p, b)) == OpTuples(Ops(s)) && AllDecode(s.trace)
    ensures forall k :: 0 <= k < |b| ==> RowStands(s.program, s.trace[k], b[k]) && Placed(s.program, b[k]) && AreBytes(b[k].nextPc)
  {
    hide BusHops, HopsOf, Live, AllSends, OpTuples, Ops, DecodeInstruction, Placed, AreBytes, OffersRow, FillDecode;
    forall k | 0 <= k < |s.trace| ensures DecodeInstruction(s.trace[k].instructionWord).Some? {
      assert RowStands(s.program, s.trace[k], b[k]);
    }
  }

  /** The decode and program tables of a run, and its three decode buses. */
  lemma {:induction false} RunDecodeBuses(p: int, program: seq<byte>, n: nat, idle: seq<BusRow>)
    requires Provable(p, program, n) && n > 0 && 8 * n + 16 < p && Idle(idle) && Unsplits(Execute(program, n).state.trace)
    requires p > 0 && RunRowsAre(p, MachineBusRows(program, n), Execute(program, n).state)
    ensures var trace := Execute(program, n).state.trace;
            && |trace| == n <= PaddedHeight(n) && |program| <= MAX_PROGRAM
            && DecodeBuses(p, program, MachineBusRows(program, n) + idle, DecodeMatrix(trace),
                           RomMatrix(program, PcsOf(trace), PaddedHeight(n) - n))
  {
    hide *;
    ProvableParts(p, program, n);
    var trace, b := Execute(program, n).state.trace, MachineBusRows(program, n);
    RowsStand(p, b, Execute(program, n).state);
    RunIsUnsplit(program, n);
    RunCommitsProgram(p, program, trace);
    TableAccepted(p, trace);
    RunDecodes(p, program, trace, b, idle);
    DecodeParts(p, program, b + idle, DecodeMatrix(trace), RomMatrix(program, PcsOf(trace), PaddedHeight(n) - n));
  }

  lemma {:induction false} DecodeParts(p: int, program: seq<byte>, rows: seq<BusRow>, decode: seq<DecodeColumns>, rom: seq<ProgramColumns>)
    requires p > 0 && DecodeTableAccepted(p, decode) && ProgramBus(p, decode, rom) && RomBytes(rom) == program
    requires Balanced(p, StandardSends(rows), StandardReceives(decode)) && Balanced(p, UpperSends(rows), UpperReceives(decode))
    requires Balanced(p, JumpSends(rows), JumpReceives(decode))
    ensures DecodeBuses(p, program, rows, decode, rom)
  {
    hide DecodeTableAccepted, ProgramBus, RomBytes, Balanced;
  }

  // The trace and memory buses.

  lemma {:induction false} RunChains(p: int, program: seq<byte>, n: nat, idle: seq<BusRow>, data: seq<int>)
    requires Provable(p, program, n) && 3 * n < p && p > 2 && Idle(idle)
    requires RunRowsAre(p, MachineBusRows(program, n), Execute(program, n).state)
    requires |data| == 4 * BOUNDARY_COLUMNS && BoundaryPoint(data, 3) == PointOf(p, Execute(program, n).state)
    ensures TraceBusBalances(p, BusHops(p, MachineBusRows(program, n) + idle), data)
  {
    hide *;
    ProvableParts(p, program, n);
    RowsStand(p, MachineBusRows(program, n), Execute(program, n).state);
    IdleSends(p, MachineBusRows(program, n), idle);
    RunBalances(p, program, n, BusHops(p, idle), data);
  }

  lemma {:induction false} MatrixFits(p: int, s: VmState)
    requires p > MIN_FIELD && Faithful(s) && s.timestamp <= TWO24
    ensures |Matrix(SortByKey(Ops(s)))| < p && AllRegisters(SortByKey(Ops(s)))
    ensures multiset(SortByKey(Ops(s))) == multiset(Ops(s))
  {
    var log := Ops(s);
    assert TimesBelow(log, TWO24);
    FewerThanTicks(log, TWO24);
    SortedIsPrepared(log);
    assert |SortByKey(log)| == |multiset(SortByKey(log))| == |multiset(log)| == |log|;
    assert PaddedHeight(|log|) < p;
    hide SortByKey, BuiltRow, PaddedHeight;
  }

  /** A run the machine logs faithfully and the memory table records: x0 computes zeroes, below 2^24 ticks. */
  ghost predicate Recordable(s: VmState) {
    ZeroesOnly(s.trace) && |Ops(s)| > 0 && s.timestamp <= TWO24
  }

  lemma {:induction false} RunComparisons(p: int, program: seq<byte>, n: nat, lt: seq<U32LtColumns>, times: seq<TimestampLtColumns>,
                                          pairs: seq<BytePair>, mults: seq<int>)
    requires LargePrime(p) && Execute(program, n).Stepped? && Recordable(Execute(program, n).state) && 4 * |lt| < p
    requires BuiltTables(p, SortByKey(Ops(Execute(program, n).state)), lt, times, pairs, mults)
    ensures var s := Execute(program, n).state;
            var memory := Matrix(SortByKey(Ops(s)));
            && MemoryResidues(p, memory) && MemoryEval(p, memory) && ComparisonBuses(p, memory, lt, times, pairs, mults)
            && AnswersAscend(memory, times) && |memory| < p && AllRegisters(SortByKey(Ops(s)))
            && multiset(SortByKey(Ops(s))) == multiset(Ops(s)) && RealOps(memory) == SortByKey(Ops(s))
  {
    assert p > MIN_FIELD;
    CleanRunIsFaithful(program, n);
    FaithfulAtEnd(program, n);
    var s := Execute(program, n).state;
    hide Execute, MemoryEval, MemoryResidues, Matrix, SortByKey, BuiltTables, ComparisonsAccepted, AnswersAscend, IsPrime, Faithful,
         FaithfulThroughout, RealOps, AllRegisters, ComparisonBuses;
    RunMemoryComplete(p, program, n, lt, times, pairs, mults);
    MatrixFits(p, s);
    BusesFromComparisons(p, SortByKey(Ops(s)), lt, times, pairs, mults);
  }

  lemma {:induction false} BusesFromComparisons(p: int, s: seq<MemoryOp>, lt: seq<U32LtColumns>, times: seq<TimestampLtColumns>,
                                                pairs: seq<BytePair>, mults: seq<int>)
    requires LargePrime(p) && BuiltTables(p, s, lt, times, pairs, mults) && 4 * |lt| < p
    requires ComparisonsAccepted(p, Matrix(s), lt, times, pairs, mults)
    ensures ComparisonBuses(p, Matrix(s), lt, times, pairs, mults)
  {
    hide Matrix, AddressBus, TimestampBus, TimeTableAccepted, Balanced, AllByteSends, ByteReceives, U32LtEval, U32LtResidues, IsPairTable,
         BuiltTimes, PairsCounted, IsPrime, BuiltLt, AddressEntries, TimestampEntries, Pairs;
  }

  // Everything together.

  /** The tables trace generation makes of a run; padding rows may stand beside its rows. */
  ghost function TablesOfRun(p: int, program: seq<byte>, n: nat, padding: seq<TableRow>, boundaries: seq<int>, lt: seq<U32LtColumns>,
                             times: seq<TimestampLtColumns>, pairs: seq<BytePair>, mults: seq<int>): Tables
    requires Provable(p, program, n) && n > 0
  {
    ProvableParts(p, program, n);
    var s := Execute(program, n).state;
    Tables(RowsOfTrace(p, s.trace) + padding, Ones<int>(program), CountersOf(s.trace, program), DecodeMatrix(s.trace),
           RomMatrix(program, PcsOf(s.trace), PaddedHeight(n) - n), boundaries, Matrix(SortByKey(Ops(s))), lt, times, pairs, mults)
  }

  lemma {:induction false} TablesOfRunParts(p: int, program: seq<byte>, n: nat, padding: seq<TableRow>, boundaries: seq<int>,
                                            lt: seq<U32LtColumns>, times: seq<TimestampLtColumns>, pairs: seq<BytePair>, mults: seq<int>)
    requires Provable(p, program, n) && n > 0
    ensures |Execute(program, n).state.trace| == n <= PaddedHeight(n) && |program| <= MAX_PROGRAM
    ensures var t, s := TablesOfRun(p, program, n, padding, boundaries, lt, times, pairs, mults), Execute(program, n).state;
            && t.rows == RowsOfTrace(p, s.trace) + padding && t.hashed == Ones<int>(program) && t.counters == CountersOf(s.trace, program)
            && t.decode == DecodeMatrix(s.trace) && t.rom == RomMatrix(program, PcsOf(s.trace), PaddedHeight(n) - n)
            && t.boundaries == boundaries && t.memory == Matrix(SortByKey(Ops(s))) && t.lt == lt && t.times == times
            && t.pairs == pairs && t.pairCounts == mults
  {
    ProvableParts(p, program, n);
    hide Execute, Provable, RowsOfTrace, Ones, CountersOf, DecodeMatrix, RomMatrix, Matrix, SortByKey, Ops, PcsOf, PaddedHeight;
  }

  /** The tables have fewer rows and lookups than the field has elements. */
  ghost predicate RunFits(p: int, program: seq<byte>, n: nat, padding: seq<TableRow>, lt: seq<U32LtColumns>)
    requires Provable(p, program, n)
  {
    && 8 * n + 16 < p && 3 * (n + |padding|) < p && 3 * (n + |padding|) <= MAX_TIMESTAMP && 4 * |lt| < p
    && LookupsFit(p, RowsOfTrace(p, Execute(program, n).state.trace) + padding, program)
  }

  lemma {:induction false} RunSizes(p: int, program: seq<byte>, n: nat, padding: seq<TableRow>, lt: seq<U32LtColumns>)
    requires Provable(p, program, n) && RunFits(p, program, n, padding, lt)
    ensures 8 * n + 16 < p && 3 * n < p && 3 * (n + |padding|) < p && 3 * (n + |padding|) <= MAX_TIMESTAMP && 4 * |lt| < p
    ensures LookupsFit(p, RowsOfTrace(p, Execute(program, n).state.trace) + padding, program)
  {
  }

  lemma {:induction false} RowsFromParts(p: int, rows: seq<TableRow>, hashed: seq<Entry<int>>, m: Counters)
    requires p > 0 && LookupBuses(p, rows, hashed, m) && forall k :: 0 <= k < |rows| ==> Constrained(p, rows[k])
    ensures RowsAccepted(p, rows, hashed, m)
  {
    hide LookupBuses, Constrained;
  }

  /** With the padding: constraints, open columns, selectors and next pcs. */
  lemma {:induction false} RowsReady(p: int, run: seq<TableRow>, trace: seq<ExecutionStep>, b: seq<BusRow>, padding: seq<TableRow>)
    requires LargePrime(p) && RowsMade(p, run, trace, b) && Padding(p, padding) && forall k :: 0 <= k < |b| ==> AreBytes(b[k].nextPc)
    ensures var rows := run + padding;
            && (forall k :: 0 <= k < |rows| ==> Constrained(p, rows[k])) && AllOpenColumnsRight(rows)
            && BusRowsOf(rows) == b + BusRowsOf(padding) && ByteNextPcs(BusRowsOf(rows))
            && BitSelectors(rows) && RowSelectors(BusRowsOf(rows))
  {
    var rows := run + padding;
    assert BusRowsOf(rows) == BusRowsOf(run) + BusRowsOf(padding);
    assert forall k :: 0 <= k < |rows| ==> Constrained(p, rows[k]);
    hide Constrained, OpenColumnsRight, BusRowOf, AreBytes, Live, AllBytes, AllLeft, AllRight, Expand, AllSent, AllShiftSends, IsPrime;
    TableRows.AcceptedSelectors(p, rows);
  }

  /**
   * Execution completeness. Take a run of at most 2^24 ticks in which x0 computes zeroes, no JALR names
   * x0 and no instruction crosses a multiple of 256. The tables made of it, with any padding rows
   * their tables accept, are accepted on every bus and meet all four conditions of
   * `AcceptedProofIsTheRun`.
   */
  lemma {:induction false} RunIsProved(p: int, program: seq<byte>, n: nat, padding: seq<TableRow>, boundaries: seq<int>,
                                       lt: seq<U32LtColumns>, times: seq<TimestampLtColumns>, pairs: seq<BytePair>, mults: seq<int>)
    requires Provable(p, program, n) && n > 0 && Unsplits(Execute(program, n).state.trace) && Recordable(Execute(program, n).state)
    requires Padding(p, padding) && RunFits(p, program, n, padding, lt)
    requires |boundaries| == 4 * BOUNDARY_COLUMNS && BoundaryPoint(boundaries, 3) == PointOf(p, Execute(program, n).state)
    requires BuiltTables(p, SortByKey(Ops(Execute(program, n).state)), lt, times, pairs, mults)
    ensures var t := TablesOfRun(p, program, n, padding, boundaries, lt, times, pairs, mults);
            && Accepted(p, program, t) && AllOpenColumnsRight(t.rows) && ByteNextPcs(BusRowsOf(t.rows))
            && UpperRowsInPlace(p, program, BusRowsOf(t.rows), t.decode) && AnswersAscend(t.memory, t.times)
  {
    hide *;
    ProvableParts(p, program, n);
    var s, b, idle := Execute(program, n).state, MachineBusRows(program, n), BusRowsOf(padding);
    var run := RowsOfTrace(p, s.trace);
    RunSizes(p, program, n, padding, lt);
    RunIsLogged(program, n);
    RunMakesRows(p, program, n);
    RowsStand(p, b, s);
    RunRowsMade(p, program, n);
    PaddingIdles(p, padding);
    RowsReady(p, run, s.trace, b, padding);
    RunLooksUp(p, program, s.trace, run, b, padding);
    RunDecodeBuses(p, program, n, idle);
    RunChains(p, program, n, idle, boundaries);
    RunComparisons(p, program, n, lt, times, pairs, mults);
    RunMemoryBus(p, b, idle, Ops(s), SortByKey(Ops(s)));
    RunInPlace(p, program, b, idle, DecodeMatrix(s.trace), RomMatrix(program, PcsOf(s.trace), PaddedHeight(n) - n));
    RowsFromParts(p, run + padding, Ones<int>(program), CountersOf(s.trace, program));
    TablesOfRunParts(p, program, n, padding, boundaries, lt, times, pairs, mults);
    AcceptedFromParts(p, program, TablesOfRun(p, program, n, padding, boundaries, lt, times, pairs, mults));
  }
}
