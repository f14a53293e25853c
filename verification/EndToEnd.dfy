/**
 * From accepted tables to an execution: instruction rows that are right one by one, a balanced
 * trace bus and a checked memory table leave one possibility, the run of the virtual machine.
 */
module EndToEnd {
  import opened Words
  import opened Rv32
  import opened Vm
  import opened OfflineMemory
  import opened VmLog
  import opened TraceBus
  import opened RunRows
  import opened Division

  /** What an accepted instruction row claims: where it ran, what it read, wrote and left the pc at. */
  datatype Row = Row(pc: word, ts: nat, instruction: Instruction, v1: word, v2: word,
                     oldRd: word, newRd: word, nextPc: word)

  /** Timestamps whose operations fit a word; every residue of a 31-bit field is below. */
  const MAX_TIMESTAMP := TWO32 - 3

  /**
   * A right row: the program holds its instruction at its pc, and the values fit the instruction. What
   * the tables establish of this, and on what conditions, is `InstructionRows`: the decode_u and
   * decode_j buses do not place LUI, AUIPC and JAL rows, and a JALR row with rd = 0 writes pc + 4 to
   * register 0 where the machine logs 0, so it is never right.
   */
  predicate RowOk(program: seq<byte>, r: Row) {
    && r.pc + 3 < |program| && r.ts < MAX_TIMESTAMP
    && DecodeInstruction(WordAt(program, r.pc)) == Some(r.instruction)
    && r.newRd == Result(r.instruction, r.pc, r.v1, r.v2)
    && r.nextPc == NextPcFrom(r.instruction, r.pc, r.v1)
    && !(r.instruction.Jalr? && r.instruction.rd == 0)
    && (!IsRType(r.instruction) ==> r.v2 == 0)
    && (IsUType(r.instruction) || r.instruction.Jal? ==> r.v1 == 0)
  }

  ghost predicate RowsOk(program: seq<byte>, rows: seq<Row>) {
    forall i :: 0 <= i < |rows| ==> RowOk(program, rows[i])
  }

  function Access(a: reg, ts: word, read: word, write: word): MemoryOp {
    MemoryOp(Register, a, ts, read, write)
  }

  /** The tuples a row sends on the memory bus. */
  function RowOps(r: Row): seq<MemoryOp>
    requires r.ts < MAX_TIMESTAMP
  {
    var i := r.instruction;
    if IsRType(i) then
      [Access(i.rs1, r.ts, r.v1, r.v1), Access(i.rs2, r.ts + 1, r.v2, r.v2), Access(i.rd, r.ts + 2, r.oldRd, r.newRd)]
    else if IsUType(i) then [Access(i.rd, r.ts, r.oldRd, r.newRd)]
    else if i.Jal? then
      if i.rd == 0 then [] else [Access(i.rd, r.ts, r.oldRd, r.newRd)]
    else [Access(i.rs1, r.ts, r.v1, r.v1), Access(i.rd, r.ts + 1, r.oldRd, r.newRd)]
  }

  function AllOps(rows: seq<Row>): seq<MemoryOp>
    requires forall i :: 0 <= i < |rows| ==> rows[i].ts < MAX_TIMESTAMP
  {
    if |rows| == 0 then [] else AllOps(rows[..|rows| - 1]) + RowOps(rows[|rows| - 1])
  }

  /** The rows lead from (0, 0) to (pc, ts), each starting where the one before it ended. */
  ghost predicate Reaches(rows: seq<Row>, pc: int, ts: int) {
    if |rows| == 0 then pc == 0 && ts == 0
    else
      var r := rows[|rows| - 1];
      r.nextPc == pc && r.ts + Ticks(r.instruction) == ts && Reaches(rows[..|rows| - 1], r.pc, r.ts)
  }

  // One row.

  lemma {:induction false} ReplaysPrefix(log: seq<MemoryOp>, more: seq<MemoryOp>)
    requires Replays(log + more)
    ensures Replays(log)
  {
    forall i | 0 <= i < |log|
      ensures log[i].read == CellAt(log, i, CellOf(log[i]))
    {
      CellAtPrefix(log, more, i, CellOf(log[i]));
      assert (log + more)[i] == log[i];
    }
  }

  /** The access after a replayed log finds the current register. */
  lemma {:induction false} ReadsCurrent(log: seq<MemoryOp>, regs: Registers, o: MemoryOp, more: seq<MemoryOp>)
    requires Replays(log + ([o] + more)) && Leaves(log, regs) && o.memoryType == Register && o.address < 32
    ensures o.read == regs[o.address]
  {
    var k := |log|;
    assert (log + ([o] + more))[k] == o;
    CellAtPrefix(log, [o] + more, k, CellOf(o));
  }

  /** A read leaves the registers in place. */
  lemma {:induction false} LeavesRead(log: seq<MemoryOp>, regs: Registers, a: reg, ts: word, v: word)
    requires Leaves(log, regs) && v == regs[a]
    ensures Leaves(log + [Access(a, ts, v, v)], regs)
  {
    LeavesExtended(log, regs, Access(a, ts, v, v));
    assert regs[a := v] == regs;
  }

  ghost predicate ValuesMatch(r: Row, regs: Registers) {
    r.v1 == Rs1Value(r.instruction, regs) && r.v2 == Rs2Value(r.instruction, regs)
    && (!(r.instruction.Jal? && r.instruction.rd == 0) ==> r.oldRd == regs[r.instruction.rd])
  }

  lemma {:induction false} MatchRType(program: seq<byte>, log: seq<MemoryOp>, regs: Registers, r: Row)
    requires RowOk(program, r) && IsRType(r.instruction) && Leaves(log, regs) && Replays(log + RowOps(r))
    ensures ValuesMatch(r, regs)
  {
    var i, ops := r.instruction, RowOps(r);
    hide Leaves, Replays, RowOk, DecodeInstruction, Result, WordAt, NextPcFrom;
    assert ops == [ops[0]] + ([ops[1]] + [ops[2]]);
    ReadsCurrent(log, regs, ops[0], [ops[1]] + [ops[2]]);
    LeavesRead(log, regs, i.rs1, r.ts, r.v1);
    assert log + ops == (log + [ops[0]]) + ([ops[1]] + [ops[2]]);
    ReadsCurrent(log + [ops[0]], regs, ops[1], [ops[2]]);
    LeavesRead(log + [ops[0]], regs, i.rs2, r.ts + 1, r.v2);
    assert log + ops == (log + [ops[0]] + [ops[1]]) + ([ops[2]] + []);
    ReadsCurrent(log + [ops[0]] + [ops[1]], regs, ops[2], []);
  }

  lemma {:induction false} MatchOneSource(program: seq<byte>, log: seq<MemoryOp>, regs: Registers, r: Row)
    requires RowOk(program, r) && Leaves(log, regs) && Replays(log + RowOps(r))
    requires !IsRType(r.instruction) && !IsUType(r.instruction) && !r.instruction.Jal?
    ensures ValuesMatch(r, regs)
  {
    var i, ops := r.instruction, RowOps(r);
    hide Leaves, Replays, DecodeInstruction, Result, WordAt, NextPcFrom;
    assert ops == [ops[0]] + [ops[1]];
    ReadsCurrent(log, regs, ops[0], [ops[1]]);
    LeavesRead(log, regs, i.rs1, r.ts, r.v1);
    assert log + ops == (log + [ops[0]]) + ([ops[1]] + []);
    ReadsCurrent(log + [ops[0]], regs, ops[1], []);
  }

  lemma {:induction false} MatchNoSource(program: seq<byte>, log: seq<MemoryOp>, regs: Registers, r: Row)
    requires RowOk(program, r) && Leaves(log, regs) && Replays(log + RowOps(r))
    requires IsUType(r.instruction) || r.instruction.Jal?
    ensures ValuesMatch(r, regs)
  {
    var i, ops := r.instruction, RowOps(r);
    hide Leaves, Replays, DecodeInstruction, Result, WordAt, NextPcFrom;
    if !(i.Jal? && i.rd == 0) {
      assert ops == [ops[0]] + [];
      ReadsCurrent(log, regs, ops[0], []);
    }
  }

  /** A row whose accesses extend a replayed log read what the machine would have read. */
  lemma {:induction false} RowMatches(program: seq<byte>, log: seq<MemoryOp>, regs: Registers, r: Row)
    requires RowOk(program, r) && Leaves(log, regs) && Replays(log + RowOps(r))
    ensures ValuesMatch(r, regs)
  {
    hide ValuesMatch, RowOk, Leaves, Replays;
    if IsRType(r.instruction) {
      MatchRType(program, log, regs, r);
    } else if IsUType(r.instruction) || r.instruction.Jal? {
      MatchNoSource(program, log, regs, r);
    } else {
      MatchOneSource(program, log, regs, r);
    }
  }

  /** Then its accesses are the operations the machine logs. */
  lemma {:induction false} RowLogs(program: seq<byte>, regs: Registers, r: Row)
    requires RowOk(program, r) && ValuesMatch(r, regs)
    ensures RowOps(r) == ToOps(OperationsOf(r.instruction, regs, r.pc, r.ts))
  {
    hide DecodeInstruction, Result, WordAt, NextPcFrom;
  }

  // All rows.

  /** The machine after executing the rows. */
  ghost predicate RanTo(program: seq<byte>, rows: seq<Row>, pc: int, ts: int)
    requires RowsOk(program, rows)
  {
    && Execute(program, |rows|).Stepped?
    && var s := Execute(program, |rows|).state;
       s.program == program && s.pc == pc && s.timestamp == ts && Faithful(s) && Ops(s) == AllOps(rows)
  }

  lemma {:induction false} RunsOneMore(program: seq<byte>, s: VmState, r: Row)
    requires RowOk(program, r) && s.program == program && s.pc == r.pc && s.timestamp == r.ts && Faithful(s)
    requires Replays(Ops(s) + RowOps(r))
    ensures Fits(s, r.instruction) && Faithful(StateAfter(s, WordAt(program, r.pc), r.instruction))
    ensures var s' := StateAfter(s, WordAt(program, r.pc), r.instruction);
            StepState(s) == Stepped(s') && s'.pc == r.nextPc && Ops(s') == Ops(s) + RowOps(r)
  {
    var regs, w, i := LastRegisters(s.trace), WordAt(program, r.pc), r.instruction;
    hide DecodeInstruction, Result, WordAt;
    RowMatches(program, Ops(s), regs, r);
    RowLogs(program, regs, r);
    FaithfulStep(s, w, i);
    LogAppended(s.trace, StepOf(s, w, i));
  }

  lemma {:induction false} RowsRun(program: seq<byte>, rows: seq<Row>, pc: int, ts: int)
    requires RowsOk(program, rows) && Reaches(rows, pc, ts) && Replays(AllOps(rows))
    ensures RanTo(program, rows, pc, ts)
  {
    if |rows| > 0 {
      var r, before := rows[|rows| - 1], rows[..|rows| - 1];
      assert RowOk(program, r);
      ReplaysPrefix(AllOps(before), RowOps(r));
      RowsRun(program, before, r.pc, r.ts);
      var s := Execute(program, |before|).state;
      hide Faithful, Ops, StateAfter, RowOk, Replays, StepState, RowOps, WordAt, Fits;
      RunsOneMore(program, s, r);
    } else {
      FaithfulInitially(program);
    }
  }

  // From the buses to the order of the rows.

  /** The trace-bus tuples of a row. */
  function RowHop(p: int, r: Row): Hop
    requires p > 0
  {
    Hop(Point(ToLimbs(r.pc), r.ts), Point(ToLimbs(r.nextPc), Later(p, r.ts, Ticks(r.instruction))), 1)
  }

  function RowHops(p: int, rows: seq<Row>): seq<Hop>
    requires p > 0
  {
    seq(|rows|, i requires 0 <= i < |rows| => RowHop(p, rows[i]))
  }

  lemma {:induction false} RowHopsWithout(p: int, rows: seq<Row>, i: nat)
    requires p > 0 && i < |rows|
    ensures var hops := RowHops(p, rows);
            multiset(hops) == multiset{hops[i]} + multiset(RowHops(p, rows[..i] + rows[i + 1..]))
  {
    hide RowHop;
    var hops := RowHops(p, rows);
    WithoutIndex(hops, i);
    assert RowHops(p, rows[..i] + rows[i + 1..]) == hops[..i] + hops[i + 1..];
  }

  lemma {:induction false} RowHopsFirst(p: int, r: Row, tail: seq<Row>)
    requires p > 0
    ensures RowHops(p, [r] + tail) == [RowHop(p, r)] + RowHops(p, tail)
  {
    hide RowHop;
  }

  /** An order of the hops is an order of the rows. */
  lemma {:induction false} OrderRows(p: int, rows: seq<Row>, order: seq<Hop>) returns (ordered: seq<Row>)
    requires p > 0 && multiset(order) == multiset(RowHops(p, rows))
    ensures multiset(ordered) == multiset(rows) && RowHops(p, ordered) == order
    decreases |rows|
  {
    hide RowHop;
    var hops := RowHops(p, rows);
    assert |order| == |multiset(order)| == |multiset(hops)| == |rows|;
    if |rows| == 0 {
      ordered := [];
    } else {
      assert order[0] in multiset(hops);
      var i :| 0 <= i < |hops| && hops[i] == order[0];
      var rest := rows[..i] + rows[i + 1..];
      RowHopsWithout(p, rows, i);
      WithoutIndex(rows, i);
      hide RowHops;
      WithoutIndex(order, 0);
      assert order[..0] + order[1..] == order[1..];
      Cancel(order[0], multiset(order[1..]), multiset(RowHops(p, rest)));
      var tail := OrderRows(p, rest, order[1..]);
      ordered := [rows[i]] + tail;
      RowHopsFirst(p, rows[i], tail);
    }
  }

  lemma {:induction false} ChainLast(hops: seq<Hop>, start: Point, end: Point)
    requires Chain(hops, start, end) && |hops| > 0
    ensures Chain(hops[..|hops| - 1], start, hops[|hops| - 1].before) && hops[|hops| - 1].after == end
  {
    var n := |hops|;
    if n > 1 {
      ChainLast(hops[1..], hops[0].after, end);
      assert hops[1..][..n - 2] == hops[..n - 1][1..];
    }
  }

  ghost predicate InRange(rows: seq<Row>) {
    forall i :: 0 <= i < |rows| ==> rows[i].ts < MAX_TIMESTAMP
  }

  lemma {:induction false} LaterExact(p: int, ts: int, k: int)
    requires 0 <= ts && 0 <= k && ts + k < p
    ensures Later(p, ts, k) == ts + k
  {
    RemainderUnique(p, 0, ts + k);
  }

  /** The last row of a chain starts at most three ticks per earlier row after the origin. */
  lemma {:induction false} LastStartsBelow(p: int, rows: seq<Row>, end: Point)
    requires p > 0 && |rows| > 0 && AllAdvance(p, RowHops(p, rows)) && 3 * |rows| < p
    requires Chain(RowHops(p, rows), ORIGIN, end)
    ensures rows[|rows| - 1].ts + 3 < p
  {
    var hops := RowHops(p, rows);
    ChainLast(hops, ORIGIN, end);
    hide Chain, Advances, ToLimbs;
    ChainAscends(p, hops[..|hops| - 1], ORIGIN, hops[|hops| - 1].before);
  }

  lemma {:induction false} ChainReaches(p: int, rows: seq<Row>, end: Point) returns (pc: word)
    requires p > 0 && AllAdvance(p, RowHops(p, rows)) && 3 * |rows| < p && Chain(RowHops(p, rows), ORIGIN, end)
    ensures end.pc == ToLimbs(pc) && Reaches(rows, pc, end.ts)
  {
    hide ToLimbs, Later, Advances;
    if |rows| == 0 {
      assert ToLimbs(0) == ORIGIN.pc by {
        ZeroWord();
      }
      pc := 0;
    } else {
      var last, before, hops := rows[|rows| - 1], rows[..|rows| - 1], RowHops(p, rows);
      ChainLast(hops, ORIGIN, end);
      LastStartsBelow(p, rows, end);
      assert RowHops(p, before) == hops[..|hops| - 1];
      hide Chain;
      var from := ChainReaches(p, before, hops[|hops| - 1].before);
      LimbsInjective(from, last.pc);
      LaterExact(p, last.ts, Ticks(last.instruction));
      pc := last.nextPc;
    }
  }

  lemma {:induction false} RowTimes(r: Row, log: seq<MemoryOp>)
    requires r.ts < MAX_TIMESTAMP && TimeOrdered(log) && TimesBelow(log, r.ts)
    ensures TimeOrdered(log + RowOps(r)) && TimesBelow(log + RowOps(r), r.ts + Ticks(r.instruction))
  {
    var ops := RowOps(r);
    forall j | 0 <= j < |ops|
      ensures r.ts <= ops[j].timestamp < r.ts + Ticks(r.instruction)
    {
    }
  }

  lemma {:induction false} OpsTimeOrdered(rows: seq<Row>, pc: int, ts: int)
    requires InRange(rows) && Reaches(rows, pc, ts)
    ensures ts >= 0 && TimeOrdered(AllOps(rows)) && TimesBelow(AllOps(rows), ts)
  {
    if |rows| > 0 {
      var r, before := rows[|rows| - 1], rows[..|rows| - 1];
      OpsTimeOrdered(before, r.pc, r.ts);
      hide RowOps, TimeOrdered, TimesBelow;
      RowTimes(r, AllOps(before));
    }
  }

  lemma {:induction false} SameRows(program: seq<byte>, a: seq<Row>, b: seq<Row>)
    requires RowsOk(program, b) && multiset(a) == multiset(b)
    ensures RowsOk(program, a) && |a| == |b|
  {
    assert |a| == |multiset(a)| && |b| == |multiset(b)|;
    forall i | 0 <= i < |a| ensures RowOk(program, a[i]) {
      assert a[i] in multiset(b);
    }
  }

  lemma {:induction false} RowHopsAdvance(p: int, rows: seq<Row>)
    requires p > 0 && forall i :: 0 <= i < |rows| ==> rows[i].ts < p
    ensures AllAdvance(p, RowHops(p, rows)) && LiveHops(RowHops(p, rows)) == RowHops(p, rows)
  {
    var hops := RowHops(p, rows);
    forall i | 0 <= i < |rows| ensures Advances(p, hops[i]) {
      var ticks := Ticks(rows[i].instruction);
      assert hops[i].after.ts == Later(p, hops[i].before.ts, ticks);
    }
    AllLive(hops);
  }

  lemma {:induction false} AllOpsLast(rows: seq<Row>, r: Row)
    requires InRange(rows) && r.ts < MAX_TIMESTAMP
    ensures InRange(rows + [r]) && multiset(AllOps(rows + [r])) == multiset(AllOps(rows)) + multiset(RowOps(r))
  {
    hide RowOps;
    assert (rows + [r])[..|rows|] == rows;
  }

  lemma {:induction false} AllOpsWithout(rows: seq<Row>, i: nat)
    requires InRange(rows) && i < |rows|
    ensures multiset(AllOps(rows)) == multiset(RowOps(rows[i])) + multiset(AllOps(rows[..i] + rows[i + 1..]))
  {
    hide RowOps;
    var n := |rows| - 1;
    var before, rest := rows[..n], rows[..i] + rows[i + 1..];
    assert rows == before + [rows[n]];
    AllOpsLast(before, rows[n]);
    hide AllOps;
    if i == n {
      assert rest == before;
    } else {
      AllOpsWithout(before, i);
      AllOpsLast(before[..i] + before[i + 1..], rows[n]);
      assert rest == before[..i] + before[i + 1..] + [rows[n]];
    }
  }

  lemma {:induction false} AllOpsPermute(a: seq<Row>, b: seq<Row>)
    requires InRange(a) && InRange(b) && multiset(a) == multiset(b)
    ensures multiset(AllOps(a)) == multiset(AllOps(b))
  {
    hide RowOps;
    assert |a| == |multiset(a)| == |b|;
    if |a| > 0 {
      assert a[0] in multiset(b);
      var i :| 0 <= i < |b| && b[i] == a[0];
      WithoutIndex(b, i);
      assert a == [a[0]] + a[1..];
      Cancel(a[0], multiset(a[1..]), multiset(b[..i] + b[i + 1..]));
      AllOpsPermute(a[1..], b[..i] + b[i + 1..]);
      AllOpsWithout(a, 0);
      assert a[..0] + a[1..] == a[1..];
      AllOpsWithout(b, i);
    }
  }

  /** Rows whose hops lead from the origin to a point can be put in the order of an execution. */
  lemma {:induction false} OrderedExecution(p: int, rows: seq<Row>, end: Point) returns (ordered: seq<Row>, pc: word)
    requires p > 2 && 3 * |rows| < p && forall i :: 0 <= i < |rows| ==> rows[i].ts < p
    requires Conserves(RowHops(p, rows), ORIGIN, end)
    ensures multiset(ordered) == multiset(rows) && end.pc == ToLimbs(pc) && Reaches(ordered, pc, end.ts)
  {
    var hops := RowHops(p, rows);
    RowHopsAdvance(p, rows);
    assert |hops| == |rows|;
    hide RowHop, RowHops, Conserves, Chain, ToLimbs, LiveHops, AllAdvance, Reaches;
    var order := OneChain(p, hops, ORIGIN, end);
    ordered := OrderRows(p, rows, order);
    SubsetAdvances(p, order, hops);
    SameLength(order, hops);
    assert |ordered| == |rows| by {
      SameCount(ordered, rows);
    }
    pc := ChainReaches(p, ordered, end);
  }

  lemma {:induction false} SameCount(a: seq<Row>, b: seq<Row>)
    requires multiset(a) == multiset(b)
    ensures |a| == |b|
  {
    assert |a| == |multiset(a)| && |b| == |multiset(b)|;
  }

  lemma {:induction false} SameRange(a: seq<Row>, b: seq<Row>)
    requires InRange(b) && multiset(a) == multiset(b)
    ensures InRange(a)
  {
    forall i | 0 <= i < |a| ensures a[i].ts < MAX_TIMESTAMP {
      assert a[i] in multiset(b);
    }
  }

  lemma {:induction false} SameLength(order: seq<Hop>, hops: seq<Hop>)
    requires multiset(order) == multiset(hops)
    ensures |order| == |hops|
  {
    assert |order| == |multiset(order)| && |hops| == |multiset(hops)|;
  }
}
