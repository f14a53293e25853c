/** The trace-bus rows of a run: each step's entry time, and the chain its rows form. */
module RunRows {
  import opened Words
  import opened PrimeField
  import opened Rv32
  import opened Vm
  import opened TraceBus
  import opened VmLog
  import opened Division

  /** Ticks the trace builders read off a logged step: one per operation, and one for a silent JAL. */
  function Consumed(step: ExecutionStep): nat {
    if |step.memoryOps| == 0 && step.instruction.Jal? && step.instruction.rd == 0 then 1 else |step.memoryOps|
  }

  /** The running timestamp before step k. */
  function EntryTime(trace: seq<ExecutionStep>, k: nat): nat
    requires k <= |trace|
  {
    if k == 0 then 0 else EntryTime(trace, k - 1) + Consumed(trace[k - 1])
  }

  lemma {:induction false} EntryTimePrefix(trace: seq<ExecutionStep>, step: ExecutionStep, k: nat)
    requires k <= |trace|
    ensures EntryTime(trace + [step], k) == EntryTime(trace, k)
  {
    if k > 0 {
      EntryTimePrefix(trace, step, k - 1);
    }
  }

  /** The step that instruction i leaves in the trace from state s. */
  function StepOf(s: VmState, w: word, i: Instruction): ExecutionStep
    requires Fits(s, i)
  {
    var regs := LastRegisters(s.trace);
    ExecutionStep(s.pc, RegistersAfter(i, regs, s.pc), w, i, OperationsOf(i, regs, s.pc, s.timestamp))
  }

  lemma {:induction false} ConsumedIsTicks(s: VmState, w: word, i: Instruction)
    requires Fits(s, i)
    ensures Consumed(StepOf(s, w, i)) == Ticks(i)
  {
  }

  /** One step of a run, as a relation on its states. */
  ghost predicate Steps(s: VmState, s': VmState, i: Instruction) {
    && Fits(s, i) && s.pc + 3 < |s.program|
    && DecodeInstruction(WordAt(s.program, s.pc)) == Some(i)
    && s' == StateAfter(s, WordAt(s.program, s.pc), i)
  }

  lemma {:induction false} LastSteps(program: seq<byte>, n: nat) returns (s: VmState, s': VmState, i: Instruction)
    requires n > 0 && Execute(program, n).Stepped?
    ensures Execute(program, n - 1) == Stepped(s) && Execute(program, n) == Stepped(s') && Steps(s, s', i)
    ensures s'.trace == s.trace + [StepOf(s, WordAt(s.program, s.pc), i)]
  {
    s, s' := Execute(program, n - 1).state, Execute(program, n).state;
    i := DecodeInstruction(WordAt(s.program, s.pc)).value;
  }

  /** In every run, the running timestamp of the trace builders is the timestamp of the machine. */
  lemma {:induction false} EntryTimeIsTimestamp(program: seq<byte>, n: nat)
    requires Execute(program, n).Stepped?
    ensures var s := Execute(program, n).state; EntryTime(s.trace, |s.trace|) == s.timestamp
  {
    hide *;
    if n == 0 {
      NoTimeYet(program);
    } else {
      var s, s', i := LastSteps(program, n);
      EntryTimeIsTimestamp(program, n - 1);
      EntryTimeNext(s, s', i);
    }
  }

  lemma {:induction false} NoTimeYet(program: seq<byte>)
    ensures Execute(program, 0) == Stepped(InitialState(program))
    ensures EntryTime(InitialState(program).trace, |InitialState(program).trace|) == InitialState(program).timestamp
  {
  }

  lemma {:induction false} EntryTimeNext(s: VmState, s': VmState, i: Instruction)
    requires Steps(s, s', i) && EntryTime(s.trace, |s.trace|) == s.timestamp
    ensures EntryTime(s'.trace, |s'.trace|) == s'.timestamp
  {
    var step := StepOf(s, WordAt(s.program, s.pc), i);
    ConsumedIsTicks(s, WordAt(s.program, s.pc), i);
    EntryTimePrefix(s.trace, step, |s.trace|);
    hide DecodeInstruction, WordAt, Consumed, Fits, RegistersAfter, OperationsOf;
    assert s'.trace == s.trace + [step];
  }

  /** The timestamp a row carries: that of its first operation, or the running one. */
  function RowTime(step: ExecutionStep, entry: nat): nat {
    if |step.memoryOps| > 0 then step.memoryOps[0].timestamp else entry
  }

  function FirstValue(step: ExecutionStep): word {
    if |step.memoryOps| > 0 && step.memoryOps[0].Read? then step.memoryOps[0].value else 0
  }

  /** The trace-bus tuples of the row built for a step. */
  function StepHop(p: int, step: ExecutionStep, entry: nat): Hop
    requires p > 0
  {
    var time := Reduce(p, RowTime(step, entry));
    Hop(Point(ToLimbs(step.pc), time),
        Point(ToLimbs(Wrap(NextPcFrom(step.instruction, step.pc, FirstValue(step)))),
              Later(p, time, Ticks(step.instruction))),
        1)
  }

  function HopsOf(p: int, trace: seq<ExecutionStep>): seq<Hop>
    requires p > 0
  {
    seq(|trace|, k requires 0 <= k < |trace| => StepHop(p, trace[k], EntryTime(trace, k)))
  }

  function PointOf(p: int, s: VmState): Point
    requires p > 0
  {
    Point(ToLimbs(s.pc), Reduce(p, s.timestamp))
  }

  lemma {:induction false} ReduceLater(p: int, x: int, k: int)
    requires p > 0
    ensures Later(p, Reduce(p, x), k) == Reduce(p, x + k)
  {
    var q, r := x / p, x % p;
    SumRemainder(p, q, r, k);
    assert x == q * p + r;
  }

  lemma {:induction false} SumRemainder(p: int, q: int, r: int, k: int)
    requires p > 0
    ensures (q * p + r + k) % p == (r + k) % p
  {
    var q', r' := (r + k) / p, (r + k) % p;
    assert r + k == q' * p + r';
    RemainderUnique(p, q + q', r');
    assert (q + q') * p + r' == q * p + r + k;
  }

  /** The row of a step leads from the state before it to the state after it. */
  lemma {:induction false} HopOfStep(p: int, s: VmState, w: word, i: Instruction)
    requires p > 0 && Fits(s, i)
    ensures StepHop(p, StepOf(s, w, i), s.timestamp) == Hop(PointOf(p, s), PointOf(p, StateAfter(s, w, i)), 1)
  {
    hide ToLimbs, Reduce, Later, Result, RegistersAfter;
    ReduceLater(p, s.timestamp, Ticks(i));
    RowTimeOfStep(s, w, i);
  }

  lemma {:induction false} RowTimeOfStep(s: VmState, w: word, i: Instruction)
    requires Fits(s, i)
    ensures var step, regs := StepOf(s, w, i), LastRegisters(s.trace);
            RowTime(step, s.timestamp) == s.timestamp
            && NextPcFrom(i, s.pc, FirstValue(step)) == NextPc(i, regs, s.pc) < TWO32
  {
    hide Result;
  }

  lemma {:induction false} ChainAppend(hops: seq<Hop>, h: Hop, start: Point, mid: Point)
    requires Chain(hops, start, mid) && h.before == mid
    ensures Chain(hops + [h], start, h.after)
  {
    if |hops| == 0 {
    } else {
      ChainAppend(hops[1..], h, hops[0].after, mid);
      assert (hops + [h])[1..] == hops[1..] + [h];
    }
  }

  lemma {:induction false} HopAt(p: int, trace: seq<ExecutionStep>, step: ExecutionStep, k: nat)
    requires p > 0 && k <= |trace|
    ensures HopsOf(p, trace + [step])[k]
         == if k < |trace| then HopsOf(p, trace)[k] else StepHop(p, step, EntryTime(trace, |trace|))
  {
    hide StepHop, EntryTime;
    EntryTimePrefix(trace, step, k);
  }

  lemma {:induction false} HopsExtended(p: int, trace: seq<ExecutionStep>, step: ExecutionStep)
    requires p > 0
    ensures HopsOf(p, trace + [step]) == HopsOf(p, trace) + [StepHop(p, step, EntryTime(trace, |trace|))]
  {
    var left, right := HopsOf(p, trace + [step]), HopsOf(p, trace) + [StepHop(p, step, EntryTime(trace, |trace|))];
    hide StepHop, EntryTime;
    assert |left| == |right|;
    forall k | 0 <= k <= |trace| ensures left[k] == right[k] {
      HopAt(p, trace, step, k);
    }
  }

  lemma {:induction false} ChainOneMore(p: int, s: VmState, w: word, i: Instruction)
    requires p > 0 && Fits(s, i) && EntryTime(s.trace, |s.trace|) == s.timestamp
    requires Chain(HopsOf(p, s.trace), ORIGIN, PointOf(p, s))
    ensures var s' := StateAfter(s, w, i); Chain(HopsOf(p, s'.trace), ORIGIN, PointOf(p, s'))
  {
    HopOfStep(p, s, w, i);
    HopsExtended(p, s.trace, StepOf(s, w, i));
    hide StepHop, PointOf, HopsOf, Chain;
    ChainAppend(HopsOf(p, s.trace), StepHop(p, StepOf(s, w, i), s.timestamp), ORIGIN, PointOf(p, s));
  }

  lemma {:induction false} ChainInitially(p: int, program: seq<byte>)
    requires p > 0
    ensures var s := InitialState(program); Chain(HopsOf(p, s.trace), ORIGIN, PointOf(p, s))
  {
    assert ToLimbs(0) == [0, 0, 0, 0];
    RemainderUnique(p, 0, 0);
  }

  /** The rows of every run telescope from (0, 0) to the final pc and timestamp of the machine. */
  lemma {:induction false} RunIsChain(p: int, program: seq<byte>, n: nat)
    requires p > 0 && Execute(program, n).Stepped?
    ensures var s := Execute(program, n).state; Chain(HopsOf(p, s.trace), ORIGIN, PointOf(p, s))
  {
    hide HopsOf, PointOf, Chain, StateAfter, StepState, EntryTime, DecodeInstruction, WordAt, Fits;
    if n > 0 {
      var s, s', i := LastSteps(program, n);
      RunIsChain(p, program, n - 1);
      EntryTimeIsTimestamp(program, n - 1);
      ChainOneMore(p, s, WordAt(s.program, s.pc), i);
    } else {
      ChainInitially(p, program);
    }
  }

  lemma {:induction false} AllLive(hops: seq<Hop>)
    requires forall i :: 0 <= i < |hops| ==> hops[i].isDummy == 1
    ensures LiveHops(hops) == hops
  {
    if |hops| > 0 {
      AllLive(hops[1..]);
      assert hops == [hops[0]] + hops[1..];
    }
  }

  lemma {:induction false} PaddingIsNotLive(hops: seq<Hop>, padding: seq<Hop>)
    requires forall i :: 0 <= i < |padding| ==> padding[i].isDummy == 0
    ensures LiveHops(hops + padding) == LiveHops(hops)
  {
    if |hops| > 0 {
      PaddingIsNotLive(hops[1..], padding);
      assert (hops + padding)[1..] == hops[1..] + padding;
    } else if |padding| > 0 {
      PaddingIsNotLive(hops, padding[1..]);
      assert hops + padding == padding && hops + padding[1..] == padding[1..];
    }
  }

  lemma {:induction false} HopsAdvance(p: int, trace: seq<ExecutionStep>)
    requires p > 0
    ensures AllAdvance(p, HopsOf(p, trace))
  {
    forall k | 0 <= k < |trace| ensures Advances(p, HopsOf(p, trace)[k]) {
      var ticks := Ticks(trace[k].instruction);
      var h := HopsOf(p, trace)[k];
      assert h.after.ts == Later(p, h.before.ts, ticks);
    }
  }

  /** The trace bus balances on the rows of every run, padding included, with the built Boundaries. */
  lemma {:induction false} RunBalances(p: int, program: seq<byte>, n: nat, padding: seq<Hop>, data: seq<int>)
    requires Execute(program, n).Stepped? && p > 2 && 3 * n < p
    requires forall i :: 0 <= i < |padding| ==> padding[i].isDummy == 0
    requires |data| == 4 * BOUNDARY_COLUMNS && BoundaryPoint(data, 3) == PointOf(p, Execute(program, n).state)
    ensures TraceBusBalances(p, HopsOf(p, Execute(program, n).state.trace) + padding, data)
  {
    var s := Execute(program, n).state;
    var hops := HopsOf(p, s.trace);
    ExecutionLinks(program, n);
    RunIsChain(p, program, n);
    AllLive(hops);
    PaddingIsNotLive(hops, padding);
    HopsAdvance(p, s.trace);
    hide Execute, PointOf, HopsOf, Chain, LiveHops, AllAdvance, BoundaryPoint;
    assert IsExecution(hops, hops + padding, BoundaryPoint(data, 3));
    assert HopSelectors(hops + padding) by { assert HopSelectors(hops); }
    TraceBusIsOneExecution(p, hops + padding, data);
  }
}
