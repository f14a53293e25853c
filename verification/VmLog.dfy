/** What the operation log of the virtual machine says about its registers, over whole runs. */
module VmLog {
  import opened Words
  import opened Rv32
  import opened Vm
  import opened OfflineMemory

  /** `get_memory_ops` */
  function Log(trace: seq<ExecutionStep>): seq<MemoryOperation> {
    if |trace| == 0 then [] else Log(trace[..|trace| - 1]) + trace[|trace| - 1].memoryOps
  }

  function Ops(s: VmState): seq<MemoryOp> {
    ToOps(Log(s.trace))
  }

  ghost predicate TimesBelow(log: seq<MemoryOp>, ts: nat) {
    forall j :: 0 <= j < |log| ==> log[j].timestamp < ts
  }

  ghost predicate OnlyRegisters(log: seq<MemoryOp>) {
    forall j :: 0 <= j < |log| ==> log[j].memoryType == Register && log[j].address < 32
  }

  /** The cells a log leaves behind are the given registers. */
  ghost predicate Leaves(log: seq<MemoryOp>, regs: Registers) {
    forall a :: 0 <= a < 32 ==> regs[a] == CellAt(log, |log|, (Register, a))
  }

  ghost predicate FaithfulLog(log: seq<MemoryOp>, regs: Registers, ts: nat) {
    OnlyRegisters(log) && TimeOrdered(log) && TimesBelow(log, ts) && Replays(log) && Leaves(log, regs)
  }

  /** The log is time ordered, replays from zero, and ends in the current registers. */
  ghost predicate Faithful(s: VmState) {
    FaithfulLog(Ops(s), LastRegisters(s.trace), s.timestamp)
  }

  /** A jump that logs a write of 0 to register 0 without clearing a non-zero register 0. */
  predicate DropsClear(i: Instruction, regs: Registers) {
    i.Jalr? && i.rd == 0 && regs[0] != 0
  }

  lemma {:induction false} CellAtPrefix(log: seq<MemoryOp>, more: seq<MemoryOp>, n: nat, c: Cell)
    requires n <= |log|
    ensures CellAt(log + more, n, c) == CellAt(log, n, c)
  {
    if n > 0 {
      CellAtPrefix(log, more, n - 1, c);
    }
  }

  lemma {:induction false} ReplaysExtended(log: seq<MemoryOp>, o: MemoryOp)
    requires Replays(log) && o.read == CellAt(log, |log|, CellOf(o))
    ensures Replays(log + [o])
  {
    forall i | 0 <= i < |log + [o]|
      ensures (log + [o])[i].read == CellAt(log + [o], i, CellOf((log + [o])[i]))
    {
      CellAtPrefix(log, [o], i, CellOf((log + [o])[i]));
    }
  }

  lemma {:induction false} TimesExtended(log: seq<MemoryOp>, ts: nat, o: MemoryOp)
    requires TimeOrdered(log) && TimesBelow(log, ts) && ts <= o.timestamp
    ensures TimeOrdered(log + [o]) && TimesBelow(log + [o], o.timestamp + 1)
  {
  }

  lemma {:induction false} LeavesExtended(log: seq<MemoryOp>, regs: Registers, o: MemoryOp)
    requires Leaves(log, regs) && o.memoryType == Register && o.address < 32
    ensures Leaves(log + [o], regs[o.address := o.write])
  {
    forall a | 0 <= a < 32
      ensures regs[o.address := o.write][a] == CellAt(log + [o], |log + [o]|, (Register, a))
    {
      CellAtPrefix(log, [o], |log|, (Register, a));
    }
  }

  /** One faithful operation on a register extends a faithful log. */
  lemma {:induction false} Extend(log: seq<MemoryOp>, regs: Registers, ts: nat, o: MemoryOp)
    requires FaithfulLog(log, regs, ts)
    requires o.memoryType == Register && o.address < 32 && ts <= o.timestamp && o.read == regs[o.address]
    ensures FaithfulLog(log + [o], regs[o.address := o.write], o.timestamp + 1)
  {
    assert o.read == CellAt(log, |log|, (Register, o.address));
    ReplaysExtended(log, o);
    TimesExtended(log, ts, o);
    LeavesExtended(log, regs, o);
  }

  /** A read leaves the registers as they are. */
  lemma {:induction false} ExtendRead(log: seq<MemoryOp>, regs: Registers, ts: nat, a: reg)
    requires FaithfulLog(log, regs, ts) && ts < TWO32
    ensures FaithfulLog(log + [ToOp(Read(Register, a, ts, regs[a]))], regs, ts + 1)
  {
    Extend(log, regs, ts, ToOp(Read(Register, a, ts, regs[a])));
    assert regs[a := regs[a]] == regs;
  }

  lemma {:induction false} ExtendWrite(log: seq<MemoryOp>, regs: Registers, ts: nat, a: reg, v: word)
    requires FaithfulLog(log, regs, ts) && ts < TWO32
    ensures FaithfulLog(log + [ToOp(Write(Register, a, ts, regs[a], v))], regs[a := v], ts + 1)
  {
    Extend(log, regs, ts, ToOp(Write(Register, a, ts, regs[a], v)));
  }

  lemma {:induction false} FaithfulLater(log: seq<MemoryOp>, regs: Registers, ts: nat, later: nat)
    requires FaithfulLog(log, regs, ts) && ts <= later
    ensures FaithfulLog(log, regs, later)
  {
  }

  lemma {:induction false} LogAppended(trace: seq<ExecutionStep>, step: ExecutionStep)
    ensures ToOps(Log(trace + [step])) == ToOps(Log(trace)) + ToOps(step.memoryOps)
  {
    assert (trace + [step])[..|trace|] == trace;
  }

  /** The log and the registers after the operations of one instruction. */
  ghost predicate OperationsFaithful(log: seq<MemoryOp>, regs: Registers, ts: nat, i: Instruction, pc: word)
    requires ts + Ticks(i) < TWO32
  {
    FaithfulLog(log + ToOps(OperationsOf(i, regs, pc, ts)),
                if i.Jal? && i.rd == 0 then regs else regs[i.rd := ResultIn(i, regs, pc)], ts + Ticks(i))
  }

  lemma {:induction false} ThreeOperations(log: seq<MemoryOp>, ops: seq<MemoryOperation>, o1: MemoryOp, o2: MemoryOp, o3: MemoryOp)
    requires |ops| == 3 && ToOp(ops[0]) == o1 && ToOp(ops[1]) == o2 && ToOp(ops[2]) == o3
    ensures log + ToOps(ops) == log + [o1] + [o2] + [o3]
  {
  }

  lemma {:induction false} TwoOperations(log: seq<MemoryOp>, ops: seq<MemoryOperation>, o1: MemoryOp, o2: MemoryOp)
    requires |ops| == 2 && ToOp(ops[0]) == o1 && ToOp(ops[1]) == o2
    ensures log + ToOps(ops) == log + [o1] + [o2]
  {
  }

  lemma {:induction false} FaithfulRType(log: seq<MemoryOp>, regs: Registers, ts: nat, i: Instruction, pc: word)
    requires ts + Ticks(i) < TWO32 && FaithfulLog(log, regs, ts) && IsRType(i)
    ensures OperationsFaithful(log, regs, ts, i, pc)
  {
    hide FaithfulLog, ResultIn, ToOps;
    var r1 := ToOp(Read(Register, i.rs1, ts, regs[i.rs1]));
    var r2 := ToOp(Read(Register, i.rs2, ts + 1, regs[i.rs2]));
    var result := ResultIn(i, regs, pc);
    ExtendRead(log, regs, ts, i.rs1);
    ExtendRead(log + [r1], regs, ts + 1, i.rs2);
    ExtendWrite(log + [r1] + [r2], regs, ts + 2, i.rd, result);
    ThreeOperations(log, OperationsOf(i, regs, pc, ts), r1, r2,
                    ToOp(Write(Register, i.rd, ts + 2, regs[i.rd], result)));
  }

  lemma {:induction false} FaithfulOneSource(log: seq<MemoryOp>, regs: Registers, ts: nat, i: Instruction, pc: word)
    requires ts + Ticks(i) < TWO32 && FaithfulLog(log, regs, ts) && !IsRType(i) && !IsUType(i) && !i.Jal?
    ensures OperationsFaithful(log, regs, ts, i, pc)
  {
    hide FaithfulLog;
    var r1 := ToOp(Read(Register, i.rs1, ts, regs[i.rs1]));
    var result := ResultIn(i, regs, pc);
    ExtendRead(log, regs, ts, i.rs1);
    ExtendWrite(log + [r1], regs, ts + 1, i.rd, result);
    TwoOperations(log, OperationsOf(i, regs, pc, ts), r1,
                  ToOp(Write(Register, i.rd, ts + 1, regs[i.rd], result)));
  }

  lemma {:induction false} FaithfulNoSource(log: seq<MemoryOp>, regs: Registers, ts: nat, i: Instruction, pc: word)
    requires ts + Ticks(i) < TWO32 && FaithfulLog(log, regs, ts) && (IsUType(i) || i.Jal?)
    ensures OperationsFaithful(log, regs, ts, i, pc)
  {
    hide FaithfulLog;
    if i.Jal? && i.rd == 0 {
      assert log + ToOps(OperationsOf(i, regs, pc, ts)) == log;
      FaithfulLater(log, regs, ts, ts + 1);
    } else {
      ExtendWrite(log, regs, ts, i.rd, ResultIn(i, regs, pc));
      var wr := ToOp(Write(Register, i.rd, ts, regs[i.rd], ResultIn(i, regs, pc)));
      assert log + ToOps(OperationsOf(i, regs, pc, ts)) == log + [wr];
    }
  }

  lemma {:induction false} FaithfulOperations(log: seq<MemoryOp>, regs: Registers, ts: nat, i: Instruction, pc: word)
    requires ts + Ticks(i) < TWO32 && FaithfulLog(log, regs, ts)
    ensures OperationsFaithful(log, regs, ts, i, pc)
  {
    if IsRType(i) {
      FaithfulRType(log, regs, ts, i, pc);
    } else if IsUType(i) || i.Jal? {
      FaithfulNoSource(log, regs, ts, i, pc);
    } else {
      FaithfulOneSource(log, regs, ts, i, pc);
    }
  }

  /** A step keeps the log faithful except when it drops the clearing of register 0. */
  lemma {:induction false} FaithfulStep(s: VmState, w: word, i: Instruction)
    requires Fits(s, i) && Faithful(s)
    ensures Faithful(StateAfter(s, w, i)) <==> !DropsClear(i, LastRegisters(s.trace))
  {
    var regs := LastRegisters(s.trace);
    var s' := StateAfter(s, w, i);
    var step := s'.trace[|s.trace|];
    LogAppended(s.trace, step);
    FaithfulOperations(Ops(s), regs, s.timestamp, i, s.pc);
    if DropsClear(i, regs) {
      assert regs[0] != 0 && CellAt(Ops(s'), |Ops(s')|, (Register, 0)) == 0;
    } else if i.Jalr? && i.rd == 0 {
      assert regs[i.rd := ResultIn(i, regs, s.pc)] == regs;
    }
  }

  function RegistersBefore(trace: seq<ExecutionStep>, k: nat): Registers
    requires k < |trace|
  {
    LastRegisters(trace[..k])
  }

  ghost predicate NeverDropsClear(trace: seq<ExecutionStep>) {
    forall k :: 0 <= k < |trace| ==> !DropsClear(trace[k].instruction, RegistersBefore(trace, k))
  }

  ghost predicate FaithfulThroughout(program: seq<byte>, n: nat) {
    forall m :: 0 <= m <= n ==> Execute(program, m).Stepped? && Faithful(Execute(program, m).state)
  }

  lemma {:induction false} LastStep(program: seq<byte>, n: nat)
    requires n > 0 && Execute(program, n).Stepped?
    ensures Execute(program, n - 1).Stepped?
    ensures var s, s' := Execute(program, n - 1).state, Execute(program, n).state;
            s'.trace == s.trace + [s'.trace[|s.trace|]] && s'.trace[..|s.trace|] == s.trace
  {
  }

  lemma {:induction false} NeverDropsClearPrefix(trace: seq<ExecutionStep>, step: ExecutionStep)
    ensures NeverDropsClear(trace + [step])
       <==> NeverDropsClear(trace) && !DropsClear(step.instruction, LastRegisters(trace))
  {
    var more := trace + [step];
    assert more[..|trace|] == trace;
    assert forall k :: 0 <= k < |trace| ==> more[..k] == trace[..k];
    if NeverDropsClear(trace) && !DropsClear(step.instruction, LastRegisters(trace)) {
      forall k | 0 <= k < |more|
        ensures !DropsClear(more[k].instruction, RegistersBefore(more, k))
      {
      }
    }
    if NeverDropsClear(more) {
      assert !DropsClear(more[|trace|].instruction, RegistersBefore(more, |trace|));
      forall k | 0 <= k < |trace|
        ensures !DropsClear(trace[k].instruction, RegistersBefore(trace, k))
      {
        assert !DropsClear(more[k].instruction, RegistersBefore(more, k));
      }
    }
  }

  lemma {:induction false} FaithfulThroughoutSplits(program: seq<byte>, n: nat)
    requires n > 0 && Execute(program, n).Stepped?
    ensures FaithfulThroughout(program, n)
       <==> FaithfulThroughout(program, n - 1) && Faithful(Execute(program, n).state)
  {
  }

  lemma {:induction false} FaithfulAtEnd(program: seq<byte>, n: nat)
    requires FaithfulThroughout(program, n)
    ensures Execute(program, n).Stepped? && Faithful(Execute(program, n).state)
  {
    hide Execute, Faithful;
  }

  lemma {:induction false} FaithfulNext(program: seq<byte>, n: nat)
    requires n > 0 && Execute(program, n).Stepped? && Execute(program, n - 1).Stepped?
    requires Faithful(Execute(program, n - 1).state)
    ensures var s, s' := Execute(program, n - 1).state, Execute(program, n).state;
            |s.trace| < |s'.trace|
            && (Faithful(s') <==> !DropsClear(s'.trace[|s.trace|].instruction, LastRegisters(s.trace)))
  {
    var s := Execute(program, n - 1).state;
    var w := WordAt(s.program, s.pc);
    FaithfulStep(s, w, DecodeInstruction(w).value);
  }

  lemma {:induction false} FaithfulInitially(program: seq<byte>)
    ensures FaithfulThroughout(program, 0) && NeverDropsClear(Execute(program, 0).state.trace)
  {
    assert Faithful(InitialState(program));
  }

  /**
   * Over any run, the log replays to the registers after every step exactly when no JALR naming
   * register 0 ran while register 0 was non-zero.
   */
  lemma {:induction false} LogFaithfulness(program: seq<byte>, n: nat)
    requires Execute(program, n).Stepped?
    ensures FaithfulThroughout(program, n) <==> NeverDropsClear(Execute(program, n).state.trace)
  {
    hide *;
    if n == 0 {
      FaithfulInitially(program);
    } else {
      LastStep(program, n);
      LogFaithfulness(program, n - 1);
      FaithfulThroughoutSplits(program, n);
      var s, s' := Execute(program, n - 1).state, Execute(program, n).state;
      NeverDropsClearPrefix(s.trace, s'.trace[|s.trace|]);
      if FaithfulThroughout(program, n - 1) {
        FaithfulAtEnd(program, n - 1);
        FaithfulNext(program, n);
      }
    }
  }

  /** The value instruction k of a trace computed for its destination. */
  function ResultAt(trace: seq<ExecutionStep>, k: nat): word
    requires k < |trace|
  {
    ResultIn(trace[k].instruction, RegistersBefore(trace, k), trace[k].pc)
  }

  /** Instructions other than jumps that name register 0 as destination computed 0 for it. */
  ghost predicate ZeroesOnly(trace: seq<ExecutionStep>) {
    forall k :: 0 <= k < |trace| ==>
      !IsJump(trace[k].instruction) && trace[k].instruction.rd == 0 ==> ResultAt(trace, k) == 0
  }

  ghost predicate ZeroRegisterIsZero(trace: seq<ExecutionStep>) {
    forall k :: 0 <= k < |trace| ==> trace[k].registers[0] == 0
  }

  /** Every step of the trace leaves the registers its instruction prescribes. */
  ghost predicate StepsLink(trace: seq<ExecutionStep>) {
    forall k :: 0 <= k < |trace| ==>
      trace[k].registers == RegistersAfter(trace[k].instruction, RegistersBefore(trace, k), trace[k].pc)
  }

  lemma {:induction false} StepsLinkExtended(trace: seq<ExecutionStep>, step: ExecutionStep)
    requires StepsLink(trace)
    requires step.registers == RegistersAfter(step.instruction, LastRegisters(trace), step.pc)
    ensures StepsLink(trace + [step])
  {
    hide RegistersAfter;
    var more := trace + [step];
    forall k | 0 <= k < |more|
      ensures more[k].registers == RegistersAfter(more[k].instruction, RegistersBefore(more, k), more[k].pc)
    {
      assert more[..k] == trace[..k];
      assert trace[..|trace|] == trace;
    }
  }

  lemma {:induction false} LastLink(program: seq<byte>, n: nat)
    requires n > 0 && Execute(program, n).Stepped? && Execute(program, n - 1).Stepped?
    ensures var s, s' := Execute(program, n - 1).state, Execute(program, n).state;
            |s'.trace| == |s.trace| + 1
            && var step := s'.trace[|s.trace|];
               step.registers == RegistersAfter(step.instruction, LastRegisters(s.trace), step.pc)
  {
    hide DecodeInstruction, WordAt, RegistersAfter, OperationsOf;
  }

  lemma {:induction false} NoLinks(program: seq<byte>)
    ensures Execute(program, 0).Stepped? && Execute(program, 0).state.trace == []
    ensures StepsLink(Execute(program, 0).state.trace)
  {
    assert Execute(program, 0).state.trace == [];
    hide *;
  }

  lemma {:induction false} ExecutionLinks(program: seq<byte>, n: nat)
    requires Execute(program, n).Stepped?
    ensures StepsLink(Execute(program, n).state.trace) && |Execute(program, n).state.trace| == n
  {
    hide *;
    if n == 0 {
      NoLinks(program);
    } else {
      LastStep(program, n);
      LastLink(program, n);
      ExecutionLinks(program, n - 1);
      var s, s' := Execute(program, n - 1).state, Execute(program, n).state;
      StepsLinkExtended(s.trace, s'.trace[|s.trace|]);
    }
  }

  /** Registers before step k hold 0 in register 0 when every earlier step left it so. */
  lemma {:induction false} ZeroBefore(trace: seq<ExecutionStep>, k: nat)
    requires k < |trace| && (k > 0 ==> trace[k - 1].registers[0] == 0)
    ensures RegistersBefore(trace, k)[0] == 0
  {
  }

  lemma {:induction false} ZeroUpTo(trace: seq<ExecutionStep>, k: nat)
    requires StepsLink(trace) && ZeroesOnly(trace) && k < |trace|
    ensures trace[k].registers[0] == 0
  {
    if k > 0 {
      ZeroUpTo(trace, k - 1);
    }
    ZeroBefore(trace, k);
    hide Result;
    assert trace[k].registers == RegistersAfter(trace[k].instruction, RegistersBefore(trace, k), trace[k].pc);
  }

  /** Register 0 reads 0 throughout a run exactly when only zeroes are ever computed for it. */
  lemma {:induction false} ZeroRegister(program: seq<byte>, n: nat)
    requires Execute(program, n).Stepped?
    ensures var trace := Execute(program, n).state.trace;
            ZeroRegisterIsZero(trace) <==> ZeroesOnly(trace)
  {
    ExecutionLinks(program, n);
    var trace := Execute(program, n).state.trace;
    hide Execute, Result;
    if ZeroesOnly(trace) {
      forall k | 0 <= k < |trace| ensures trace[k].registers[0] == 0 {
        ZeroUpTo(trace, k);
      }
    }
    if ZeroRegisterIsZero(trace) {
      forall k | 0 <= k < |trace| && !IsJump(trace[k].instruction) && trace[k].instruction.rd == 0
        ensures ResultAt(trace, k) == 0
      {
        assert trace[k].registers == RegistersAfter(trace[k].instruction, RegistersBefore(trace, k), trace[k].pc);
      }
    }
  }

  /** A run that computes only zeroes for register 0 keeps a faithful log after every step. */
  lemma {:induction false} CleanRunIsFaithful(program: seq<byte>, n: nat)
    requires Execute(program, n).Stepped? && ZeroesOnly(Execute(program, n).state.trace)
    ensures FaithfulThroughout(program, n)
  {
    ZeroRegister(program, n);
    var trace := Execute(program, n).state.trace;
    LogFaithfulness(program, n);
    hide Execute, FaithfulThroughout;
    forall k | 0 <= k < |trace|
      ensures !DropsClear(trace[k].instruction, RegistersBefore(trace, k))
    {
      ZeroBefore(trace, k);
    }
  }

  /** addi x0, x0, 1; jalr x0, 8(x1) */
  const DROPPING_PROGRAM: seq<byte> := [0x13, 0x00, 0x10, 0x00, 0x67, 0x80, 0x80, 0x00]

  lemma {:induction false} ExecuteMore(program: seq<byte>, n: nat, s: VmState, w: word, i: Instruction)
    requires Execute(program, n) == Stepped(s) && s.pc + 3 < |s.program| && WordAt(s.program, s.pc) == w
    requires DecodeInstruction(w) == Some(i) && Fits(s, i)
    ensures Execute(program, n + 1) == Stepped(StateAfter(s, w, i))
  {
    hide DecodeInstruction, WordAt, StateAfter, Fits;
  }

  lemma {:induction false} DroppingAdd(s: VmState)
    requires s == InitialState(DROPPING_PROGRAM)
    ensures Fits(s, AddI(0, 0, 1))
    ensures var s' := StateAfter(s, 0x0010_0013, AddI(0, 0, 1));
            && s'.program == s.program && s'.pc == 4 && s'.timestamp == 2 && |s'.trace| == 1
            && LastRegisters(s'.trace)[0] == 1 && LastRegisters(s'.trace)[1] == 0
  {
    var regs := LastRegisters(s.trace);
    assert ResultIn(AddI(0, 0, 1), regs, s.pc) == 1;
    hide OperationsOf;
  }

  /** addi x0, x0, 1 leaves register 0 holding 1. */
  lemma {:induction false} ZeroRegisterOverwritten()
    ensures Execute(DROPPING_PROGRAM, 1).Stepped?
    ensures LastRegisters(Execute(DROPPING_PROGRAM, 1).state.trace)[0] == 1
    ensures !ZeroRegisterIsZero(Execute(DROPPING_PROGRAM, 1).state.trace)
  {
    var s0 := InitialState(DROPPING_PROGRAM);
    hide *;
    DroppingWords();
    DroppingAdd(s0);
    ExecuteMore(DROPPING_PROGRAM, 0, s0, 0x0010_0013, AddI(0, 0, 1));
    LastIsNotZero(StateAfter(s0, 0x0010_0013, AddI(0, 0, 1)).trace);
  }

  lemma {:induction false} LastIsNotZero(trace: seq<ExecutionStep>)
    requires |trace| > 0 && LastRegisters(trace)[0] != 0
    ensures !ZeroRegisterIsZero(trace)
  {
  }

  lemma {:induction false} DroppingJump(s: VmState)
    requires s.pc == 4 && s.timestamp == 2 && LastRegisters(s.trace)[1] == 0
    ensures Fits(s, Jalr(0, 1, 8))
    ensures var s' := StateAfter(s, 0x0080_8067, Jalr(0, 1, 8));
            && |s'.trace| == |s.trace| + 1 && s'.trace[..|s.trace|] == s.trace
            && s'.trace[|s.trace|].instruction == Jalr(0, 1, 8)
  {
    hide LastRegisters, OperationsOf, RegistersAfter;
  }

  lemma {:induction false} DroppingWords()
    ensures DecodeInstruction(0x0010_0013) == Some(AddI(0, 0, 1)) && WordAt(DROPPING_PROGRAM, 0) == 0x0010_0013
    ensures DecodeInstruction(0x0080_8067) == Some(Jalr(0, 1, 8)) && WordAt(DROPPING_PROGRAM, 4) == 0x0080_8067
    ensures Execute(DROPPING_PROGRAM, 0) == Stepped(InitialState(DROPPING_PROGRAM))
    ensures InitialState(DROPPING_PROGRAM).pc == 0 && InitialState(DROPPING_PROGRAM).program == DROPPING_PROGRAM
    ensures |DROPPING_PROGRAM| == 8
  {
  }

  lemma {:induction false} ClearDropped(before: seq<ExecutionStep>, after: seq<ExecutionStep>)
    requires |before| == 1 && LastRegisters(before)[0] == 1 && |after| == 2 && after[..1] == before
    requires after[1].instruction == Jalr(0, 1, 8)
    ensures !NeverDropsClear(after)
  {
    assert DropsClear(after[1].instruction, RegistersBefore(after, 1));
  }

  /** The log is not faithful on every run: the second instruction logs a write it does not perform. */
  lemma {:induction false} UnfaithfulRun()
    ensures Execute(DROPPING_PROGRAM, 2).Stepped?
    ensures !FaithfulThroughout(DROPPING_PROGRAM, 2)
  {
    hide *;
    DroppingWords();
    var s0 := InitialState(DROPPING_PROGRAM);
    DroppingAdd(s0);
    ExecuteMore(DROPPING_PROGRAM, 0, s0, 0x0010_0013, AddI(0, 0, 1));
    var s1 := StateAfter(s0, 0x0010_0013, AddI(0, 0, 1));
    DroppingJump(s1);
    ExecuteMore(DROPPING_PROGRAM, 1, s1, 0x0080_8067, Jalr(0, 1, 8));
    var s2 := StateAfter(s1, 0x0080_8067, Jalr(0, 1, 8));
    ClearDropped(s1.trace, s2.trace);
    LogFaithfulness(DROPPING_PROGRAM, 2);
  }
}
