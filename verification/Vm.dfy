/** The virtual machine that runs a program and logs timestamped register operations. */
module Vm {
  import opened Words
  import opened Rv32

  datatype MemoryType = Register | Ram

  datatype MemoryOperation =
    | Read(memoryType: MemoryType, address: word, timestamp: word, value: word)
    | Write(memoryType: MemoryType, address: word, timestamp: word, oldValue: word, newValue: word)

  type Registers = s: seq<word> | |s| == 32
    witness [0, 0, 0, 0, 0, 0, 0, 0, 0, 0, 0, 0, 0, 0, 0, 0, 0, 0, 0, 0, 0, 0, 0, 0, 0, 0, 0, 0, 0, 0, 0, 0]

  const ZERO_REGISTERS: Registers :=
    [0, 0, 0, 0, 0, 0, 0, 0, 0, 0, 0, 0, 0, 0, 0, 0, 0, 0, 0, 0, 0, 0, 0, 0, 0, 0, 0, 0, 0, 0, 0, 0]

  /** One executed step: the address of the instruction and the registers after it. */
  datatype ExecutionStep = ExecutionStep(
    pc: word, registers: Registers, instructionWord: word, instruction: Instruction,
    memoryOps: seq<MemoryOperation>)

  datatype VmState = VmState(program: seq<byte>, pc: word, timestamp: word, trace: seq<ExecutionStep>)

  /** The ways `VM::step` aborts: fetch past the ROM, `unimplemented!`, checked u32 overflow. */
  datatype Panic = FetchOutOfBounds | NotSupported | Overflow

  datatype Outcome = Stepped(state: VmState) | Panicked(panic: Panic)

  function LastRegisters(trace: seq<ExecutionStep>): Registers {
    if |trace| == 0 then ZERO_REGISTERS else trace[|trace| - 1].registers
  }

  function WordAt(program: seq<byte>, pc: nat): word
    requires pc + 3 < |program|
  {
    Value([program[pc], program[pc + 1], program[pc + 2], program[pc + 3]])
  }

  /** Timestamps one instruction consumes; JAL consumes one whether or not it writes. */
  function Ticks(i: Instruction): (k: nat)
    ensures 1 <= k <= 3
  {
    if IsRType(i) then 3 else if IsUType(i) || i.Jal? then 1 else 2
  }

  function Rs1Value(i: Instruction, regs: Registers): word {
    if IsUType(i) || i.Jal? then 0 else regs[i.rs1]
  }

  function Rs2Value(i: Instruction, regs: Registers): word {
    if IsRType(i) then regs[i.rs2] else 0
  }

  function ResultIn(i: Instruction, regs: Registers, pc: word): word {
    Result(i, pc, Rs1Value(i, regs), Rs2Value(i, regs))
  }

  /** JAL and JALR leave register 0 alone; every other instruction writes whatever rd it names. */
  predicate WritesRegister(i: Instruction) {
    (i.Jal? || i.Jalr?) ==> i.rd != 0
  }

  function RegistersAfter(i: Instruction, regs: Registers, pc: word): Registers {
    if WritesRegister(i) then regs[i.rd := ResultIn(i, regs, pc)] else regs
  }

  /** The operations one step logs, starting at timestamp ts. */
  function OperationsOf(i: Instruction, regs: Registers, pc: word, ts: nat): seq<MemoryOperation>
    requires ts + Ticks(i) < TWO32
  {
    var old_, new_ := regs[i.rd], ResultIn(i, regs, pc);
    if IsRType(i) then
      [Read(Register, i.rs1, ts, regs[i.rs1]), Read(Register, i.rs2, ts + 1, regs[i.rs2]),
       Write(Register, i.rd, ts + 2, old_, new_)]
    else if IsUType(i) then
      [Write(Register, i.rd, ts, old_, new_)]
    else if i.Jal? then
      if i.rd == 0 then [] else [Write(Register, i.rd, ts, old_, new_)]
    else
      [Read(Register, i.rs1, ts, regs[i.rs1]), Write(Register, i.rd, ts + 1, old_, new_)]
  }

  predicate IsJump(i: Instruction) {
    i.Jal? || i.Jalr?
  }

  /** The address of the next instruction, from the value of rs1. */
  function NextPcFrom(i: Instruction, pc: word, v1: word): (next: int)
    ensures 0 <= next && (IsJump(i) ==> next < TWO32)
  {
    if i.Jal? then Wrap(pc + Wrap(i.imm))
    else if i.Jalr? then
      var sum := Wrap(v1 + Wrap(i.imm));
      sum - sum % 2
    else pc + 4
  }

  function NextPc(i: Instruction, regs: Registers, pc: word): int {
    NextPcFrom(i, pc, Rs1Value(i, regs))
  }

  /** The u32 counters of the machine do not overflow on instruction i. */
  predicate Fits(s: VmState, i: Instruction) {
    s.timestamp + Ticks(i) < TWO32 && NextPc(i, LastRegisters(s.trace), s.pc) < TWO32
  }

  /** The state after instruction i, decoded from the word w. */
  function StateAfter(s: VmState, w: word, i: Instruction): VmState
    requires Fits(s, i)
  {
    var regs := LastRegisters(s.trace);
    var step := ExecutionStep(s.pc, RegistersAfter(i, regs, s.pc), w, i,
                              OperationsOf(i, regs, s.pc, s.timestamp));
    VmState(s.program, NextPc(i, regs, s.pc), s.timestamp + Ticks(i), s.trace + [step])
  }

  function StepState(s: VmState): Outcome {
    if s.pc + 3 >= |s.program| then Panicked(FetchOutOfBounds) else
    var w := WordAt(s.program, s.pc);
    match DecodeInstruction(w)
    case None => Panicked(NotSupported)
    case Some(i) => if Fits(s, i) then Stepped(StateAfter(s, w, i)) else Panicked(Overflow)
  }

  function InitialState(program: seq<byte>): VmState {
    VmState(program, 0, 0, [])
  }

  /** The outcome of n steps from the initial state. */
  function Execute(program: seq<byte>, n: nat): Outcome {
    if n == 0 then Stepped(InitialState(program))
    else match Execute(program, n - 1)
         case Panicked(e) => Panicked(e)
         case Stepped(s) => StepState(s)
  }

  /** The first n steps all started inside the program. */
  ghost predicate StayedInside(program: seq<byte>, n: nat) {
    forall m :: 0 <= m < n ==> Execute(program, m).Stepped? && Execute(program, m).state.pc < |program|
  }

  lemma {:induction false} ExecuteNext(program: seq<byte>, n: nat, s: VmState)
    requires Execute(program, n) == Stepped(s)
    ensures Execute(program, n + 1) == StepState(s)
    ensures StayedInside(program, n) && s.pc < |program| ==> StayedInside(program, n + 1)
  {
    hide StepState;
  }

  class VM {
    const program: seq<byte>
    var pc: word
    var timestamp: word
    var trace: seq<ExecutionStep>

    constructor (program: seq<byte>)
      ensures this.program == program && State() == InitialState(program)
    {
      this.program := program;
      pc, timestamp, trace := 0, 0, [];
    }

    ghost function State(): VmState
      reads this
    {
      VmState(program, pc, timestamp, trace)
    }

    /** Runs one instruction; a panic leaves the machine as it was. */
    method Step() returns (panic: Option<Panic>)
      modifies this
      ensures match StepState(old(State()))
              case Stepped(s) => panic == None && State() == s
              case Panicked(e) => panic == Some(e) && State() == old(State())
    {
      if pc + 3 >= |program| {
        return Some(FetchOutOfBounds);
      }
      var instructionWord := Value([program[pc], program[pc + 1], program[pc + 2], program[pc + 3]]);
      var decoded := DecodeInstruction(instructionWord);
      if decoded.None? {
        return Some(NotSupported);
      }
      var i := decoded.value;
      if timestamp + Ticks(i) >= TWO32 || (!IsJump(i) && pc + 4 >= TWO32) {
        return Some(Overflow);
      }
      if IsRType(i) {
        StepRType(instructionWord, i);
      } else if IsUType(i) {
        StepUType(instructionWord, i);
      } else if i.Jal? {
        StepJal(instructionWord, i);
      } else if i.Jalr? {
        StepJalr(instructionWord, i);
      } else {
        StepIType(instructionWord, i);
      }
      return None;
    }

    method StepRType(w: word, i: Instruction)
      requires Fits(State(), i) && IsRType(i)
      modifies this
      ensures State() == StateAfter(old(State()), w, i)
    {
      var registers := LastRegisters(trace);
      var rs1Val, rs2Val, oldRd := registers[i.rs1], registers[i.rs2], registers[i.rd];
      var result := Result(i, pc, rs1Val, rs2Val);
      var ops := [Read(Register, i.rs1, timestamp, rs1Val)];
      timestamp := timestamp + 1;
      ops := ops + [Read(Register, i.rs2, timestamp, rs2Val)];
      timestamp := timestamp + 1;
      ops := ops + [Write(Register, i.rd, timestamp, oldRd, result)];
      timestamp := timestamp + 1;
      registers := registers[i.rd := result];
      assert ops == OperationsOf(i, LastRegisters(trace), pc, old(timestamp));
      trace := trace + [ExecutionStep(pc, registers, w, i, ops)];
      pc := pc + 4;
    }

    method StepIType(w: word, i: Instruction)
      requires Fits(State(), i) && !IsRType(i) && !IsUType(i) && !IsJump(i)
      modifies this
      ensures State() == StateAfter(old(State()), w, i)
    {
      var registers := LastRegisters(trace);
      var rs1Val, oldRd := registers[i.rs1], registers[i.rd];
      var result := Result(i, pc, rs1Val, 0);
      var ops := [Read(Register, i.rs1, timestamp, rs1Val)];
      timestamp := timestamp + 1;
      ops := ops + [Write(Register, i.rd, timestamp, oldRd, result)];
      timestamp := timestamp + 1;
      registers := registers[i.rd := result];
      assert ops == OperationsOf(i, LastRegisters(trace), pc, old(timestamp));
      trace := trace + [ExecutionStep(pc, registers, w, i, ops)];
      pc := pc + 4;
    }

    method StepUType(w: word, i: Instruction)
      requires Fits(State(), i) && IsUType(i)
      modifies this
      ensures State() == StateAfter(old(State()), w, i)
    {
      var registers := LastRegisters(trace);
      var oldRd, result := registers[i.rd], Result(i, pc, 0, 0);
      var ops := [Write(Register, i.rd, timestamp, oldRd, result)];
      timestamp := timestamp + 1;
      registers := registers[i.rd := result];
      trace := trace + [ExecutionStep(pc, registers, w, i, ops)];
      pc := pc + 4;
    }

    /** JAL drops the write to register 0 but still advances the timestamp. */
    method StepJal(w: word, i: Instruction)
      requires Fits(State(), i) && i.Jal?
      modifies this
      ensures State() == StateAfter(old(State()), w, i)
    {
      var registers := LastRegisters(trace);
      var nextPc := Wrap(pc + Wrap(i.imm));
      var ops: seq<MemoryOperation> := [];
      if i.rd != 0 {
        var oldRd, returnAddr := registers[i.rd], Wrap(pc + 4);
        ops := [Write(Register, i.rd, timestamp, oldRd, returnAddr)];
        registers := registers[i.rd := returnAddr];
      }
      timestamp := timestamp + 1;
      trace := trace + [ExecutionStep(pc, registers, w, i, ops)];
      pc := nextPc;
    }

    /** JALR logs a write of 0 to register 0 without performing it. */
    method StepJalr(w: word, i: Instruction)
      requires Fits(State(), i) && i.Jalr?
      modifies this
      ensures State() == StateAfter(old(State()), w, i)
    {
      var registers := LastRegisters(trace);
      var rs1Val, oldRd := registers[i.rs1], registers[i.rd];
      var returnAddr: word := if i.rd == 0 then 0 else Wrap(pc + 4);
      var sum := Wrap(rs1Val + Wrap(i.imm));
      var nextPc := sum - sum % 2;
      var ops := [Read(Register, i.rs1, timestamp, rs1Val)];
      timestamp := timestamp + 1;
      ops := ops + [Write(Register, i.rd, timestamp, oldRd, returnAddr)];
      timestamp := timestamp + 1;
      if i.rd != 0 {
        registers := registers[i.rd := returnAddr];
      }
      assert ops == OperationsOf(i, LastRegisters(trace), pc, old(timestamp));
      trace := trace + [ExecutionStep(pc, registers, w, i, ops)];
      pc := nextPc;
    }

    /**
     * `run`, cut off after `fuel` steps. Every step, and a panic, starts inside the program; a run that
     * reaches the end of the program has not panicked.
     */
    method Run(fuel: nat) returns (panic: Option<Panic>, ghost steps: nat)
      requires State() == InitialState(program)
      modifies this
      ensures steps <= fuel && Execute(program, steps) == Stepped(State())
      ensures StayedInside(program, steps)
      ensures panic.Some? ==> pc < |program| && StepState(State()) == Panicked(panic.value)
      ensures panic.None? ==> |program| <= pc || steps == fuel
    {
      steps := 0;
      var left := fuel;
      assert Execute(program, 0) == Stepped(InitialState(program));
      assert StayedInside(program, 0);
      hide Execute, StepState, InitialState, StayedInside;
      while pc < |program| && left > 0
        invariant steps + left == fuel
        invariant Execute(program, steps) == Stepped(State())
        invariant StayedInside(program, steps)
        decreases left
      {
        ghost var before := State();
        panic := Step();
        if panic.Some? {
          return;
        }
        ExecuteNext(program, steps, before);
        steps := steps + 1;
        left := left - 1;
      }
      panic := None;
    }
  }
}
