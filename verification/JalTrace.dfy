/** JAL rows from the execution trace: the loop that reconstructs timestamps, and the built table. */
module JalTrace {
  import opened Words
  import opened PrimeField
  import opened Rv32
  import opened Vm
  import opened U32Ops
  import opened U32Witness
  import opened Bits
  import opened Heights
  import opened RunRows
  import opened Jal
  import opened JalAir

  datatype JalStep = JalStep(
    pc: word, timestamp: nat, rd: reg, immHigh12: int, immLo8: int, immJ: int, rdVal: word, oldRdValue: word)

  function StepFields(step: ExecutionStep, timestamp: nat, oldRd: word, rdVal: word): JalStep
    requires step.instruction.Jal?
  {
    var imm := step.instruction.imm;
    JalStep(step.pc, timestamp, step.instruction.rd, Rescrambled(imm).0, Rescrambled(imm).1, imm, rdVal, oldRd)
  }

  /** What one logged step contributes: nothing when it is no JAL or its operations are not one write. */
  function JalStepOf(step: ExecutionStep, entry: nat): Option<JalStep> {
    if !step.instruction.Jal? then None
    else if |step.memoryOps| == 1 && step.memoryOps[0].Write? then
      Some(StepFields(step, step.memoryOps[0].timestamp, step.memoryOps[0].oldValue, step.memoryOps[0].newValue))
    else if |step.memoryOps| == 0 && step.instruction.rd == 0 then
      Some(StepFields(step, entry, 0, Wrap(step.pc + 4)))
    else None
  }

  function Listed(o: Option<JalStep>): seq<JalStep> {
    if o.Some? then [o.value] else []
  }

  /** The contributions of the first k steps, each at its entry time. */
  function JalSteps(trace: seq<ExecutionStep>, k: nat): seq<JalStep>
    requires k <= |trace|
  {
    if k == 0 then [] else JalSteps(trace, k - 1) + Listed(JalStepOf(trace[k - 1], EntryTime(trace, k - 1)))
  }

  /** `extract_jal_steps` */
  method ExtractJalSteps(steps: seq<ExecutionStep>) returns (out: seq<JalStep>)
    ensures out == JalSteps(steps, |steps|)
  {
    hide StepFields;
    out := [];
    var runningTs := 0;
    for k := 0 to |steps|
      invariant runningTs == EntryTime(steps, k) && out == JalSteps(steps, k)
    {
      var step, entryTs := steps[k], runningTs;
      var consumed := |step.memoryOps|;
      if |step.memoryOps| == 0 && step.instruction.Jal? && step.instruction.rd == 0 {
        consumed := 1;
      }
      if step.instruction.Jal? {
        if |step.memoryOps| == 1 && step.memoryOps[0].Write? {
          var write := step.memoryOps[0];
          out := out + [StepFields(step, write.timestamp, write.oldValue, write.newValue)];
        } else if |step.memoryOps| == 0 && step.instruction.rd == 0 {
          out := out + [StepFields(step, entryTs, 0, Wrap(step.pc + 4))];
        }
      }
      runningTs := runningTs + consumed;
    }
  }

  // The loop against the machine.

  /** The JAL step of instruction i in state s, read off the machine itself. */
  function MachineJal(s: VmState, i: Instruction): Option<JalStep> {
    if !i.Jal? then None
    else Some(JalStep(s.pc, s.timestamp, i.rd, Rescrambled(i.imm).0, Rescrambled(i.imm).1, i.imm, Wrap(s.pc + 4),
                      if i.rd == 0 then 0 else LastRegisters(s.trace)[i.rd]))
  }

  /** The JAL steps of a run, from the states the machine went through. */
  function MachineJals(program: seq<byte>, n: nat): seq<JalStep>
    requires Execute(program, n).Stepped?
  {
    if n == 0 then []
    else
      var s := Execute(program, n - 1).state;
      MachineJals(program, n - 1) + Listed(MachineJal(s, DecodeInstruction(WordAt(s.program, s.pc)).value))
  }

  lemma {:induction false} JalStepIsMachine(s: VmState, w: word, i: Instruction)
    requires Fits(s, i)
    ensures JalStepOf(StepOf(s, w, i), s.timestamp) == MachineJal(s, i)
  {
    hide RegistersAfter, Rescrambled, Wrap, NextPc;
  }

  lemma {:induction false} JalStepsPrefix(trace: seq<ExecutionStep>, step: ExecutionStep, k: nat)
    requires k <= |trace|
    ensures JalSteps(trace + [step], k) == JalSteps(trace, k)
  {
    hide JalStepOf;
    if k > 0 {
      JalStepsPrefix(trace, step, k - 1);
      EntryTimePrefix(trace, step, k - 1);
    }
  }

  lemma {:induction false} JalStepsNext(trace: seq<ExecutionStep>, step: ExecutionStep)
    ensures JalSteps(trace + [step], |trace| + 1)
         == JalSteps(trace, |trace|) + Listed(JalStepOf(step, EntryTime(trace, |trace|)))
  {
    hide JalStepOf;
    JalStepsPrefix(trace, step, |trace|);
    EntryTimePrefix(trace, step, |trace|);
  }

  lemma {:induction false} NoJalSteps(program: seq<byte>)
    ensures JalSteps(InitialState(program).trace, 0) == [] && Execute(program, 0) == Stepped(InitialState(program))
  {
  }

  /**
   * In every run the steps the trace builder reconstructs from the log are those of the machine: its
   * pc, its timestamp on entry even after silent jumps, its return address and old register value.
   */
  lemma {:induction false} ExtractedAreMachineJals(program: seq<byte>, n: nat)
    requires Execute(program, n).Stepped?
    ensures var trace := Execute(program, n).state.trace; JalSteps(trace, |trace|) == MachineJals(program, n)
  {
    hide JalStepOf, MachineJal, EntryTime, StepState, StateAfter, Fits, StepOf, WordAt, DecodeInstruction, JalSteps, Listed;
    if n == 0 {
      NoJalSteps(program);
    } else {
      var s, s', i := LastSteps(program, n);
      hide Execute;
      assert MachineJals(program, n) == MachineJals(program, n - 1) + Listed(MachineJal(s, i));
      hide MachineJals;
      ExtractedAreMachineJals(program, n - 1);
      EntryTimeIsTimestamp(program, n - 1);
      JalStepIsMachine(s, WordAt(s.program, s.pc), i);
      JalStepsNext(s.trace, StepOf(s, WordAt(s.program, s.pc), i));
    }
  }

  // The table.

  const JAL_PADDING := JalColumns(
    [0, 0, 0, 0], 0, 0, 0, 0, [0, 0, 0, 0, 0, 0, 0, 0, 0, 0, 0, 0], [0, 0, 0, 0, 0, 0, 0, 0], [0, 0, 0, 0], [0, 0, 0, 0],
    [4, 0, 0, 0], [0, 0, 0], [0, 0, 0, 0], [0, 0, 0, 0], 1, 0, 0)

  ghost function JalRow(p: int, step: JalStep): JalColumns
    requires LargePrime(p)
  {
    FillJal(p, step.pc, step.timestamp, step.rd, step.immJ, step.rdVal, step.oldRdValue)
  }

  ghost predicate ReadyStep(step: JalStep) {
    Encodable(step.immJ) && step.immHigh12 == Rescrambled(step.immJ).0 && step.immLo8 == Rescrambled(step.immJ).1
  }

  /** The bit loops of `fill_row`. */
  method FillImmediate(step: JalStep) returns (high12Bits: Bits12, lo8Bits: seq<int>)
    requires ReadyStep(step)
    ensures high12Bits == ToBits(step.immHigh12, 12) && lo8Bits == ToBits(step.immLo8, 8)
  {
    hide Offset, Rescrambled, Pow2, ToBits;
    EncodableIsOffset(step.immJ);
    PowersTwelve();
    high12Bits := FillBits(step.immHigh12, 12);
    lo8Bits := FillBits(step.immLo8, 8);
  }

  method FillJalRow(p: int, step: JalStep) returns (row: JalColumns)
    requires LargePrime(p) && ReadyStep(step)
    ensures row == JalRow(p, step)
  {
    assert IsPrime(p) && p > 32;
    hide *;
    var high12Bits, lo8Bits := FillImmediate(step);
    var immJU32 := Wrap(step.immJ);
    var nextPc := Wrap(step.pc + immJU32);
    var jmpCarries := U32AddCarries(step.pc, immJU32);
    var rdIsZero, rdInv := 1, 0;
    if step.rd != 0 {
      rdIsZero, rdInv := 0, Inverse(p, step.rd);
    }
    row := JalColumns(ToLimbs(step.pc), step.timestamp, step.rd, step.immHigh12, step.immLo8, high12Bits, lo8Bits,
                      ToLimbs(immJU32), jmpCarries, ToLimbs(step.rdVal), PcPlus4Carries(step.pc),
                      ToLimbs(step.oldRdValue), ToLimbs(nextPc), rdIsZero, rdInv, 1);
    JalRowFields(p, step);
  }

  lemma {:induction false} JalRowFields(p: int, step: JalStep)
    requires LargePrime(p) && ReadyStep(step)
    ensures JalRow(p, step) == JalColumns(
                                 ToLimbs(step.pc), step.timestamp, step.rd, step.immHigh12, step.immLo8,
                                 ToBits(step.immHigh12, 12), ToBits(step.immLo8, 8), ToLimbs(Wrap(step.immJ)),
                                 CarriesOf(ToLimbs(step.pc), ToLimbs(Wrap(step.immJ)), 0), ToLimbs(step.rdVal),
                                 PcPlus4Carries(step.pc), ToLimbs(step.oldRdValue),
                                 ToLimbs(Wrap(step.pc + Wrap(step.immJ))), if step.rd == 0 then 1 else 0,
                                 if step.rd == 0 then 0 else Inverse(p, step.rd), 1)
  {
    hide Offset, Rescrambled, ToLimbs, ToBits, Carry, Inverse, IsPrime, Wrap, Encodable, PcPlus4Carries, CarriesOf;
  }

  lemma {:induction false} PowersTwelve()
    ensures Pow2(12) == 4096 && Pow2(8) == 256
  {
    assert Pow2(8) == 256 && Pow2(4) == 16;
    Pow2Sum(8, 4);
  }

  /** `jal::trace::build_trace` from its steps: real rows, then padding. */
  method BuildJal(p: int, steps: seq<JalStep>) returns (rows: array<JalColumns>)
    requires LargePrime(p) && |steps| > 0 && forall k :: 0 <= k < |steps| ==> ReadyStep(steps[k])
    ensures fresh(rows) && rows.Length == PaddedHeight(|steps|)
    ensures forall k :: 0 <= k < |steps| ==> rows[k] == JalRow(p, steps[k])
    ensures forall k :: |steps| <= k < rows.Length ==> rows[k] == JAL_PADDING
  {
    hide JalRow, PaddedHeight, LargePrime, Encodable, Rescrambled;
    rows := new JalColumns[PaddedHeight(|steps|)](_ => JAL_PADDING);
    for k := 0 to |steps|
      invariant forall j :: 0 <= j < k ==> rows[j] == JalRow(p, steps[j])
    {
      assert ReadyStep(steps[k]);
      rows[k] := FillJalRow(p, steps[k]);
    }
    for k := |steps| to rows.Length
      invariant forall j :: 0 <= j < |steps| ==> rows[j] == JalRow(p, steps[j])
      invariant forall j :: |steps| <= j < k ==> rows[j] == JAL_PADDING
    {
      rows[k] := JAL_PADDING;
    }
  }

  lemma {:induction false} PaddingImmediate(p: int)
    requires p > 0
    ensures var r := JAL_PADDING;
            Decomposes(p, 0, r.high12Bits) && Decomposes(p, 0, r.lo8Bits) && ImmediateBytes(p, r.high12Bits, r.lo8Bits, r.immJ)
  {
    var r := JAL_PADDING;
    ZeroesDecompose(p, r.high12Bits);
    ZeroesDecompose(p, r.lo8Bits);
    hide Decomposes;
    MultipleIsZero(p, 0);
  }

  lemma {:induction false} PaddingSums(p: int)
    requires p > 1
    ensures var r := JAL_PADDING;
            U32Add(p, r.pc, r.immJ, r.nextPc, r.jmpCarries) && U32PlusFour(p, r.pc, r.rdVal, r.rdValCarries)
  {
    var r := JAL_PADDING;
    MultipleIsZero(p, 0);
    BoolsAccepted(p, r.jmpCarries);
    BoolsAccepted(p, r.rdValCarries);
  }

  /** The padding row, which the trace builder marks as x0 with a linked address of 4, is accepted. */
  lemma {:induction false} JalPaddingAccepted(p: int)
    requires p > 1
    ensures JalEval(p, JAL_PADDING) && JalResidues(p, JAL_PADDING) && JAL_PADDING.isDummy == 0 && JAL_PADDING.timestamp == 0
  {
    PaddingImmediate(p);
    PaddingSums(p);
    hide Decomposes, ImmediateBytes, U32Add, U32PlusFour;
    MultipleIsZero(p, 0);
  }

  lemma {:induction false} SameProgram(program: seq<byte>, n: nat)
    requires Execute(program, n).Stepped?
    ensures Execute(program, n).state.program == program
  {
    hide DecodeInstruction, WordAt, Fits, OperationsOf, RegistersAfter, NextPc;
    if n > 0 {
      SameProgram(program, n - 1);
    }
  }

  lemma {:induction false} LinkFits(pc: word)
    requires pc + 4 < TWO32
    ensures Wrap(pc + 4) == pc + 4
  {
  }
}
