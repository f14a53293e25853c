/** Rows of the two-source instruction tables from the execution trace: SRA, SLT and SUB. */
module RTypeTrace {
  import opened Words
  import opened PrimeField
  import opened Rv32
  import opened Vm
  import opened RunRows
  import opened U32Ops
  import opened U32Witness
  import opened ByteTables
  import opened Shifts
  import opened Subtract
  import opened Heights
  import opened Decode

  /** What the trace builders take from a logged step: three operations and the instruction. */
  datatype RStep = RStep(pc: word, timestamp: word, rd: reg, rs1: reg, rs2: reg,
                         v1: word, v2: word, oldRd: word, rdNew: word)

  /** `extract_*_steps` of one step, for the instruction with identifier id. */
  function RStepOf(step: ExecutionStep, id: nat): Option<RStep> {
    var i, ops := step.instruction, step.memoryOps;
    if Id(i) == id && IsRType(i) && |ops| == 3 && ops[0].Read? && ops[1].Read? && ops[2].Write? then
      Some(RStep(step.pc, ops[0].timestamp, i.rd, i.rs1, i.rs2, ops[0].value, ops[1].value, ops[2].oldValue, ops[2].newValue))
    else None
  }

  function RSteps(trace: seq<ExecutionStep>, id: nat): seq<RStep> {
    if |trace| == 0 then []
    else
      var o := RStepOf(trace[|trace| - 1], id);
      RSteps(trace[..|trace| - 1], id) + if o.Some? then [o.value] else []
  }

  function Listed(o: Option<RStep>): seq<RStep> {
    if o.Some? then [o.value] else []
  }

  /** The step of instruction i in state s, read off the machine itself. */
  function MachineRStep(s: VmState, i: Instruction, id: nat): Option<RStep> {
    var regs := LastRegisters(s.trace);
    if Id(i) == id && IsRType(i) then
      Some(RStep(s.pc, s.timestamp, i.rd, i.rs1, i.rs2, regs[i.rs1], regs[i.rs2], regs[i.rd], ResultIn(i, regs, s.pc)))
    else None
  }

  /** The steps with identifier id of a run, from the states the machine went through. */
  function MachineRSteps(program: seq<byte>, n: nat, id: nat): seq<RStep>
    requires Execute(program, n).Stepped?
  {
    if n == 0 then []
    else
      var s := Execute(program, n - 1).state;
      MachineRSteps(program, n - 1, id) + Listed(MachineRStep(s, DecodeInstruction(WordAt(s.program, s.pc)).value, id))
  }

  lemma {:induction false} RStepIsMachine(s: VmState, w: word, i: Instruction, id: nat)
    requires Fits(s, i)
    ensures RStepOf(StepOf(s, w, i), id) == MachineRStep(s, i, id)
  {
    hide Result, RegistersAfter, Id;
  }

  lemma {:induction false} RStepsNext(trace: seq<ExecutionStep>, step: ExecutionStep, id: nat)
    ensures RSteps(trace + [step], id) == RSteps(trace, id) + Listed(RStepOf(step, id))
  {
    hide RStepOf;
    assert (trace + [step])[..|trace|] == trace;
  }

  lemma {:induction false} NoRSteps(program: seq<byte>, id: nat)
    ensures Execute(program, 0) == Stepped(InitialState(program)) && RSteps(InitialState(program).trace, id) == []
    ensures MachineRSteps(program, 0, id) == []
  {
  }

  /**
   * In every run the steps a trace builder extracts are exactly those of the machine with its
   * instruction: pc, timestamp on entry, source registers, old and new value of rd, in order.
   */
  lemma {:induction false} ExtractedAreMachineSteps(program: seq<byte>, n: nat, id: nat)
    requires Execute(program, n).Stepped?
    ensures RSteps(Execute(program, n).state.trace, id) == MachineRSteps(program, n, id)
  {
    hide RStepOf, MachineRStep, StepState, StateAfter, Fits, StepOf, WordAt, DecodeInstruction, RSteps, Listed;
    if n == 0 {
      NoRSteps(program, id);
    } else {
      var s, s', i := LastSteps(program, n);
      hide Execute;
      assert MachineRSteps(program, n, id) == MachineRSteps(program, n - 1, id) + Listed(MachineRStep(s, i, id));
      hide MachineRSteps;
      ExtractedAreMachineSteps(program, n - 1, id);
      RStepIsMachine(s, WordAt(s.program, s.pc), i, id);
      RStepsNext(s.trace, StepOf(s, WordAt(s.program, s.pc), i), id);
    }
  }

  // SRA.

  function SraRowOf(s: RStep): SraColumns
    requires s.pc + 4 < TWO32
  {
    FillSra(s.pc, s.timestamp, s.rd, s.rs1, s.rs2, s.v1, s.v2, s.oldRd, s.rdNew)
  }

  const SRA_PADDING := SraColumns(
    [0, 0, 0, 0], 0, 0, 0, 0, [0, 0, 0, 0], [0, 0, 0, 0], [0, 0, 0, 0], [0, 0, 0, 0],
    Amount(0, 0, 0, [1, 0, 0, 0]), [0, 0, 0, 0], [0, 0, 0, 0], 0, 0, 0, 0, 0, [4, 0, 0, 0], [0, 0, 0], 0)

  /** The byte loop of the SRA `fill_row`. */
  method ShiftBytes(b: Limbs, bitShamt: nat) returns (shifted: Limbs, carry: Limbs)
    requires AreBytes(b) && bitShamt < 8
    ensures forall i :: 0 <= i < 4 ==> IsByte(b[i])
    ensures forall i :: 0 <= i < 4 ==> shifted[i] == SrlRow(b[i], bitShamt).shifted
    ensures forall i :: 0 <= i < 4 ==> carry[i] == SrlRow(b[i], bitShamt).carry
  {
    hide Pow2;
    shifted, carry := [0, 0, 0, 0], [0, 0, 0, 0];
    assert forall i :: 0 <= i < 4 ==> IsByte(b[i]);
    for i := 0 to 4
      invariant forall j :: 0 <= j < i ==> shifted[j] == SrlRow(b[j], bitShamt).shifted
      invariant forall j :: 0 <= j < i ==> carry[j] == SrlRow(b[j], bitShamt).carry
    {
      var byteVal := b[i];
      var c := if bitShamt == 0 then 0 else (byteVal * Pow2(8 - bitShamt)) % 256;
      shifted, carry := shifted[i := byteVal / Pow2(bitShamt)], carry[i := c];
    }
  }

  method FillSraRow(s: RStep) returns (row: SraColumns)
    requires s.pc + 4 < TWO32
    ensures row == SraRowOf(s)
  {
    ToLimbsValue(s.v1);
    hide ToLimbs, SrlRow, PcPlus4Carries, Value;
    var amount, b := AmountOf(s.v2), ToLimbs(s.v1);
    var shifted, carry := ShiftBytes(b, amount.bitShamt);
    var signBit := s.v1 / TWO31;
    var ff := SrlRow(0xFF, amount.bitShamt);
    row := SraColumns(ToLimbs(s.pc), s.timestamp, s.rd, s.rs1, s.rs2, b, ToLimbs(s.v2), ToLimbs(s.oldRd), ToLimbs(s.rdNew),
                      amount, shifted, carry, signBit, signBit * 255, b[3] % 128, ff.shifted, ff.carry,
                      ToLimbs(s.pc + 4), PcPlus4Carries(s.pc), 1);
  }

  /** `sra::trace::build_trace` */
  method BuildSra(steps: seq<RStep>) returns (rows: array<SraColumns>)
    requires |steps| > 0 && forall k :: 0 <= k < |steps| ==> steps[k].pc + 4 < TWO32
    ensures fresh(rows) && rows.Length == PaddedHeight(|steps|)
    ensures forall k :: 0 <= k < |steps| ==> rows[k] == SraRowOf(steps[k])
    ensures forall k :: |steps| <= k < rows.Length ==> rows[k] == SRA_PADDING
  {
    hide SraRowOf, PaddedHeight;
    rows := new SraColumns[PaddedHeight(|steps|)](_ => SRA_PADDING.(isDummy := 0));
    for k := 0 to |steps|
      invariant forall j :: 0 <= j < k ==> rows[j] == SraRowOf(steps[j])
    {
      rows[k] := FillSraRow(steps[k]);
    }
    for k := |steps| to rows.Length
      invariant forall j :: 0 <= j < |steps| ==> rows[j] == SraRowOf(steps[j])
      invariant forall j :: |steps| <= j < k ==> rows[j] == SRA_PADDING
    {
      rows[k] := SRA_PADDING;
    }
  }

  lemma {:induction false} PaddingPlusFour(p: int)
    requires p > 1
    ensures U32PlusFour(p, [0, 0, 0, 0], [4, 0, 0, 0], [0, 0, 0])
  {
    MultipleIsZero(p, 0);
    BoolsAccepted(p, [0, 0, 0]);
  }

  lemma {:induction false} SraPaddingAccepted(p: int)
    requires p > 1
    ensures SraEval(p, SRA_PADDING) && SraResidues(p, SRA_PADDING) && SRA_PADDING.isDummy == 0 && SRA_PADDING.timestamp == 0
  {
    PaddingPlusFour(p);
    BoolsAccepted(p, SRA_PADDING.amount.isBs);
    MultipleIsZero(p, 0);
    hide U32PlusFour;
  }

  // SLT.

  function SltRowOf(s: RStep): SltColumns
    requires s.pc + 4 < TWO32
  {
    FillSlt(s.pc, s.timestamp, s.rd, s.rs1, s.rs2, s.v1, s.v2, s.oldRd)
  }

  const SLT_PADDING := SltColumns(
    [0, 0, 0, 0], 0, 0, 0, 0, [0, 0, 0, 0], [0, 0, 0, 0], [0, 0, 0, 0], [0, 0, 0, 0], [0, 0, 0, 0],
    0, 0, 0, 0, 0, [4, 0, 0, 0], [0, 0, 0], 0)

  method FillSltRow(s: RStep) returns (row: SltColumns)
    requires s.pc + 4 < TWO32
    ensures row == SltRowOf(s)
  {
    hide ToLimbs, BorrowsOf, PcPlus4Carries, Wrap;
    var a, b := ToLimbs(s.v1), ToLimbs(s.v2);
    var diff, borrows := SltBorrows(s.v1, s.v2);
    var ltResult := if Signed(s.v1) < Signed(s.v2) then 1 else 0;
    row := SltColumns(ToLimbs(s.pc), s.timestamp, s.rd, s.rs1, s.rs2, a, b, ToLimbs(s.oldRd), diff, borrows,
                      s.v1 / TWO31, s.v2 / TWO31, a[3] % 128, b[3] % 128, ltResult,
                      ToLimbs(s.pc + 4), PcPlus4Carries(s.pc), 1);
  }

  /** `slt::trace::build_trace` */
  method BuildSlt(steps: seq<RStep>) returns (rows: array<SltColumns>)
    requires |steps| > 0 && forall k :: 0 <= k < |steps| ==> steps[k].pc + 4 < TWO32
    ensures fresh(rows) && rows.Length == PaddedHeight(|steps|)
    ensures forall k :: 0 <= k < |steps| ==> rows[k] == SltRowOf(steps[k])
    ensures forall k :: |steps| <= k < rows.Length ==> rows[k] == SLT_PADDING
  {
    hide SltRowOf, PaddedHeight;
    rows := new SltColumns[PaddedHeight(|steps|)](_ => SLT_PADDING);
    for k := 0 to |steps|
      invariant forall j :: 0 <= j < k ==> rows[j] == SltRowOf(steps[j])
    {
      rows[k] := FillSltRow(steps[k]);
    }
    for k := |steps| to rows.Length
      invariant forall j :: 0 <= j < |steps| ==> rows[j] == SltRowOf(steps[j])
      invariant forall j :: |steps| <= j < k ==> rows[j] == SLT_PADDING
    {
      rows[k] := SLT_PADDING;
    }
  }

  lemma {:induction false} SltPaddingAccepted(p: int)
    requires p > 1
    ensures SltEval(p, SLT_PADDING) && SltResidues(p, SLT_PADDING) && SLT_PADDING.isDummy == 0 && SLT_PADDING.timestamp == 0
  {
    PaddingPlusFour(p);
    BoolsAccepted(p, SLT_PADDING.borrow);
    MultipleIsZero(p, 0);
    hide U32PlusFour;
  }

  // SUB.

  function SubRowOf(s: RStep): SubColumns
    requires s.pc + 4 < TWO32
  {
    FillSub(s.pc, s.timestamp, s.rd, s.rs1, s.rs2, s.v1, s.v2, s.oldRd, s.rdNew)
  }

  const SUB_PADDING := SubColumns(
    [0, 0, 0, 0], 0, 0, 0, 0, [0, 0, 0, 0], [0, 0, 0, 0], [0, 0, 0, 0], [0, 0, 0, 0], [0, 0, 0, 0],
    [4, 0, 0, 0], [0, 0, 0], 0)

  method FillSubRow(s: RStep) returns (row: SubColumns)
    requires s.pc + 4 < TWO32
    ensures row == SubRowOf(s)
  {
    hide ToLimbs, BorrowsOf, PcPlus4Carries;
    var borrows := SubBorrows(s.v1, s.v2);
    row := SubColumns(ToLimbs(s.pc), s.timestamp, s.rd, s.rs1, s.rs2, ToLimbs(s.v1), ToLimbs(s.v2), ToLimbs(s.oldRd),
                      ToLimbs(s.rdNew), borrows, ToLimbs(s.pc + 4), PcPlus4Carries(s.pc), 1);
  }

  /** `sub::trace::build_trace` */
  method BuildSub(steps: seq<RStep>) returns (rows: array<SubColumns>)
    requires |steps| > 0 && forall k :: 0 <= k < |steps| ==> steps[k].pc + 4 < TWO32
    ensures fresh(rows) && rows.Length == PaddedHeight(|steps|)
    ensures forall k :: 0 <= k < |steps| ==> rows[k] == SubRowOf(steps[k])
    ensures forall k :: |steps| <= k < rows.Length ==> rows[k] == SUB_PADDING
  {
    hide SubRowOf, PaddedHeight;
    rows := new SubColumns[PaddedHeight(|steps|)](_ => SUB_PADDING);
    for k := 0 to |steps|
      invariant forall j :: 0 <= j < k ==> rows[j] == SubRowOf(steps[j])
    {
      rows[k] := FillSubRow(steps[k]);
    }
    for k := |steps| to rows.Length
      invariant forall j :: 0 <= j < |steps| ==> rows[j] == SubRowOf(steps[j])
      invariant forall j :: |steps| <= j < k ==> rows[j] == SUB_PADDING
    {
      rows[k] := SUB_PADDING;
    }
  }

  lemma {:induction false} SubPaddingAccepted(p: int)
    requires p > 1
    ensures SubEval(p, SUB_PADDING) && SUB_PADDING.isDummy == 0 && SUB_PADDING.timestamp == 0
  {
    PaddingPlusFour(p);
    BoolsAccepted(p, SUB_PADDING.subBorrows);
    MultipleIsZero(p, 0);
    hide U32PlusFour;
  }
}
