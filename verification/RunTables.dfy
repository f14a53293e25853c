/**
 * The rows trace generation makes of the steps of a run: each meets the constraints of its table, has its
 * open columns right, shows the machine's columns on the shared buses and looks up what is counted for it.
 */
module RunTables {
  import opened Words
  import opened PrimeField
  import opened Rv32
  import opened Vm
  import opened Encoding
  import opened U32Ops
  import opened U32Witness
  import opened Bits
  import opened ByteTables
  import opened Shifts
  import opened Subtract
  import opened Decode
  import opened Jal
  import opened JalAir
  import opened JalrAir
  import opened RunRows
  import opened RTypeTrace
  import opened JalTrace
  import opened Multiplicities
  import opened Lookups
  import opened RowBuses
  import opened InstructionRows
  import opened TableRows
  import opened RunBuses

  function OldValue(step: ExecutionStep): word {
    var n := |step.memoryOps|;
    if n >= 1 && step.memoryOps[n - 1].Write? then step.memoryOps[n - 1].oldValue else 0
  }

  /** The bus columns of the row of a step in a table that is not modelled. */
  function OtherBusRow(step: ExecutionStep, entry: nat): BusRow {
    var i := step.instruction;
    BusRow(Id(i), ToLimbs(step.pc), RowTime(step, entry), i.rd, if UsesLow8(i) then 0 else i.rs1, LastField(i),
           LowField(i), ToLimbs(FirstRead(step)), ToLimbs(SecondRead(step)), ToLimbs(OldValue(step)),
           ToLimbs(NewValue(step)), ToLimbs(Wrap(step.pc + 4)), 1, 1)
  }

  function SllRowOf(s: RStep): SllColumns
    requires s.pc + 4 < TWO32
  {
    FillSll(s.pc, s.timestamp, s.rd, s.rs1, s.rs2, s.v1, s.v2, s.oldRd, s.rdNew)
  }

  predicate Modelled(i: Instruction) {
    i.Sra? || i.Sll? || i.Slt? || i.Sub?
  }

  function RTypeRow(i: Instruction, r: RStep): TableRow
    requires Modelled(i) && r.pc + 4 < TWO32
  {
    if i.Sra? then InSra(SraRowOf(r)) else if i.Sll? then InSll(SllRowOf(r)) else if i.Slt? then InSlt(SltRowOf(r)) else InSub(SubRowOf(r))
  }

  /** The row trace generation makes of a step that starts at the given time. */
  ghost function TableRowOf(p: int, step: ExecutionStep, entry: nat): TableRow
    requires LargePrime(p)
  {
    var i, r, j := step.instruction, RStepOf(step, Id(step.instruction)), JalStepOf(step, entry);
    if Modelled(i) && r.Some? && step.pc + 4 < TWO32 then RTypeRow(i, r.value)
    else if i.Jal? && j.Some? then InJal(JalRow(p, j.value))
    else if i.Jalr? then
      InJalr(FillJalr(step.pc, RowTime(step, entry), i.rd, i.rs1, i.imm, FirstRead(step), OldValue(step), NewValue(step)))
    else InOther(OtherBusRow(step, entry), Expand(Sent(step)), ShiftSends(step, true), ShiftSends(step, false))
  }

  /** What the tables need of the row of instruction i in state s. */
  ghost predicate Made(p: int, t: TableRow, s: VmState, w: word, i: Instruction)
    requires p > 0 && Fits(s, i)
  {
    var step := StepOf(s, w, i);
    && Constrained(p, t) && OpenColumnsRight(t) && BusRowOf(t) == MachineBusRow(s, i)
    && BytesOf(t) == Expand(Sent(step)) && LeftOf(t) == ShiftSends(step, true) && RightOf(t) == ShiftSends(step, false)
  }

  // The step.

  lemma {:induction false} StepSays(s: VmState, w: word, i: Instruction)
    requires Fits(s, i)
    ensures var step, regs := StepOf(s, w, i), LastRegisters(s.trace);
            && step.instruction == i && step.pc == s.pc && RowTime(step, s.timestamp) == s.timestamp
            && FirstRead(step) == Rs1Value(i, regs) && SecondRead(step) == Rs2Value(i, regs)
            && OldValue(step) == (if SilentJal(i) then 0 else regs[i.rd])
            && NewValue(step) == (if SilentJal(i) then 0 else ResultIn(i, regs, s.pc))
  {
    hide Result, RegistersAfter, NextPcFrom;
  }

  lemma {:induction false} StepSends(s: VmState, w: word, i: Instruction)
    requires Fits(s, i)
    ensures var step, regs := StepOf(s, w, i), LastRegisters(s.trace);
            Sent(step) == SentItems(i, s.pc, Rs1Value(i, regs), Rs2Value(i, regs), if SilentJal(i) then 0 else ResultIn(i, regs, s.pc))
  {
    hide *;
    StepSays(s, w, i);
    SentOf(StepOf(s, w, i));
  }

  lemma {:induction false} SentOf(step: ExecutionStep)
    ensures Sent(step) == SentItems(step.instruction, step.pc, FirstRead(step), SecondRead(step), NewValue(step))
  {
  }

  lemma {:induction false} NoShift(s: VmState, w: word, i: Instruction, left: bool)
    requires Fits(s, i) && if left then !i.Sll? && !i.SlliI? else !i.Srl? && !i.Sra? && !i.SrliI? && !i.SraiI?
    ensures ShiftSends(StepOf(s, w, i), left) == []
  {
    hide Result, RegistersAfter, NextPcFrom, OperationsOf;
  }

  lemma {:induction false} ExpandNext(items: seq<Item>, x: Item)
    ensures Expand(items + [x]) == Expand(items) + ItemBytes(x)
  {
    hide ItemBytes;
    assert (items + [x])[..|items|] == items;
  }

  lemma {:induction false} ExpandThree(a: Item, b: Item, c: Item)
    ensures Expand([a, b]) == ItemBytes(a) + ItemBytes(b) && Expand([a, b, c]) == ItemBytes(a) + ItemBytes(b) + ItemBytes(c)
  {
    ExpandOne(a);
    ExpandNext([a], b);
    ExpandNext([a, b], c);
    hide Expand, ItemBytes;
    assert [a] + [b] == [a, b] && [a, b] + [c] == [a, b, c];
  }

  lemma {:induction false} WholeBytes(v: word)
    ensures ItemBytes(Whole(v)) == Column(ToLimbs(v)) && ItemBytes(Single(Low7(v))) == [ToLimbs(v)[3] % 128]
    ensures ItemBytes(Single(ShamtHigh(v))) == [AmountOf(v).rs2ShamtHigh] && AmountOf(v).bitShamt == v % 32 % 8
  {
    ToLimbsValue(v);
    assert v / 16777216 % 256 % 128 == v / 16777216 % 128;
  }

  // SRA.

  lemma {:induction false} SraSends(pc: word, ts: nat, rd: reg, rs1: reg, rs2: reg, v1: word, v2: word, oldRd: word, rdNew: word)
    requires pc + 4 < TWO32
    ensures var r := FillSra(pc, ts, rd, rs1, rs2, v1, v2, oldRd, rdNew);
            && SraByteSends(r) == Expand([Whole(v2), Single(ShamtHigh(v2)), Whole(rdNew), Single(Low7(v1))])
            && SraShiftSends(r) == FourTuples(false, v1, v2 % 32 % 8) + [SrlRow(0xFF, v2 % 32 % 8)]
            && SraBusRow(r) == BusRow(11, ToLimbs(pc), ts, rd, rs1, rs2, 0, ToLimbs(v1), ToLimbs(v2), ToLimbs(oldRd), ToLimbs(rdNew),
                                      ToLimbs(pc + 4), 1, 1)
  {
    WholeBytes(v1);
    WholeBytes(v2);
    WholeBytes(rdNew);
    ToLimbsValue(v1);
    var items := [Whole(v2), Single(ShamtHigh(v2)), Whole(rdNew)];
    hide ToLimbs, Expand, ItemBytes, Low7, ShamtHigh, AmountOf, PcPlus4Carries;
    ExpandThree(items[0], items[1], items[2]);
    ExpandNext(items, Single(Low7(v1)));
    assert items + [Single(Low7(v1))] == [Whole(v2), Single(ShamtHigh(v2)), Whole(rdNew), Single(Low7(v1))];
    ShiftRowBack(false, ToLimbs(v1), v2 % 32 % 8);
  }

  /** A table row keeps the byte and the amount it is looked up by. */
  lemma {:induction false} ShiftRowBack(left: bool, b: Limbs, s: nat)
    requires AreBytes(b) && s < 8
    ensures forall k :: 0 <= k < 4 ==> IsByte(b[k]) && TupleFor(left, b[k], s).byteVal == b[k] && TupleFor(left, b[k], s).bitShamt == s
  {
  }

  lemma {:induction false} SraReady(p: int, r: RStep)
    requires LargePrime(p) && r.pc + 4 < TWO32 && r.timestamp < p && r.rdNew == Sra32(r.v1, r.v2 % 32)
    ensures Constrained(p, InSra(SraRowOf(r))) && OpenColumnsRight(InSra(SraRowOf(r)))
  {
    SraFilled(p, r);
    hide SraEval, SraLookups, FillSra, IsPrime, Sra32, SraResidues, Value;
    SraComplete(p, r.pc, r.timestamp, r.rd, r.rs1, r.rs2, r.v1, r.v2, r.oldRd, r.rdNew);
  }

  lemma {:induction false} SraFilled(p: int, r: RStep)
    requires p > 256 && r.pc + 4 < TWO32 && r.timestamp < p
    ensures var row := SraRowOf(r);
            SraResidues(p, row) && row.isDummy == 1 && row.timestamp == r.timestamp && Residue(p, r.timestamp) && Residue(p, 1)
  {
    hide ToLimbs, SrlRow, PcPlus4Carries;
  }

  // SLL.

  lemma {:induction false} SllSends(pc: word, ts: nat, rd: reg, rs1: reg, rs2: reg, v1: word, v2: word, oldRd: word, rdNew: word)
    requires pc + 4 < TWO32
    ensures var r := FillSll(pc, ts, rd, rs1, rs2, v1, v2, oldRd, rdNew);
            && SllByteSends(r) == Expand([Whole(v2), Single(ShamtHigh(v2)), Whole(rdNew)])
            && SllShiftSends(r) == FourTuples(true, v1, v2 % 32 % 8)
            && SllBusRow(r) == BusRow(9, ToLimbs(pc), ts, rd, rs1, rs2, 0, ToLimbs(v1), ToLimbs(v2), ToLimbs(oldRd), ToLimbs(rdNew),
                                      ToLimbs(pc + 4), 1, 1)
  {
    WholeBytes(v2);
    WholeBytes(rdNew);
    ToLimbsValue(v1);
    hide ToLimbs, Expand, ItemBytes, Low7, ShamtHigh, AmountOf, PcPlus4Carries;
    ExpandThree(Whole(v2), Single(ShamtHigh(v2)), Whole(rdNew));
    ShiftRowBack(true, ToLimbs(v1), v2 % 32 % 8);
  }

  lemma {:induction false} SllReady(p: int, r: RStep)
    requires LargePrime(p) && r.pc + 4 < TWO32 && r.timestamp < p && r.rdNew == Shl(r.v1, r.v2 % 32)
    ensures Constrained(p, InSll(SllRowOf(r))) && OpenColumnsRight(InSll(SllRowOf(r)))
  {
    SllFilled(p, r);
    hide SllEval, SllLookups, FillSll, IsPrime, Shl;
    SllComplete(p, r.pc, r.timestamp, r.rd, r.rs1, r.rs2, r.v1, r.v2, r.oldRd, r.rdNew);
  }

  lemma {:induction false} SllFilled(p: int, r: RStep)
    requires p > 256 && r.pc + 4 < TWO32 && r.timestamp < p
    ensures var row := SllRowOf(r);
            && Residue(p, row.amount.byteShamt) && row.isDummy == 1 && row.timestamp == r.timestamp && Residue(p, r.timestamp)
            && Residue(p, 1)
  {
    hide ToLimbs, SllRow, PcPlus4Carries;
  }

  // SLT and SUB.

  lemma {:induction false} SltSends(pc: word, ts: nat, rd: reg, rs1: reg, rs2: reg, v1: word, v2: word, oldRd: word)
    requires pc + 4 < TWO32
    ensures var r := FillSlt(pc, ts, rd, rs1, rs2, v1, v2, oldRd);
            && SltByteSends(r) == Expand([Whole(v1), Whole(v2), Whole(Wrap(v1 - v2)), Single(Low7(v1)), Single(Low7(v2))])
            && SltBusRow(r) == BusRow(15, ToLimbs(pc), ts, rd, rs1, rs2, 0, ToLimbs(v1), ToLimbs(v2), ToLimbs(oldRd),
                                      ToLimbs(Flag(Signed(v1) < Signed(v2))), ToLimbs(pc + 4), 1, 1)
  {
    WholeBytes(v1);
    WholeBytes(v2);
    WholeBytes(Wrap(v1 - v2));
    FlagLimbs(Signed(v1) < Signed(v2));
    var items := [Whole(v1), Whole(v2), Whole(Wrap(v1 - v2))];
    hide ToLimbs, Expand, ItemBytes, Low7, PcPlus4Carries, Wrap, Signed, BorrowsOf;
    ExpandThree(items[0], items[1], items[2]);
    ExpandNext(items, Single(Low7(v1)));
    ExpandNext(items + [Single(Low7(v1))], Single(Low7(v2)));
    assert items + [Single(Low7(v1))] + [Single(Low7(v2))]
        == [Whole(v1), Whole(v2), Whole(Wrap(v1 - v2)), Single(Low7(v1)), Single(Low7(v2))];
  }

  lemma {:induction false} FlagLimbs(b: bool)
    ensures ToLimbs(Flag(b)) == [Flag(b), 0, 0, 0]
  {
  }

  lemma {:induction false} SltReady(p: int, r: RStep)
    requires LargePrime(p) && r.pc + 4 < TWO32 && r.timestamp < p
    ensures Constrained(p, InSlt(SltRowOf(r))) && OpenColumnsRight(InSlt(SltRowOf(r)))
  {
    SltFilled(p, r);
    hide SltEval, SltLookups, FillSlt, IsPrime, Signed, SltResidues;
    SltComplete(p, r.pc, r.timestamp, r.rd, r.rs1, r.rs2, r.v1, r.v2, r.oldRd);
  }

  lemma {:induction false} SltFilled(p: int, r: RStep)
    requires p > 256 && r.pc + 4 < TWO32 && r.timestamp < p
    ensures var row := SltRowOf(r);
            SltResidues(p, row) && row.isDummy == 1 && row.timestamp == r.timestamp && Residue(p, r.timestamp) && Residue(p, 1)
  {
    hide ToLimbs, PcPlus4Carries, BorrowsOf, Signed;
  }

  lemma {:induction false} SubSends(pc: word, ts: nat, rd: reg, rs1: reg, rs2: reg, v1: word, v2: word, oldRd: word, rdNew: word)
    requires pc + 4 < TWO32
    ensures var r := FillSub(pc, ts, rd, rs1, rs2, v1, v2, oldRd, rdNew);
            && SubByteSends(r) == Expand([Whole(v1), Whole(v2), Whole(rdNew)])
            && SubBusRow(r) == BusRow(5, ToLimbs(pc), ts, rd, rs1, rs2, 0, ToLimbs(v1), ToLimbs(v2), ToLimbs(oldRd), ToLimbs(rdNew),
                                      ToLimbs(pc + 4), 1, 1)
  {
    WholeBytes(v1);
    WholeBytes(v2);
    WholeBytes(rdNew);
    hide ToLimbs, Expand, ItemBytes, PcPlus4Carries, BorrowsOf;
    ExpandThree(Whole(v1), Whole(v2), Whole(rdNew));
  }

  lemma {:induction false} SubReady(p: int, r: RStep)
    requires LargePrime(p) && r.pc + 4 < TWO32 && r.timestamp < p && r.rdNew == Wrap(r.v1 - r.v2)
    ensures Constrained(p, InSub(SubRowOf(r))) && OpenColumnsRight(InSub(SubRowOf(r)))
  {
    SubFilled(p, r);
    hide SubEval, SubLookups, FillSub, IsPrime, Wrap;
    SubComplete(p, r.pc, r.timestamp, r.rd, r.rs1, r.rs2, r.v1, r.v2, r.oldRd, r.rdNew);
  }

  lemma {:induction false} SubFilled(p: int, r: RStep)
    requires p > 256 && r.pc + 4 < TWO32 && r.timestamp < p
    ensures var row := SubRowOf(r);
            row.isDummy == 1 && row.timestamp == r.timestamp && Residue(p, r.timestamp) && Residue(p, 1)
  {
    hide ToLimbs, PcPlus4Carries, BorrowsOf;
  }

  // The four together.

  ghost predicate RowFits(i: Instruction, r: RStep)
    requires Modelled(i)
  {
    && r.pc + 4 < TWO32
    && r.rdNew == (if i.Sra? then Sra32(r.v1, r.v2 % 32) else if i.Sll? then Shl(r.v1, r.v2 % 32)
                   else if i.Slt? then Flag(Signed(r.v1) < Signed(r.v2)) else Wrap(r.v1 - r.v2))
  }

  lemma {:induction false} RTypeReady(p: int, i: Instruction, r: RStep)
    requires LargePrime(p) && Modelled(i) && RowFits(i, r) && r.timestamp < p
    ensures Constrained(p, RTypeRow(i, r)) && OpenColumnsRight(RTypeRow(i, r))
  {
    hide Constrained, OpenColumnsRight, LargePrime, SraRowOf, SllRowOf, SltRowOf, SubRowOf, Sra32, Shl, Signed, Wrap;
    if i.Sra? {
      SraReady(p, r);
    } else if i.Sll? {
      SllReady(p, r);
    } else if i.Slt? {
      SltReady(p, r);
    } else {
      SubReady(p, r);
    }
  }

  lemma {:induction false} RTypeSends(i: Instruction, r: RStep)
    requires Modelled(i) && RowFits(i, r)
    ensures var t := RTypeRow(i, r);
            && BytesOf(t) == Expand(SentItems(i, r.pc, r.v1, r.v2, r.rdNew))
            && LeftOf(t) == (if i.Sll? then FourTuples(true, r.v1, r.v2 % 32 % 8) else [])
            && RightOf(t) == (if i.Sra? then FourTuples(false, r.v1, r.v2 % 32 % 8) + [SrlRow(0xFF, r.v2 % 32 % 8)] else [])
            && BusRowOf(t) == BusRow(Id(i), ToLimbs(r.pc), r.timestamp, r.rd, r.rs1, r.rs2, 0, ToLimbs(r.v1), ToLimbs(r.v2),
                                     ToLimbs(r.oldRd), ToLimbs(r.rdNew), ToLimbs(r.pc + 4), 1, 1)
  {
    hide ToLimbs, Expand, FourTuples, SrlRow, Sra32, Shl, Signed, Wrap, ShamtHigh, Low7, SraByteSends, SllByteSends, SltByteSends,
         SubByteSends, SraShiftSends, SllShiftSends, SraBusRow, SllBusRow, SltBusRow, SubBusRow, FillSra, FillSll, FillSlt, FillSub, Flag;
    if i.Sra? {
      SraSends(r.pc, r.timestamp, r.rd, r.rs1, r.rs2, r.v1, r.v2, r.oldRd, r.rdNew);
    } else if i.Sll? {
      SllSends(r.pc, r.timestamp, r.rd, r.rs1, r.rs2, r.v1, r.v2, r.oldRd, r.rdNew);
    } else if i.Slt? {
      SltSends(r.pc, r.timestamp, r.rd, r.rs1, r.rs2, r.v1, r.v2, r.oldRd);
    } else {
      SubSends(r.pc, r.timestamp, r.rd, r.rs1, r.rs2, r.v1, r.v2, r.oldRd, r.rdNew);
    }
  }

  lemma {:induction false} MachineStep(s: VmState, w: word, i: Instruction)
    requires Fits(s, i) && Modelled(i)
    ensures RStepOf(StepOf(s, w, i), Id(i)) == MachineRStep(s, i, Id(i)) && MachineRStep(s, i, Id(i)).Some?
    ensures var r := MachineRStep(s, i, Id(i)).value;
            && MachineBusRow(s, i) == BusRow(Id(i), ToLimbs(r.pc), r.timestamp, r.rd, r.rs1, r.rs2, 0, ToLimbs(r.v1), ToLimbs(r.v2),
                                             ToLimbs(r.oldRd), ToLimbs(r.rdNew), ToLimbs(r.pc + 4), 1, 1)
            && SentItems(i, s.pc, Rs1Value(i, LastRegisters(s.trace)), Rs2Value(i, LastRegisters(s.trace)),
                         ResultIn(i, LastRegisters(s.trace), s.pc)) == SentItems(i, r.pc, r.v1, r.v2, r.rdNew)
            && r.timestamp == s.timestamp && r.v1 == LastRegisters(s.trace)[i.rs1] && r.v2 == Rs2Value(i, LastRegisters(s.trace))
  {
    RStepIsMachine(s, w, i, Id(i));
    hide ToLimbs, Result, SentItems, StepOf, RStepOf, LastRegisters, Id;
  }

  lemma {:induction false} MachineFits(s: VmState, i: Instruction)
    requires Fits(s, i) && Modelled(i)
    ensures MachineRStep(s, i, Id(i)).Some? && RowFits(i, MachineRStep(s, i, Id(i)).value)
  {
    hide Sra32, Shl, Signed, Wrap, LastRegisters, Id;
  }

  lemma {:induction false} RTypeRowIs(p: int, s: VmState, w: word, i: Instruction, r: RStep)
    requires LargePrime(p) && Fits(s, i) && Modelled(i) && RStepOf(StepOf(s, w, i), Id(i)) == Some(r) && r.pc + 4 < TWO32
    ensures TableRowOf(p, StepOf(s, w, i), s.timestamp) == RTypeRow(i, r)
  {
    StepSays(s, w, i);
    hide StepOf, LargePrime, Id, RTypeRow, JalStepOf, RowTime, FirstRead, SecondRead, OldValue, NewValue;
  }

  lemma {:induction false} RTypeMade(p: int, s: VmState, w: word, i: Instruction)
    requires LargePrime(p) && Fits(s, i) && Modelled(i) && s.timestamp < p
    ensures Made(p, TableRowOf(p, StepOf(s, w, i), s.timestamp), s, w, i)
  {
    hide *;
    MachineStep(s, w, i);
    MachineFits(s, i);
    var r := MachineRStep(s, i, Id(i)).value;
    RowFitsPc(i, r);
    RTypeRowIs(p, s, w, i, r);
    RTypeReady(p, i, r);
    RTypeSends(i, r);
    StepSends(s, w, i);
    ShiftsOfRType(s, w, i);
    MadeFrom(p, RTypeRow(i, r), s, w, i);
  }

  lemma {:induction false} RowFitsPc(i: Instruction, r: RStep)
    requires Modelled(i) && RowFits(i, r)
    ensures r.pc + 4 < TWO32 && !SilentJal(i) && !i.Jal?
  {
  }

  lemma {:induction false} MadeFrom(p: int, t: TableRow, s: VmState, w: word, i: Instruction)
    requires LargePrime(p) && Fits(s, i) && Constrained(p, t) && OpenColumnsRight(t) && BusRowOf(t) == MachineBusRow(s, i)
    requires var step := StepOf(s, w, i);
             BytesOf(t) == Expand(Sent(step)) && LeftOf(t) == ShiftSends(step, true) && RightOf(t) == ShiftSends(step, false)
    ensures Made(p, t, s, w, i)
  {
    hide Constrained, OpenColumnsRight, BusRowOf, MachineBusRow, StepOf, BytesOf, LeftOf, RightOf, Expand, Sent, ShiftSends, IsPrime;
  }

  lemma {:induction false} ShiftsOfRType(s: VmState, w: word, i: Instruction)
    requires Fits(s, i) && Modelled(i)
    ensures var step, regs := StepOf(s, w, i), LastRegisters(s.trace);
            var v1, v2 := regs[i.rs1], Rs2Value(i, regs);
            && ShiftSends(step, true) == (if i.Sll? then FourTuples(true, v1, v2 % 32 % 8) else [])
            && ShiftSends(step, false) == (if i.Sra? then FourTuples(false, v1, v2 % 32 % 8) + [SrlRow(0xFF, v2 % 32 % 8)] else [])
  {
    if i.Sll? || i.Sra? {
      ShiftLogged(s, w, i);
    }
    if !i.Sll? {
      NoShift(s, w, i, true);
    }
    if !i.Sra? {
      NoShift(s, w, i, false);
    }
    hide StepOf, ShiftSends, FourTuples, SrlRow, ResultIn, NewValue, LastRegisters;
  }

  // JAL.

  lemma {:induction false} JalMade(p: int, s: VmState, w: word, i: Instruction)
    requires LargePrime(p) && Fits(s, i) && s.pc + 4 < TWO32 && s.timestamp < p && i.Jal? && HasEncoding(i)
    ensures Made(p, TableRowOf(p, StepOf(s, w, i), s.timestamp), s, w, i)
  {
    hide *;
    EncodedFits(i);
    EncodableIsOffset(i.imm);
    JalRowIs(p, s, w, i);
    var j := MachineJal(s, i).value;
    FilledConstrained(p, s.pc, s.timestamp, i.rd, i.imm, j.oldRdValue);
    JalColumnsAre(p, s, i);
    JalLooksUp(p, s, w, i, j.oldRdValue);
    MadeFrom(p, InJal(JalRow(p, j)), s, w, i);
  }

  lemma {:induction false} JalRowIs(p: int, s: VmState, w: word, i: Instruction)
    requires LargePrime(p) && Fits(s, i) && s.pc + 4 < TWO32 && i.Jal?
    ensures MachineJal(s, i).Some?
    ensures var j := MachineJal(s, i).value;
            && TableRowOf(p, StepOf(s, w, i), s.timestamp) == InJal(JalRow(p, j))
            && JalRow(p, j) == FillJal(p, s.pc, s.timestamp, i.rd, i.imm, s.pc + 4, j.oldRdValue)
  {
    hide LargePrime, FillJal, Rescrambled, Wrap, Id, StepOf, RTypeRow, JalStepOf, RowTime, FirstRead, OldValue, NewValue;
    StepSays(s, w, i);
    JalStepIsMachine(s, w, i);
    LinkFits(s.pc);
  }

  lemma {:induction false} FilledJalResidues(p: int, pc: word, timestamp: nat, rd: reg, imm: int, oldRd: word)
    requires LargePrime(p) && pc + 4 < TWO32 && Encodable(imm)
    ensures JalResidues(p, FillJal(p, pc, timestamp, rd, imm, pc + 4, oldRd))
  {
    EncodableIsOffset(imm);
    ToLimbsValue(Wrap(imm));
    hide Rescrambled, ToLimbs, ToBits, Wrap, Inverse, CarriesOf, PcPlus4Carries, IsPrime, Value, Offset;
    BitResidues(p, ToBits(Rescrambled(imm).0, 12));
    BitResidues(p, ToBits(Rescrambled(imm).1, 8));
  }

  lemma {:induction false} FilledConstrained(p: int, pc: word, timestamp: nat, rd: reg, imm: int, oldRd: word)
    requires LargePrime(p) && pc + 4 < TWO32 && Encodable(imm) && timestamp < p
    ensures var t := InJal(FillJal(p, pc, timestamp, rd, imm, pc + 4, oldRd)); Constrained(p, t) && OpenColumnsRight(t)
  {
    FilledGates(p, pc, timestamp, rd, imm, oldRd);
    hide FillJal, JalEval, JalResidues, LargePrime, AreBytes;
    FilledJalResidues(p, pc, timestamp, rd, imm, oldRd);
    JalComplete(p, pc, timestamp, rd, imm, oldRd);
  }

  lemma {:induction false} FilledGates(p: int, pc: word, timestamp: nat, rd: reg, imm: int, oldRd: word)
    requires LargePrime(p) && pc + 4 < TWO32 && timestamp < p
    ensures var b := BusRowOf(InJal(FillJal(p, pc, timestamp, rd, imm, pc + 4, oldRd)));
            b.isDummy == 1 && b.timestamp == timestamp && Residue(p, b.timestamp) && Residue(p, b.isDummy)
  {
    hide Rescrambled, ToLimbs, ToBits, Wrap, Inverse, CarriesOf, PcPlus4Carries, IsPrime;
  }

  lemma {:induction false} JalColumnsAre(p: int, s: VmState, i: Instruction)
    requires LargePrime(p) && Fits(s, i) && i.Jal?
    ensures BusRowOf(InJal(JalRow(p, MachineJal(s, i).value))) == MachineBusRow(s, i)
  {
    ZeroWord();
    hide ToLimbs, Wrap, PcPlus4Carries, CarriesOf, ToBits, Inverse, IsPrime, Rescrambled;
  }

  lemma {:induction false} JalSends(p: int, pc: word, timestamp: nat, rd: reg, imm: int, rdVal: word, oldRd: word)
    requires LargePrime(p)
    ensures var t := InJal(FillJal(p, pc, timestamp, rd, imm, rdVal, oldRd));
            BytesOf(t) == Expand([Whole(pc), Whole(rdVal)]) && LeftOf(t) == [] && RightOf(t) == []
  {
    WholeBytes(pc);
    WholeBytes(rdVal);
    hide ToLimbs, Wrap, PcPlus4Carries, CarriesOf, ToBits, Inverse, IsPrime, Rescrambled, Expand, ItemBytes;
    ExpandThree(Whole(pc), Whole(rdVal), Whole(pc));
  }

  lemma {:induction false} JalItems(s: VmState, i: Instruction, v1: word, v2: word, rd: word)
    requires i.Jal? && s.pc + 4 < TWO32
    ensures SentItems(i, s.pc, v1, v2, rd) == [Whole(s.pc), Whole(s.pc + 4)]
  {
    LinkFits(s.pc);
    hide Wrap;
  }

  lemma {:induction false} JalLooksUp(p: int, s: VmState, w: word, i: Instruction, oldRd: word)
    requires LargePrime(p) && Fits(s, i) && s.pc + 4 < TWO32 && i.Jal?
    ensures var t, step := InJal(FillJal(p, s.pc, s.timestamp, i.rd, i.imm, s.pc + 4, oldRd)), StepOf(s, w, i);
            && BytesOf(t) == Expand(Sent(step)) && LeftOf(t) == ShiftSends(step, true) && RightOf(t) == ShiftSends(step, false)
  {
    hide *;
    StepSends(s, w, i);
    NoShift(s, w, i, true);
    NoShift(s, w, i, false);
    var regs := LastRegisters(s.trace);
    JalItems(s, i, Rs1Value(i, regs), Rs2Value(i, regs), if SilentJal(i) then 0 else ResultIn(i, regs, s.pc));
    JalSends(p, s.pc, s.timestamp, i.rd, i.imm, s.pc + 4, oldRd);
  }

  // JALR.

  lemma {:induction false} JalrMade(p: int, s: VmState, w: word, i: Instruction)
    requires LargePrime(p) && Fits(s, i) && s.pc + 4 < TWO32 && s.timestamp < p && i.Jalr? && i.rd != 0 && HasEncoding(i)
    ensures Made(p, TableRowOf(p, StepOf(s, w, i), s.timestamp), s, w, i)
  {
    hide *;
    EncodedFits(i);
    var regs := LastRegisters(s.trace);
    var r := FillJalr(s.pc, s.timestamp, i.rd, i.rs1, i.imm, regs[i.rs1], regs[i.rd], s.pc + 4);
    JalrRowIs(p, s, w, i);
    JalrReady(p, s.pc, s.timestamp, i.rd, i.rs1, i.imm, regs[i.rs1], regs[i.rd]);
    JalrColumnsAre(s, i);
    JalrLooksUp(s, w, i);
    MadeFrom(p, InJalr(r), s, w, i);
  }

  lemma {:induction false} JalrRowIs(p: int, s: VmState, w: word, i: Instruction)
    requires LargePrime(p) && Fits(s, i) && s.pc + 4 < TWO32 && i.Jalr? && i.rd != 0
    ensures var regs := LastRegisters(s.trace);
            TableRowOf(p, StepOf(s, w, i), s.timestamp)
            == InJalr(FillJalr(s.pc, s.timestamp, i.rd, i.rs1, i.imm, regs[i.rs1], regs[i.rd], s.pc + 4))
  {
    LinkFits(s.pc);
    StepSays(s, w, i);
    hide LargePrime, FillJalr, Wrap, Id, StepOf, RTypeRow, JalStepOf, RowTime, FirstRead, OldValue, NewValue, RStepOf;
  }

  lemma {:induction false} JalrReady(p: int, pc: word, timestamp: nat, rd: reg, rs1: reg, imm: int, v1: word, oldRd: word)
    requires LargePrime(p) && pc + 4 < TWO32 && -2048 <= imm < 2048 && rd != 0 && timestamp < p
    ensures var t := InJalr(FillJalr(pc, timestamp, rd, rs1, imm, v1, oldRd, pc + 4)); Constrained(p, t) && OpenColumnsRight(t)
  {
    JalrFilled(p, pc, timestamp, rd, rs1, imm, v1, oldRd);
    hide FillJalr, JalrEval, JalrResidues, IsPrime;
    JalrComplete(p, pc, timestamp, rd, rs1, imm, v1, oldRd);
  }

  lemma {:induction false} JalrFilled(p: int, pc: word, timestamp: nat, rd: reg, rs1: reg, imm: int, v1: word, oldRd: word)
    requires LargePrime(p) && pc + 4 < TWO32 && timestamp < p
    ensures var r := FillJalr(pc, timestamp, rd, rs1, imm, v1, oldRd, pc + 4);
            && JalrResidues(p, r) && r.rd == rd && r.isDummy == 1 && r.timestamp == timestamp && Residue(p, r.timestamp)
            && Residue(p, r.isDummy)
  {
    BitResidues(p, ToBits(Wrap(imm) % 4096 / 256, 4));
    hide ToLimbs, ToBits, PcPlus4Carries, CarriesOf, IsPrime;
  }

  lemma {:induction false} JalrRowColumns(pc: word, timestamp: nat, rd: reg, rs1: reg, imm: int, v1: word, oldRd: word, rdVal: word)
    ensures var sum := Wrap(v1 + Wrap(imm));
            BusRowOf(InJalr(FillJalr(pc, timestamp, rd, rs1, imm, v1, oldRd, rdVal)))
            == BusRow(22, ToLimbs(pc), timestamp, rd, rs1, Wrap(imm) % 4096, 0, ToLimbs(v1), ToLimbs(0), ToLimbs(oldRd), ToLimbs(rdVal),
                      ToLimbs(sum - sum % 2), 1, 1)
  {
    ZeroWord();
    hide ToLimbs, Wrap, PcPlus4Carries, CarriesOf, ToBits;
  }

  lemma {:induction false} JalrColumnsAre(s: VmState, i: Instruction)
    requires Fits(s, i) && s.pc + 4 < TWO32 && i.Jalr? && i.rd != 0
    ensures var regs := LastRegisters(s.trace);
            BusRowOf(InJalr(FillJalr(s.pc, s.timestamp, i.rd, i.rs1, i.imm, regs[i.rs1], regs[i.rd], s.pc + 4))) == MachineBusRow(s, i)
  {
    hide *;
    var regs := LastRegisters(s.trace);
    JalrRowColumns(s.pc, s.timestamp, i.rd, i.rs1, i.imm, regs[i.rs1], regs[i.rd], s.pc + 4);
    MachineJalr(s, i);
  }

  lemma {:induction false} MachineJalr(s: VmState, i: Instruction)
    requires Fits(s, i) && s.pc + 4 < TWO32 && i.Jalr? && i.rd != 0
    ensures var regs := LastRegisters(s.trace);
            var sum := Wrap(regs[i.rs1] + Wrap(i.imm));
            MachineBusRow(s, i)
            == BusRow(22, ToLimbs(s.pc), s.timestamp, i.rd, i.rs1, Wrap(i.imm) % 4096, 0, ToLimbs(regs[i.rs1]), ToLimbs(0), ToLimbs(regs[i.rd]),
                      ToLimbs(s.pc + 4), ToLimbs(sum - sum % 2), 1, 1)
  {
    LinkFits(s.pc);
    hide ToLimbs, Wrap, LastRegisters;
  }

  lemma {:induction false} JalrSends(pc: word, timestamp: nat, rd: reg, rs1: reg, imm: int, v1: word, oldRd: word, rdVal: word)
    ensures var t := InJalr(FillJalr(pc, timestamp, rd, rs1, imm, v1, oldRd, rdVal));
            BytesOf(t) == Expand([Whole(v1), Whole(rdVal)]) && LeftOf(t) == [] && RightOf(t) == []
  {
    WholeBytes(v1);
    WholeBytes(rdVal);
    hide ToLimbs, Wrap, PcPlus4Carries, CarriesOf, ToBits, Expand, ItemBytes;
    ExpandThree(Whole(v1), Whole(rdVal), Whole(v1));
  }

  lemma {:induction false} JalrItems(s: VmState, i: Instruction)
    requires s.pc + 4 < TWO32 && i.Jalr? && i.rd != 0
    ensures var regs := LastRegisters(s.trace);
            !SilentJal(i) && SentItems(i, s.pc, Rs1Value(i, regs), Rs2Value(i, regs), ResultIn(i, regs, s.pc))
                             == [Whole(regs[i.rs1]), Whole(s.pc + 4)]
  {
    hide LastRegisters;
  }

  lemma {:induction false} JalrLooksUp(s: VmState, w: word, i: Instruction)
    requires Fits(s, i) && s.pc + 4 < TWO32 && i.Jalr? && i.rd != 0
    ensures var regs, step := LastRegisters(s.trace), StepOf(s, w, i);
            var t := InJalr(FillJalr(s.pc, s.timestamp, i.rd, i.rs1, i.imm, regs[i.rs1], regs[i.rd], s.pc + 4));
            && BytesOf(t) == Expand(Sent(step)) && LeftOf(t) == ShiftSends(step, true) && RightOf(t) == ShiftSends(step, false)
  {
    hide *;
    StepSends(s, w, i);
    NoShift(s, w, i, true);
    NoShift(s, w, i, false);
    var regs := LastRegisters(s.trace);
    JalrItems(s, i);
    JalrSends(s.pc, s.timestamp, i.rd, i.rs1, i.imm, regs[i.rs1], regs[i.rd], s.pc + 4);
  }

  // The rest.

  lemma {:induction false} OtherMade(p: int, s: VmState, w: word, i: Instruction)
    requires LargePrime(p) && Fits(s, i) && s.timestamp < p && !Modelled(i) && !i.Jal? && !i.Jalr? && HasEncoding(i)
    ensures Made(p, TableRowOf(p, StepOf(s, w, i), s.timestamp), s, w, i)
  {
    hide *;
    var step := StepOf(s, w, i);
    var t := InOther(MachineBusRow(s, i), Expand(Sent(step)), ShiftSends(step, true), ShiftSends(step, false));
    OtherRowIs(p, s, w, i);
    MachineRowForced(s, i);
    MachineSelectors(p, s, i);
    OtherParts(p, MachineBusRow(s, i), Expand(Sent(step)), ShiftSends(step, true), ShiftSends(step, false));
    MadeFrom(p, t, s, w, i);
  }

  lemma {:induction false} OtherRowIs(p: int, s: VmState, w: word, i: Instruction)
    requires LargePrime(p) && Fits(s, i) && !Modelled(i) && !i.Jal? && !i.Jalr?
    ensures var step := StepOf(s, w, i);
            TableRowOf(p, step, s.timestamp)
            == InOther(MachineBusRow(s, i), Expand(Sent(step)), ShiftSends(step, true), ShiftSends(step, false))
  {
    StepSays(s, w, i);
    OtherColumns(s, w, i);
    hide LargePrime, Id, StepOf, RStepOf, JalStepOf, ShiftSends, Sent, Expand, MachineBusRow, OtherBusRow, LastRegisters, Fits, FirstRead,
         OldValue, NewValue, RowTime, RTypeRow;
  }

  lemma {:induction false} OtherColumns(s: VmState, w: word, i: Instruction)
    requires Fits(s, i) && !i.Jal? && !i.Jalr?
    ensures OtherBusRow(StepOf(s, w, i), s.timestamp) == MachineBusRow(s, i)
  {
    NextFollows(s, i);
    hide Wrap, Id, StepOf, RowTime, FirstRead, SecondRead, OldValue, NewValue, ToLimbs, LastField, LowField, ResultIn, LastRegisters,
         NextPc, Rs1Value, Rs2Value, UsesLow8;
    StepSays(s, w, i);
    LinkFits(s.pc);
  }

  lemma {:induction false} NextFollows(s: VmState, i: Instruction)
    requires Fits(s, i) && !i.Jal? && !i.Jalr?
    ensures NextPc(i, LastRegisters(s.trace), s.pc) == s.pc + 4 < TWO32
  {
    hide LastRegisters;
  }

  lemma {:induction false} MachineSelectors(p: int, s: VmState, i: Instruction)
    requires LargePrime(p) && Fits(s, i) && s.timestamp < p
    ensures var b := MachineBusRow(s, i); Residue(p, b.timestamp) && Residue(p, b.isDummy) && IsBit(b.isDummy) && IsBit(b.links)
  {
    assert p > 1;
    hide ToLimbs, ResultIn, NextPc, LastField, LowField, Id, IsPrime;
  }

  lemma {:induction false} OtherParts(p: int, b: BusRow, bytes: seq<int>, left: seq<ShiftRow>, right: seq<ShiftRow>)
    requires LargePrime(p) && Residue(p, b.timestamp) && Residue(p, b.isDummy) && IsBit(b.isDummy) && IsBit(b.links) && RowForced(b)
    ensures var t := InOther(b, bytes, left, right);
            && Constrained(p, t) && OpenColumnsRight(t) && BusRowOf(t) == b && BytesOf(t) == bytes && LeftOf(t) == left && RightOf(t) == right
  {
    hide RowForced, IsBit, IsPrime;
  }

  /** Every step of a run becomes a row its table accepts, with the columns of the machine and the lookups counted for it. */
  lemma {:induction false} RowMade(p: int, s: VmState, w: word, i: Instruction)
    requires LargePrime(p) && Fits(s, i) && s.pc + 4 < TWO32 && s.timestamp < p && HasEncoding(i) && !(i.Jalr? && i.rd == 0)
    ensures Made(p, TableRowOf(p, StepOf(s, w, i), s.timestamp), s, w, i)
  {
    hide TableRowOf, Made, StepOf, LargePrime, Fits, HasEncoding;
    if Modelled(i) {
      RTypeMade(p, s, w, i);
    } else if i.Jal? {
      JalMade(p, s, w, i);
    } else if i.Jalr? {
      JalrMade(p, s, w, i);
    } else {
      OtherMade(p, s, w, i);
    }
  }
}
