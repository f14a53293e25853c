/** Multiplicities of the byte and byte-shift tables against what the rows of a run ask for. */
module Multiplicities {
  import opened Division
  import opened Words
  import opened Rv32
  import opened Vm
  import opened ByteTables
  import opened Shifts
  import opened Bus
  import opened Lookups
  import opened RunRows
  import opened U32Ops

  // Logged steps.

  predicate TwoReadsWrite(step: ExecutionStep) {
    var ops := step.memoryOps; |ops| == 3 && ops[0].Read? && ops[1].Read? && ops[2].Write?
  }

  predicate ReadWrite(step: ExecutionStep) {
    var ops := step.memoryOps; |ops| == 2 && ops[0].Read? && ops[1].Write?
  }

  predicate OneWrite(step: ExecutionStep) {
    var ops := step.memoryOps; |ops| == 1 && ops[0].Write?
  }

  function FirstRead(step: ExecutionStep): word {
    if |step.memoryOps| >= 1 && step.memoryOps[0].Read? then step.memoryOps[0].value else 0
  }

  function SecondRead(step: ExecutionStep): word {
    if |step.memoryOps| >= 2 && step.memoryOps[1].Read? then step.memoryOps[1].value else 0
  }

  function NewValue(step: ExecutionStep): word {
    var n := |step.memoryOps|;
    if n >= 1 && step.memoryOps[n - 1].Write? then step.memoryOps[n - 1].newValue else 0
  }

  /** A step as the machine logs it: the operations of its format, and a difference or a link where it has one. */
  predicate StepLogged(step: ExecutionStep) {
    var i := step.instruction;
    && (IsRType(i) ==> TwoReadsWrite(step))
    && (IsUType(i) ==> OneWrite(step))
    && (!IsRType(i) && !IsUType(i) && !i.Jal? ==> ReadWrite(step))
  }

  ghost predicate WellLogged(steps: seq<ExecutionStep>) {
    forall k :: 0 <= k < |steps| ==> StepLogged(steps[k])
  }

  lemma {:induction false} MachineLogs(s: VmState, w: word, i: Instruction)
    requires Fits(s, i)
    ensures StepLogged(StepOf(s, w, i))
  {
    hide RegistersAfter, NextPc, Result;
  }

  lemma {:induction false} RunIsLogged(program: seq<byte>, n: nat)
    requires Execute(program, n).Stepped?
    ensures WellLogged(Execute(program, n).state.trace)
  {
    hide StepLogged, StepState, StateAfter, Fits, StepOf, WordAt, DecodeInstruction;
    if n > 0 {
      var s, s', i := LastSteps(program, n);
      RunIsLogged(program, n - 1);
      MachineLogs(s, WordAt(s.program, s.pc), i);
    }
  }

  // bytes: words whose four bytes are looked up, and single bytes.

  datatype Item = Whole(w: word) | Single(b: byte)

  function ItemBytes(i: Item): seq<nat> {
    match i
    case Whole(w) => ToLimbsValue(w); var b := ToLimbs(w); [b[0], b[1], b[2], b[3]]
    case Single(b) => [b]
  }

  function Expand(items: seq<Item>): seq<nat> {
    if |items| == 0 then [] else Expand(items[..|items| - 1]) + ItemBytes(items[|items| - 1])
  }

  function Wholes(words: seq<word>): seq<Item> {
    seq(|words|, k requires 0 <= k < |words| => Whole(words[k]))
  }

  function Singles(bytes: seq<byte>): seq<Item> {
    seq(|bytes|, k requires 0 <= k < |bytes| => Single(bytes[k]))
  }

  lemma {:induction false} ExpandAppend(a: seq<Item>, b: seq<Item>)
    ensures Expand(a + b) == Expand(a) + Expand(b)
  {
    hide ItemBytes;
    if |b| == 0 {
      assert a + b == a;
    } else {
      ExpandAppend(a, b[..|b| - 1]);
      assert (a + b)[..|a + b| - 1] == a + b[..|b| - 1];
    }
  }

  lemma {:induction false} ExpandOne(i: Item)
    ensures Expand([i]) == ItemBytes(i)
  {
    assert [i][..0] == [];
  }

  lemma {:induction false} ExpandWithout(b: seq<Item>, i: nat)
    requires i < |b|
    ensures multiset(Expand(b)) == multiset(ItemBytes(b[i])) + multiset(Expand(b[..i] + b[i + 1..]))
    ensures multiset(b) == multiset{b[i]} + multiset(b[..i] + b[i + 1..])
  {
    assert b == b[..i] + ([b[i]] + b[i + 1..]);
    ExpandAppend(b[..i], [b[i]] + b[i + 1..]);
    ExpandAppend([b[i]], b[i + 1..]);
    ExpandOne(b[i]);
    ExpandAppend(b[..i], b[i + 1..]);
  }

  /** The bytes of items do not depend on their order. */
  lemma {:induction false} ExpandPermutes(a: seq<Item>, b: seq<Item>)
    requires multiset(a) == multiset(b)
    ensures multiset(Expand(a)) == multiset(Expand(b))
  {
    hide ItemBytes, Expand;
    assert |a| == |multiset(a)| == |b|;
    if |a| == 0 {
      assert a == b;
    } else {
      assert a[0] in multiset(b);
      var i :| 0 <= i < |b| && b[i] == a[0];
      ExpandWithout(a, 0);
      ExpandWithout(b, i);
      assert a[..0] + a[1..] == a[1..];
      assert multiset(a[1..]) == multiset(a) - multiset{a[0]};
      assert multiset(b[..i] + b[i + 1..]) == multiset(b) - multiset{b[i]};
      ExpandPermutes(a[1..], b[..i] + b[i + 1..]);
    }
  }

  function ShamtHigh(v: word): byte { (v % 256) / 32 }

  function Low7(v: word): byte { (v / 16777216) % 128 }

  /** Byte k of the upper immediate of AUIPC. */
  function UpperByte(imm: int, k: nat): byte
    requires k < 4
  {
    ToLimbsValue(Wrap(Wrap(imm) * 4096));
    ToLimbs(Wrap(Wrap(imm) * 4096))[k]
  }

  /** The words whose bytes trace generation counts for a step. */
  function CheckedWords(step: ExecutionStep): seq<word> {
    var i, v1, v2, rd := step.instruction, FirstRead(step), SecondRead(step), NewValue(step);
    if i.AddI? && ReadWrite(step) then [v1, rd]
    else if (i.Add? || i.Sub?) && TwoReadsWrite(step) then [v1, v2, rd]
    else if i.Xor? && TwoReadsWrite(step) then [v1, v2]
    else if (i.Sll? || i.Srl? || i.Sra?) && TwoReadsWrite(step) then [v2, rd]
    else if (i.SlliI? || i.SrliI? || i.SraiI?) && ReadWrite(step) then [rd]
    else if (i.Sltu? || i.Slt?) && TwoReadsWrite(step) then [v1, v2, Wrap(v1 - v2)]
    else if (i.SltiuI? || i.SltiI?) && ReadWrite(step) then [v1, Wrap(v1 - Wrap(i.imm))]
    else if i.Lui? && OneWrite(step) then [rd]
    else if i.Auipc? && OneWrite(step) then [step.pc, rd]
    else if i.Jal? then [step.pc, Wrap(step.pc + 4)]
    else if i.Jalr? && ReadWrite(step) then [v1, rd]
    else []
  }

  /** The single bytes it counts beside them. */
  function CheckedSingles(step: ExecutionStep): seq<byte> {
    var i, v1, v2 := step.instruction, FirstRead(step), SecondRead(step);
    if (i.Sll? || i.Srl?) && TwoReadsWrite(step) then [ShamtHigh(v2)]
    else if i.Sra? && TwoReadsWrite(step) then [ShamtHigh(v2), Low7(v1)]
    else if i.SraiI? && ReadWrite(step) then [Low7(v1)]
    else if i.Slt? && TwoReadsWrite(step) then [Low7(v1), Low7(v2)]
    else if i.SltiI? && ReadWrite(step) then [Low7(v1)]
    else if i.Auipc? && OneWrite(step) then [UpperByte(i.imm, 1), UpperByte(i.imm, 2), UpperByte(i.imm, 3)]
    else []
  }

  function Counted(step: ExecutionStep): seq<Item> {
    Wholes(CheckedWords(step)) + Singles(CheckedSingles(step))
  }

  function AllCounted(steps: seq<ExecutionStep>): seq<Item> {
    if |steps| == 0 then [] else AllCounted(steps[..|steps| - 1]) + Counted(steps[|steps| - 1])
  }

  /** What the row of instruction i sends to `bytes`, in the order of the lookups of its table. */
  function SentItems(i: Instruction, pc: word, v1: word, v2: word, rd: word): seq<Item> {
    match i
    case AddI(_, _, _) => [Whole(v1), Whole(rd)]
    case Add(_, _, _) => [Whole(v1), Whole(v2), Whole(rd)]
    case Sub(_, _, _) => [Whole(v1), Whole(v2), Whole(rd)]
    case Xor(_, _, _) => [Whole(v1), Whole(v2)]
    case Sll(_, _, _) => [Whole(v2), Single(ShamtHigh(v2)), Whole(rd)]
    case Srl(_, _, _) => [Whole(v2), Single(ShamtHigh(v2)), Whole(rd)]
    case Sra(_, _, _) => [Whole(v2), Single(ShamtHigh(v2)), Whole(rd), Single(Low7(v1))]
    case SlliI(_, _, _) => [Whole(rd)]
    case SrliI(_, _, _) => [Whole(rd)]
    case SraiI(_, _, _) => [Whole(rd), Single(Low7(v1))]
    case Slt(_, _, _) => [Whole(v1), Whole(v2), Whole(Wrap(v1 - v2)), Single(Low7(v1)), Single(Low7(v2))]
    case Sltu(_, _, _) => [Whole(v1), Whole(v2), Whole(Wrap(v1 - v2))]
    case SltiI(_, _, imm) => [Whole(v1), Whole(Wrap(v1 - Wrap(imm))), Single(Low7(v1))]
    case SltiuI(_, _, imm) => [Whole(v1), Whole(Wrap(v1 - Wrap(imm)))]
    case Lui(_, _) => [Whole(rd)]
    case Auipc(_, imm) => [Whole(pc), Single(UpperByte(imm, 1)), Single(UpperByte(imm, 2)), Single(UpperByte(imm, 3)), Whole(rd)]
    case Jal(_, _) => [Whole(pc), Whole(Wrap(pc + 4))]
    case Jalr(_, _, _) => [Whole(v1), Whole(rd)]
    case _ => []
  }

  function Sent(step: ExecutionStep): seq<Item> {
    SentItems(step.instruction, step.pc, FirstRead(step), SecondRead(step), NewValue(step))
  }

  function AllSent(steps: seq<ExecutionStep>): seq<Item> {
    if |steps| == 0 then [] else AllSent(steps[..|steps| - 1]) + Sent(steps[|steps| - 1])
  }

  /** The row of every logged step sends exactly what is counted for the step. */
  lemma {:induction false} StepBytesConserved(step: ExecutionStep)
    requires StepLogged(step)
    ensures multiset(Sent(step)) == multiset(Counted(step))
  {
    hide *;
    var i := step.instruction;
    if i.Sll? || i.Srl? || i.Sra? || i.Auipc? {
      SentReordered(step);
    } else {
      SentInOrder(step);
    }
  }

  lemma {:induction false} SentInOrder(step: ExecutionStep)
    requires StepLogged(step) && !step.instruction.Sll? && !step.instruction.Srl? && !step.instruction.Sra? && !step.instruction.Auipc?
    ensures Sent(step) == Counted(step)
  {
    ListedItems(CheckedWords(step), CheckedSingles(step));
    hide Wrap, FirstRead, SecondRead, NewValue, ShamtHigh, Low7, UpperByte, Wholes, Singles;
  }

  lemma {:induction false} SentReordered(step: ExecutionStep)
    requires StepLogged(step) && (step.instruction.Sll? || step.instruction.Srl? || step.instruction.Sra? || step.instruction.Auipc?)
    ensures multiset(Sent(step)) == multiset(Counted(step))
  {
    hide *;
    var words, singles := CheckedWords(step), CheckedSingles(step);
    ListedItems(words, singles);
    TwoWords(step);
    if step.instruction.Auipc? {
      Around(Whole(words[0]), Singles(singles), Whole(words[1]), []);
      assert Singles(singles) + [] == Singles(singles);
    } else {
      Around(Whole(words[0]), Singles(singles[..1]), Whole(words[1]), Singles(singles[1..]));
    }
  }

  lemma {:induction false} TwoWords(step: ExecutionStep)
    requires StepLogged(step) && (step.instruction.Sll? || step.instruction.Srl? || step.instruction.Sra? || step.instruction.Auipc?)
    ensures var words, singles := CheckedWords(step), CheckedSingles(step);
            && |words| == 2 && |singles| > 0 && Counted(step) == [Whole(words[0]), Whole(words[1])] + Singles(singles)
            && Singles(singles) == Singles(singles[..1]) + Singles(singles[1..])
            && Sent(step) == (if step.instruction.Auipc? then [Whole(words[0])] + Singles(singles) + [Whole(words[1])] + []
                              else [Whole(words[0])] + Singles(singles[..1]) + [Whole(words[1])] + Singles(singles[1..]))
  {
    hide Wrap, FirstRead, SecondRead, NewValue, ShamtHigh, Low7, UpperByte;
  }

  lemma {:induction false} Around(a: Item, mid: seq<Item>, b: Item, rest: seq<Item>)
    ensures multiset([a] + mid + [b] + rest) == multiset([a, b] + (mid + rest))
  {
    assert [a, b] == [a] + [b];
  }

  /** Short lists, item by item. */
  lemma {:induction false} ListedItems(words: seq<word>, bytes: seq<byte>)
    ensures |words| == 0 ==> Wholes(words) == []
    ensures |words| == 1 ==> Wholes(words) == [Whole(words[0])]
    ensures |words| == 2 ==> Wholes(words) == [Whole(words[0]), Whole(words[1])]
    ensures |words| == 3 ==> Wholes(words) == [Whole(words[0]), Whole(words[1]), Whole(words[2])]
    ensures |bytes| == 0 ==> Singles(bytes) == []
    ensures |bytes| == 1 ==> Singles(bytes) == [Single(bytes[0])]
    ensures |bytes| == 2 ==> Singles(bytes) == [Single(bytes[0]), Single(bytes[1])]
    ensures |bytes| == 3 ==> Singles(bytes) == [Single(bytes[0]), Single(bytes[1]), Single(bytes[2])]
  {
  }

  /** Over any run, every byte value is counted exactly as often as the rows of the run send it. */
  lemma {:induction false} BytesConserved(steps: seq<ExecutionStep>)
    requires WellLogged(steps)
    ensures multiset(AllSent(steps)) == multiset(AllCounted(steps))
    ensures multiset(Expand(AllSent(steps))) == multiset(Expand(AllCounted(steps)))
  {
    hide StepLogged, Sent, Counted, Expand;
    if |steps| > 0 {
      BytesConserved(steps[..|steps| - 1]);
      StepBytesConserved(steps[|steps| - 1]);
    }
    ExpandPermutes(AllSent(steps), AllCounted(steps));
  }

  // The counting code.

  lemma {:induction false} CountRaised(indices: seq<nat>, k: nat, n: nat)
    requires k < n
    ensures Counts(indices + [k], n) == Counts(indices, n)[k := Counts(indices, n)[k] + 1]
  {
  }

  /** Increments the counter of every listed row. */
  method CountInto(mults: array<int>, ghost before: seq<nat>, indices: seq<nat>)
    requires mults[..] == Counts(before, mults.Length) && forall i :: 0 <= i < |indices| ==> indices[i] < mults.Length
    modifies mults
    ensures mults[..] == Counts(before + indices, mults.Length)
  {
    assert before + indices[..0] == before;
    for i := 0 to |indices|
      invariant mults[..] == Counts(before + indices[..i], mults.Length)
    {
      CountRaised(before + indices[..i], indices[i], mults.Length);
      assert before + indices[..i + 1] == before + indices[..i] + [indices[i]];
      mults[indices[i]] := mults[indices[i]] + 1;
    }
    assert indices[..|indices|] == indices;
  }

  lemma {:induction false} ItemSmall(i: Item)
    ensures forall k :: 0 <= k < |ItemBytes(i)| ==> ItemBytes(i)[k] < 256
  {
    if i.Whole? {
      ToLimbsValue(i.w);
      hide ToLimbs;
    }
  }

  lemma {:induction false} ExpandSmall(items: seq<Item>)
    ensures forall k :: 0 <= k < |Expand(items)| ==> Expand(items)[k] < 256
  {
    if |items| > 0 {
      ExpandSmall(items[..|items| - 1]);
      ItemSmall(items[|items| - 1]);
      hide ItemBytes;
    }
  }

  /** `bytes_multiplicities` */
  method BytesMultiplicities(vals: seq<word>) returns (mults: array<int>)
    ensures fresh(mults) && mults.Length == 256 && mults[..] == Counts(Expand(Wholes(vals)), 256)
  {
    hide ItemBytes;
    mults := new int[256](_ => 0);
    for k := 0 to |vals|
      invariant mults[..] == Counts(Expand(Wholes(vals[..k])), 256)
    {
      assert Wholes(vals[..k + 1]) == Wholes(vals[..k]) + [Whole(vals[k])];
      ItemSmall(Whole(vals[k]));
      CountInto(mults, Expand(Wholes(vals[..k])), ItemBytes(Whole(vals[k])));
    }
    assert vals[..|vals|] == vals;
  }

  lemma {:induction false} ItemsAppend(vals: seq<word>, singles: seq<byte>, words: seq<word>, bytes: seq<byte>)
    ensures multiset(Wholes(vals + words) + Singles(singles + bytes))
         == multiset(Wholes(vals) + Singles(singles)) + multiset(Wholes(words) + Singles(bytes))
  {
    assert Wholes(vals + words) == Wholes(vals) + Wholes(words);
    assert Singles(singles + bytes) == Singles(singles) + Singles(bytes);
  }

  /** The lists of words and single bytes to range-check. */
  method CollectChecked(steps: seq<ExecutionStep>) returns (vals: seq<word>, singles: seq<byte>)
    ensures multiset(Wholes(vals) + Singles(singles)) == multiset(AllCounted(steps))
  {
    hide CheckedWords, CheckedSingles, Wholes, Singles;
    assert Wholes([]) == [] && Singles([]) == [] by { ListedItems([], []); }
    vals, singles := [], [];
    for k := 0 to |steps|
      invariant multiset(Wholes(vals) + Singles(singles)) == multiset(AllCounted(steps[..k]))
    {
      assert steps[..k + 1][..k] == steps[..k];
      ItemsAppend(vals, singles, CheckedWords(steps[k]), CheckedSingles(steps[k]));
      vals := vals + CheckedWords(steps[k]);
      singles := singles + CheckedSingles(steps[k]);
    }
    assert steps[..|steps|] == steps;
  }

  lemma {:induction false} SinglesAreBytes(bytes: seq<byte>)
    ensures Expand(Singles(bytes)) == bytes
  {
    if |bytes| > 0 {
      var n := |bytes| - 1;
      SinglesAreBytes(bytes[..n]);
      assert Singles(bytes) == Singles(bytes[..n]) + [Single(bytes[n])];
    }
  }

  /** The multiplicities stored for a run and its program. */
  function ByteCounters(steps: seq<ExecutionStep>, program: seq<byte>): seq<int> {
    Counts(Expand(AllCounted(steps)) + program, 256)
  }

  /** The byte table counts every byte as often as the rows of the run and the absorbed program send it. */
  method CountBytes(steps: seq<ExecutionStep>, program: seq<byte>) returns (mults: array<int>)
    requires WellLogged(steps)
    ensures fresh(mults) && mults.Length == 256 && mults[..] == ByteCounters(steps, program)
    ensures forall v :: 0 <= v < 256 ==> mults[v] == multiset(Expand(AllSent(steps)) + program)[v]
  {
    hide Expand, AllCounted, WellLogged, AllSent, Wholes, Singles;
    var vals, singles := CollectChecked(steps);
    mults := BytesMultiplicities(vals);
    SinglesAreBytes(singles);
    CountInto(mults, Expand(Wholes(vals)), singles);
    ExpandAppend(Wholes(vals), Singles(singles));
    CountInto(mults, Expand(Wholes(vals)) + singles, program);
    ExpandPermutes(Wholes(vals) + Singles(singles), AllCounted(steps));
    SameCounts(Expand(Wholes(vals)) + singles, Expand(AllCounted(steps)), program);
    BytesConserved(steps);
    SameCounts(Expand(AllSent(steps)), Expand(AllCounted(steps)), program);
    CountsAt(Expand(AllSent(steps)) + program);
    hide Counts;
  }

  lemma {:induction false} SameCounts(a: seq<nat>, b: seq<nat>, program: seq<byte>)
    requires multiset(a) == multiset(b)
    ensures Counts(a + program, 256) == Counts(b + program, 256)
  {
    var left: seq<nat>, right: seq<nat> := a + program, b + program;
    assert multiset(left) == multiset(right);
  }

  lemma {:induction false} CountsAt(indices: seq<nat>)
    ensures |Counts(indices, 256)| == 256 && forall v: nat :: v < 256 ==> Counts(indices, 256)[v] == multiset(indices)[v]
  {
  }

  lemma {:induction false} BytesAreRows(indices: seq<nat>)
    requires forall i :: 0 <= i < |indices| ==> indices[i] < 256
    ensures |ByteTable()| == 256 && TuplesAt(ByteTable(), indices) == indices
  {
  }

  /** The bytes bus balances with the stored counts, in whatever order the rows and the program send their bytes. */
  lemma {:induction false} BytesBalance(p: int, steps: seq<ExecutionStep>, program: seq<byte>, sends: seq<Entry<int>>)
    requires p > 0 && WellLogged(steps) && Selectors(sends) && |sends| < p
    requires multiset(Live(sends)) == multiset(Expand(AllSent(steps)) + program)
    ensures TableBus(p, sends, ByteTable(), ByteCounters(steps, program))
  {
    var indices: seq<nat> := Expand(AllCounted(steps)) + program;
    BytesConserved(steps);
    ExpandSmall(AllCounted(steps));
    hide AllCounted, AllSent, Expand, Live, WellLogged, TableBus, ByteTable, Selectors, TuplesAt;
    assert multiset(Expand(AllSent(steps)) + program) == multiset(indices);
    BytesAreRows(indices);
    CountedBalances(p, sends, ByteTable(), indices);
  }

  // byte_sll and byte_srl; the two tables and their counting code differ in direction only.

  function ShiftTable(left: bool): seq<ShiftRow> {
    if left then SllTable() else SrlTable()
  }

  function TupleFor(left: bool, b: byte, s: nat): ShiftRow
    requires s < 8
  {
    if left then SllRow(b, s) else SrlRow(b, s)
  }

  /** The word and amount a step shifts, if it does. */
  function ShiftOf(step: ExecutionStep, left: bool): Option<(word, int)> {
    var i, ops := step.instruction, step.memoryOps;
    if (if left then i.Sll? else i.Srl? || i.Sra?) && |ops| >= 2 && ops[0].Read? && ops[1].Read? then
      Some((ops[0].value, ops[1].value % 32))
    else if (if left then i.SlliI? else i.SrliI? || i.SraiI?) && |ops| >= 1 && ops[0].Read? then Some((ops[0].value, i.imm % 32))
    else None
  }

  predicate IsArithmetic(i: Instruction) {
    i.Sra? || i.SraiI?
  }

  function FourRows(v: word, s: nat): seq<nat>
    requires s < 8
  {
    ToLimbsValue(v);
    var b := ToLimbs(v);
    [b[0] * 8 + s, b[1] * 8 + s, b[2] * 8 + s, b[3] * 8 + s]
  }

  /** The table rows counted for one step; arithmetic shifts count one more for 0xFF. */
  function ShiftIndices(step: ExecutionStep, left: bool): seq<nat> {
    var o := ShiftOf(step, left);
    if o.None? then [] else
    var s := o.value.1 % 8;
    FourRows(o.value.0, s) + if IsArithmetic(step.instruction) then [0xFF * 8 + s] else []
  }

  function AllShiftIndices(steps: seq<ExecutionStep>, left: bool): seq<nat> {
    if |steps| == 0 then [] else AllShiftIndices(steps[..|steps| - 1], left) + ShiftIndices(steps[|steps| - 1], left)
  }

  lemma {:induction false} IndicesInTable(step: ExecutionStep, left: bool)
    ensures forall i :: 0 <= i < |ShiftIndices(step, left)| ==> ShiftIndices(step, left)[i] < 2048
  {
    var o := ShiftOf(step, left);
    if o.Some? {
      ToLimbsValue(o.value.0);
      hide ToLimbs;
    }
  }

  lemma {:induction false} AllIndicesInTable(steps: seq<ExecutionStep>, left: bool)
    ensures forall i :: 0 <= i < |AllShiftIndices(steps, left)| ==> AllShiftIndices(steps, left)[i] < 2048
  {
    hide ShiftIndices;
    if |steps| > 0 {
      AllIndicesInTable(steps[..|steps| - 1], left);
      IndicesInTable(steps[|steps| - 1], left);
    }
  }

  /** The counting loop of either table. */
  method CountShifts(steps: seq<ExecutionStep>, left: bool) returns (mults: array<int>)
    ensures fresh(mults) && mults.Length == 2048
    ensures mults[..] == Counts(AllShiftIndices(steps, left), 2048)
  {
    hide ShiftIndices;
    mults := new int[2048](_ => 0);
    for k := 0 to |steps|
      invariant mults[..] == Counts(AllShiftIndices(steps[..k], left), 2048)
    {
      assert steps[..k + 1][..k] == steps[..k];
      IndicesInTable(steps[k], left);
      CountInto(mults, AllShiftIndices(steps[..k], left), ShiftIndices(steps[k], left));
    }
    assert steps[..|steps|] == steps;
  }

  function FourTuples(left: bool, v: word, s: nat): seq<ShiftRow>
    requires s < 8
  {
    ToLimbsValue(v);
    var b := ToLimbs(v);
    [TupleFor(left, b[0], s), TupleFor(left, b[1], s), TupleFor(left, b[2], s), TupleFor(left, b[3], s)]
  }

  /** The tuples the row of a step looks up. */
  function ShiftSends(step: ExecutionStep, left: bool): seq<ShiftRow> {
    var o := ShiftOf(step, left);
    if o.None? then [] else
    var s := o.value.1 % 8;
    FourTuples(left, o.value.0, s) + if IsArithmetic(step.instruction) then [TupleFor(left, 0xFF, s)] else []
  }

  function AllShiftSends(steps: seq<ExecutionStep>, left: bool): seq<ShiftRow> {
    if |steps| == 0 then [] else AllShiftSends(steps[..|steps| - 1], left) + ShiftSends(steps[|steps| - 1], left)
  }

  lemma {:induction false} TableRow(left: bool, b: byte, s: nat)
    requires s < 8
    ensures b * 8 + s < 2048 == |ShiftTable(left)| && ShiftTable(left)[b * 8 + s] == TupleFor(left, b, s)
  {
    hide SllRow, SrlRow;
    assert (b * 8 + s) / 8 == b && (b * 8 + s) % 8 == s;
  }

  /** Every tuple looked up is the table row counted for it. */
  lemma {:induction false} SendsAreRows(step: ExecutionStep, left: bool)
    ensures |ShiftTable(left)| == 2048 && |ShiftSends(step, left)| == |ShiftIndices(step, left)|
    ensures forall i :: 0 <= i < |ShiftIndices(step, left)| ==>
              ShiftIndices(step, left)[i] < 2048 && ShiftTable(left)[ShiftIndices(step, left)[i]] == ShiftSends(step, left)[i]
  {
    hide ToLimbs, ShiftTable, TupleFor, ShiftOf;
    TableRow(left, 0, 0);
    var o := ShiftOf(step, left);
    if o.Some? {
      ToLimbsValue(o.value.0);
      var b, s := ToLimbs(o.value.0), o.value.1 % 8;
      TableRow(left, b[0], s);
      TableRow(left, b[1], s);
      TableRow(left, b[2], s);
      TableRow(left, b[3], s);
      TableRow(left, 0xFF, s);
    }
  }

  lemma {:induction false} AllSendsAreRows(steps: seq<ExecutionStep>, left: bool)
    ensures |ShiftTable(left)| == 2048
    ensures forall i :: 0 <= i < |AllShiftIndices(steps, left)| ==> AllShiftIndices(steps, left)[i] < 2048
    ensures AllShiftSends(steps, left) == TuplesAt(ShiftTable(left), AllShiftIndices(steps, left))
  {
    hide ShiftTable, ShiftIndices, ShiftSends;
    TableRow(left, 0, 0);
    AllIndicesInTable(steps, left);
    if |steps| > 0 {
      var n := |steps| - 1;
      AllSendsAreRows(steps[..n], left);
      SendsAreRows(steps[n], left);
      AtAppend(ShiftTable(left), AllShiftIndices(steps[..n], left), ShiftIndices(steps[n], left), ShiftSends(steps[n], left));
    }
  }

  lemma {:induction false} AtAppend<T>(table: seq<T>, a: seq<nat>, b: seq<nat>, tuples: seq<T>)
    requires (forall i :: 0 <= i < |a| ==> a[i] < |table|) && |b| == |tuples|
    requires forall i :: 0 <= i < |b| ==> b[i] < |table| && table[b[i]] == tuples[i]
    ensures forall i :: 0 <= i < |a + b| ==> (a + b)[i] < |table|
    ensures TuplesAt(table, a + b) == TuplesAt(table, a) + tuples
  {
  }

  /** Either shift bus balances with the counts of its table, in whatever order the rows of the run send their tuples. */
  lemma {:induction false} ShiftsBalance(p: int, steps: seq<ExecutionStep>, left: bool, sends: seq<Entry<ShiftRow>>)
    requires p > 0 && Selectors(sends) && |sends| < p && multiset(Live(sends)) == multiset(AllShiftSends(steps, left))
    ensures TableBus(p, sends, ShiftTable(left), Counts(AllShiftIndices(steps, left), 2048))
  {
    AllSendsAreRows(steps, left);
    hide ShiftTable, AllShiftIndices, AllShiftSends, Live, TableBus, Selectors, TuplesAt, Counts;
    CountedBalances(p, sends, ShiftTable(left), AllShiftIndices(steps, left));
  }

  /** The bytes sent for AUIPC are those of its upper immediate: with the pc they add up to the value the step writes. */
  lemma {:induction false} AuipcBytesAdd(s: VmState, w: word, i: Instruction)
    requires Fits(s, i) && i.Auipc? && 0 <= i.imm < 0x10_0000
    ensures var sent := Sent(StepOf(s, w, i));
            && |sent| == 5 && sent[0] == Whole(s.pc) && sent[1].Single? && sent[2].Single? && sent[3].Single?
            && sent[4] == Whole(Wrap(s.pc + 256 * sent[1].b + 65536 * sent[2].b + 16777216 * sent[3].b))
            && sent[4].w == ResultIn(i, LastRegisters(s.trace), s.pc)
  {
    UpperBytesSum(i.imm);
    hide UpperByte, RegistersAfter, LastRegisters, NextPcFrom;
  }

  lemma {:induction false} UpperBytesSum(imm: int)
    requires 0 <= imm < 0x10_0000
    ensures 256 * UpperByte(imm, 1) + 65536 * UpperByte(imm, 2) + 16777216 * UpperByte(imm, 3) == 4096 * imm
    ensures Wrap(Wrap(imm) * 4096) == 4096 * imm
  {
    hide Wrap, ToLimbs;
    WrapIs(imm, 0, imm);
    WrapIs(4096 * imm, 0, 4096 * imm);
    ToLimbsValue(4096 * imm);
    LowByteOf(16 * imm, 4096 * imm);
  }

  lemma {:induction false} LowByteOf(x: int, w: word)
    requires w == 256 * x
    ensures ToLimbs(w)[0] == 0
  {
    assert w % 256 == 0;
  }

  // What the tuples add up to.

  /** The bytes of rs1 in four tuples, the shifted bytes and the carries. */
  function Shifted(t: seq<ShiftRow>): Limbs
    requires |t| >= 4
  {
    [t[0].shifted, t[1].shifted, t[2].shifted, t[3].shifted]
  }

  function Carried(t: seq<ShiftRow>): Limbs
    requires |t| >= 4
  {
    [t[0].carry, t[1].carry, t[2].carry, t[3].carry]
  }

  /** The amount RV32I has the instruction shift by. */
  function Amount(i: Instruction, v2: word): int {
    if i.Sll? || i.Srl? || i.Sra? then v2 % 32 else if i.SlliI? || i.SrliI? || i.SraiI? then i.imm else 0
  }

  /** The tuples of a left shift, moved by whole bytes, are the value the step writes. */
  lemma {:induction false} LeftTuplesAssemble(s: VmState, w: word, i: Instruction)
    requires Fits(s, i) && (i.Sll? || (i.SlliI? && 0 <= i.imm < 32))
    ensures var step, regs := StepOf(s, w, i), LastRegisters(s.trace);
            var t, amount := ShiftSends(step, true), Amount(i, Rs2Value(i, regs));
            && |t| == 4 && NewValue(step) == ResultIn(i, regs, s.pc)
            && NewValue(step) == Value(MovedLeft(InterLeft(Shifted(t), Carried(t)), amount / 8))
  {
    hide *;
    var regs := LastRegisters(s.trace);
    ShiftLogged(s, w, i);
    LeftAssembles(regs[i.rs1], Amount(i, Rs2Value(i, regs)));
    FourOf(FourTuples(true, regs[i.rs1], Amount(i, Rs2Value(i, regs)) % 8), []);
  }

  lemma {:induction false} LeftAssembles(v: word, amount: int)
    requires 0 <= amount < 32
    ensures var t := FourTuples(true, v, amount % 8);
            |t| == 4 && Value(MovedLeft(InterLeft(Shifted(t), Carried(t)), amount / 8)) == Shl(v, amount)
  {
    FourTuplesAre(true, v, amount % 8);
    ToLimbsValue(v);
    var t := FourTuples(true, v, amount % 8);
    hide ToLimbs, FourTuples, MovedLeft, InterLeft, Value, Pow2, SllRow;
    SllTuplesBuilt(ToLimbs(v), amount % 8, Shifted(t), Carried(t));
    LeftShiftMeans(ToLimbs(v), amount % 8, amount / 8, Shifted(t), Carried(t));
    assert amount % 8 + 8 * (amount / 8) == amount;
  }

  /** The tuples of a right shift, filled with the sign and moved by whole bytes, are the value the step writes. */
  lemma {:induction false} RightTuplesAssemble(s: VmState, w: word, i: Instruction)
    requires Fits(s, i) && (i.Srl? || i.Sra? || ((i.SrliI? || i.SraiI?) && 0 <= i.imm < 32))
    ensures var step, regs := StepOf(s, w, i), LastRegisters(s.trace);
            var t, amount, arithmetic := ShiftSends(step, false), Amount(i, Rs2Value(i, regs)), i.Sra? || i.SraiI?;
            var sign := if arithmetic && regs[i.rs1] >= TWO31 then 1 else 0;
            && |t| == (if arithmetic then 5 else 4) && NewValue(step) == ResultIn(i, regs, s.pc)
            && NewValue(step) == Value(MovedRight(InterRight(Shifted(t), Carried(t), sign, if arithmetic then t[4].carry else 0),
                                                  255 * sign, amount / 8))
  {
    hide *;
    var regs := LastRegisters(s.trace);
    ShiftLogged(s, w, i);
    RightAssembles(regs[i.rs1], Amount(i, Rs2Value(i, regs)), i.Sra? || i.SraiI?);
    var t := FourTuples(false, regs[i.rs1], Amount(i, Rs2Value(i, regs)) % 8);
    FourOf(t, if i.Sra? || i.SraiI? then [SrlRow(0xFF, Amount(i, Rs2Value(i, regs)) % 8)] else []);
    MaskedBits(Amount(i, Rs2Value(i, regs)) % 8);
  }

  lemma {:induction false} FourOf(t: seq<ShiftRow>, more: seq<ShiftRow>)
    requires |t| == 4
    ensures Shifted(t + more) == Shifted(t) && Carried(t + more) == Carried(t) && |t + more| == 4 + |more|
    ensures |more| > 0 ==> (t + more)[4] == more[0]
  {
  }

  /** The carry of the 0xFF row fills the sign bits of the top byte. */
  lemma {:induction false} MaskedBits(s: nat)
    requires s < 8
    ensures SrlRow(0xFF, s).carry == 256 - Pow2(8 - s)
  {
    SignMask(SrlRow(0xFF, s));
    hide SrlRow;
  }

  lemma {:induction false} RightAssembles(v: word, amount: int, arithmetic: bool)
    requires 0 <= amount < 32
    ensures var t, sign := FourTuples(false, v, amount % 8), if arithmetic && v >= TWO31 then 1 else 0;
            && |t| == 4
            && Value(MovedRight(InterRight(Shifted(t), Carried(t), sign, if arithmetic then 256 - Pow2(8 - amount % 8) else 0), 255 * sign,
                                amount / 8))
               == if arithmetic then Sra32(v, amount) else Shr(v, amount)
  {
    var sign := if arithmetic && v >= TWO31 then 1 else 0;
    RightQuotient(v, amount, sign, arithmetic);
    FourTuplesAre(false, v, amount % 8);
    ToLimbsValue(v);
    var t := FourTuples(false, v, amount % 8);
    hide ToLimbs, FourTuples, MovedRight, Value, Pow2, SrlRow, ShiftDown, Sra32, Shr;
    SrlTuplesBuilt(ToLimbs(v), amount % 8, Shifted(t), Carried(t));
    RightShiftMeans(ToLimbs(v), amount % 8, amount / 8, Shifted(t), Carried(t), sign);
    assert amount % 8 + 8 * (amount / 8) == amount;
  }

  lemma {:induction false} RightQuotient(v: word, amount: int, sign: int, arithmetic: bool)
    requires 0 <= amount < 32 && sign == if arithmetic && v >= TWO31 then 1 else 0
    ensures ShiftDown(v - TWO32 * sign, amount) == if arithmetic then Sra32(v, amount) else Shr(v, amount)
  {
    QuotientBounds(v, Pow2(amount));
    WrapIs(v / Pow2(amount), 0, v / Pow2(amount));
    hide Pow2, Wrap;
  }

  lemma {:induction false} FourTuplesAre(left: bool, v: word, s: nat)
    requires s < 8
    ensures var b, t := ToLimbs(v), FourTuples(left, v, s);
            && |t| == 4 && AreBytes(b)
            && forall k :: 0 <= k < 4 ==> IsByte(b[k]) && ShiftRow(b[k], s, t[k].shifted, t[k].carry) == TupleFor(left, b[k], s)
  {
    ToLimbsValue(v);
    hide ToLimbs;
  }

  /** A shift of the machine: what it looks up, and what it writes. */
  lemma {:induction false} ShiftLogged(s: VmState, w: word, i: Instruction)
    requires Fits(s, i) && (i.Sll? || i.Srl? || i.Sra? || ((i.SlliI? || i.SrliI? || i.SraiI?) && 0 <= i.imm < 32))
    ensures var step, regs := StepOf(s, w, i), LastRegisters(s.trace);
            var left, amount := i.Sll? || i.SlliI?, Amount(i, Rs2Value(i, regs));
            && 0 <= amount < 32 && NewValue(step) == ResultIn(i, regs, s.pc)
            && ShiftSends(step, left) == FourTuples(left, regs[i.rs1], amount % 8)
                                         + (if i.Sra? || i.SraiI? then [SrlRow(0xFF, amount % 8)] else [])
            && ResultIn(i, regs, s.pc) == (if left then Shl(regs[i.rs1], amount)
                                           else if i.Sra? || i.SraiI? then Sra32(regs[i.rs1], amount) else Shr(regs[i.rs1], amount))
  {
    hide Shl, Shr, Sra32, FourTuples, RegistersAfter, SrlRow, SllRow;
  }
}
