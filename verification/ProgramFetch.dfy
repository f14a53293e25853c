/** Instruction fetches: the decode rows of a run ask for exactly the bytes the program table offers. */
module ProgramFetch {
  import opened Words
  import opened PrimeField
  import opened Rv32
  import opened Vm
  import opened RunRows
  import opened U32Ops
  import opened U32Witness
  import opened Bits
  import opened Heights
  import opened Bus
  import opened ProgramRom
  import opened Decode

  // The decode table of a run.

  /** The byte and flag loops of `fill_row`. */
  method FillDecodeRow(pc: word, w: word) returns (row: DecodeColumns)
    ensures row == FillDecode(pc, w)
  {
    ToLimbsValue(w);
    SmallPowers();
    hide ToLimbs, Pow2, ToBits, Matches, PackedOf, RdField, Rs1Field, Rs2Field;
    var bytes := ToLimbs(w);
    var bits: seq<Byte8> := [];
    for i := 0 to 4
      invariant |bits| == i && forall k :: 0 <= k < i ==> bits[k] == ByteBits(w, k)
    {
      var byteBits := FillBits(bytes[i], 8);
      bits := bits + [byteBits];
    }
    var flags: seq<int> := [];
    for id := 0 to 23
      invariant |flags| == id && flags == FlagsOf(w)[..id]
    {
      flags := flags + [if Matches(id, w) then 1 else 0];
    }
    var low8 := Matches(19, w) || Matches(20, w) || Matches(21, w);
    row := DecodeColumns(ToLimbs(pc), bytes, Decompositions(bits[0], bits[1], bits[2], bits[3]), flags, PackedOf(w),
                         RdField(w), Rs1Field(w), w / 0x10_0000, Rs2Field(w), if low8 then (w / 4096) % 256 else 0, 1);
  }

  function DecodeRowOf(steps: seq<ExecutionStep>, k: nat): DecodeColumns
    requires |steps| > 0
  {
    if k < |steps| then FillDecode(steps[k].pc, steps[k].instructionWord)
    else FillDecode(0, steps[0].instructionWord).(mult := 0)
  }

  function DecodeMatrix(steps: seq<ExecutionStep>): seq<DecodeColumns>
    requires |steps| > 0
  {
    seq(PaddedHeight(|steps|), k requires 0 <= k => DecodeRowOf(steps, k))
  }

  /** `decode::trace::build_trace`: padding repeats the first word at address 0, then clears mult. */
  method BuildDecode(steps: seq<ExecutionStep>) returns (rows: array<DecodeColumns>)
    requires |steps| > 0
    ensures fresh(rows) && rows[..] == DecodeMatrix(steps)
  {
    hide FillDecode, PaddedHeight;
    var blank := FillDecodeRow(0, 0);
    rows := new DecodeColumns[PaddedHeight(|steps|)](_ => blank);
    for k := 0 to |steps|
      invariant forall j :: 0 <= j < k ==> rows[j] == DecodeRowOf(steps, j)
    {
      rows[k] := FillDecodeRow(steps[k].pc, steps[k].instructionWord);
    }
    var paddingWord := steps[0].instructionWord;
    for k := |steps| to rows.Length
      invariant forall j :: 0 <= j < k ==> rows[j] == DecodeRowOf(steps, j)
    {
      rows[k] := FillDecodeRow(0, paddingWord);
      rows[k] := rows[k].(mult := 0);
    }
  }

  /** The four fetches of a decode row; adding to the low limb carries nowhere. */
  function RowFetches(r: DecodeColumns): seq<Entry<FetchTuple>> {
    [Fetch(r, 0), Fetch(r, 1), Fetch(r, 2), Fetch(r, 3)]
  }

  function Fetch(r: DecodeColumns, i: nat): Entry<FetchTuple>
    requires i < 4
  {
    Entry(FetchTuple([r.pc[0] + i, r.pc[1], r.pc[2], r.pc[3]], r.instruction[i]), 1)
  }

  function Fetches(rows: seq<DecodeColumns>): seq<Entry<FetchTuple>> {
    if |rows| == 0 then [] else Fetches(rows[..|rows| - 1]) + RowFetches(rows[|rows| - 1])
  }

  // The program table of a run.

  /** Byte a is one of the four at pc. */
  predicate IsFetched(pc: int, a: int) {
    pc <= a < pc + 4
  }

  /** How often address a is fetched at the given addresses of instructions. */
  function FetchCount(pcs: seq<word>, a: int): nat {
    if |pcs| == 0 then 0
    else FetchCount(pcs[..|pcs| - 1], a) + if IsFetched(pcs[|pcs| - 1], a) then 1 else 0
  }

  /** Every padding row of the decode table fetches bytes 0 to 3. */
  function MultOf(pcs: seq<word>, padding: nat, a: nat): nat {
    FetchCount(pcs, a) + if a < 4 then padding else 0
  }

  function RomRowOf(program: seq<byte>, pcs: seq<word>, padding: nat, a: word): ProgramColumns {
    ProgramColumns(ToLimbs(a), if a < |program| then program[a] else 0, MultOf(pcs, padding, a),
                   CarriesOf(ToLimbs(a), ZERO_LIMBS, 1), Flag(a < |program|))
  }

  const MAX_PROGRAM := 0x100_0000

  function RomMatrix(program: seq<byte>, pcs: seq<word>, padding: nat): seq<ProgramColumns>
    requires |program| <= MAX_PROGRAM
  {
    HeightBound(|program|);
    seq(PaddedHeight(|program|), a requires 0 <= a < PaddedHeight(|program|) => RomRowOf(program, pcs, padding, a))
  }

  lemma {:induction false} HeightBound(n: nat)
    requires n <= MAX_PROGRAM
    ensures PaddedHeight(n) < 2 * MAX_PROGRAM
  {
  }

  function PcsOf(steps: seq<ExecutionStep>): seq<word> {
    seq(|steps|, k requires 0 <= k < |steps| => steps[k].pc)
  }

  /** The fetch-counting loops. */
  method CountFetches(steps: seq<ExecutionStep>, numRows: nat, padding: nat) returns (mults: array<nat>)
    requires numRows >= 4
    ensures fresh(mults) && mults.Length == numRows
    ensures forall a :: 0 <= a < numRows ==> mults[a] == MultOf(PcsOf(steps), padding, a)
  {
    mults := new nat[numRows](_ => 0);
    var pcs := PcsOf(steps);
    for k := 0 to |steps|
      invariant forall a :: 0 <= a < numRows ==> mults[a] == FetchCount(pcs[..k], a)
    {
      assert pcs[..k + 1][..k] == pcs[..k];
      var pc: int := steps[k].pc;
      for i := 0 to 4
        invariant forall a :: 0 <= a < numRows ==>
          mults[a] == FetchCount(pcs[..k], a) + if pc <= a < pc + i then 1 else 0
      {
        var addr := pc + i;
        if addr < numRows {
          mults[addr] := mults[addr] + 1;
        }
      }
    }
    assert pcs[..|steps|] == pcs;
    for i := 0 to 4
      invariant forall a :: 0 <= a < numRows ==> mults[a] == FetchCount(pcs, a) + if a < i then padding else 0
    {
      mults[i] := mults[i] + padding;
    }
  }

  /** `program::trace::build_trace` */
  method BuildRom(program: seq<byte>, steps: seq<ExecutionStep>, padding: nat) returns (rows: array<ProgramColumns>)
    requires 0 < |program| <= MAX_PROGRAM
    ensures fresh(rows) && rows[..] == RomMatrix(program, PcsOf(steps), padding)
  {
    hide MultOf, ToLimbs, Carry, PaddedHeight;
    HeightBound(|program|);
    var numRows := PaddedHeight(|program|);
    var mults := CountFetches(steps, numRows, padding);
    rows := new ProgramColumns[numRows](_ => ProgramColumns(ZERO_LIMBS, 0, 0, ZERO_LIMBS, 0));
    for i := 0 to numRows
      invariant forall a :: 0 <= a < numRows ==> mults[a] == MultOf(PcsOf(steps), padding, a)
      invariant forall j :: 0 <= j < i ==> rows[j] == RomRowOf(program, PcsOf(steps), padding, j)
    {
      var inProgram := i < |program|;
      rows[i] := ProgramColumns(ToLimbs(i), if inProgram then program[i] else 0, mults[i],
                                CarriesOf(ToLimbs(i), ZERO_LIMBS, 1), if inProgram then 1 else 0);
    }
  }

  // The program table is accepted.

  lemma {:induction false} Pow2Grows(a: nat, b: nat)
    requires a < b
    ensures 2 * Pow2(a) <= Pow2(b)
    decreases b
  {
    if a < b - 1 {
      Pow2Grows(a, b - 1);
    }
  }

  /** A program of at most 2^24 bytes needs at most 2^24 rows. */
  lemma {:induction false} HeightFits(n: nat)
    requires n <= MAX_PROGRAM
    ensures PaddedHeight(n) <= MAX_PROGRAM
  {
    PaddedHeightIsPower(n);
    var k: nat :| PaddedHeight(n) == Pow2(k);
    assert Pow2(24) == MAX_PROGRAM by {
      SmallPowers();
      Pow2Sum(12, 12);
    }
    hide Pow2, PaddedHeight;
    if k > 24 {
      Pow2Grows(24, k);
    } else if k < 24 {
      Pow2Grows(k, 24);
    }
  }

  /** All fetches of a run stay inside the program. */
  ghost predicate FetchesInside(program: seq<byte>, pcs: seq<word>) {
    forall k :: 0 <= k < |pcs| ==> pcs[k] + 3 < |program|
  }

  lemma {:induction false} NoFetchOutside(program: seq<byte>, pcs: seq<word>, a: nat)
    requires FetchesInside(program, pcs) && a >= |program|
    ensures FetchCount(pcs, a) == 0
  {
    if |pcs| > 0 {
      NoFetchOutside(program, pcs[..|pcs| - 1], a);
    }
  }

  lemma {:induction false} TopCarryIsZero(a: word)
    requires a < MAX_PROGRAM
    ensures Carry(ToLimbs(a), ZERO_LIMBS, 1, 3) == 0 && ToLimbs(a)[3] == 0
  {
    assert ToLimbs(a)[3] == 0;
    ZeroWord();
    hide ToLimbs;
    SumLimbsMean(a, 0, 1);
    CarryOfSmall(ToLimbs(a), SumLimbs(ToLimbs(a), ZERO_LIMBS, 1), a, Carry(ToLimbs(a), ZERO_LIMBS, 1, 3));
  }

  lemma {:induction false} CarryOfSmall(x: Limbs, sum: Limbs, a: word, carry: int)
    requires a < MAX_PROGRAM && sum == ToLimbs(Wrap(a + 1)) && (carry == if a + 1 >= TWO32 then 1 else 0)
    ensures carry == 0
  {
  }

  lemma {:induction false} RomRowAccepted(p: int, program: seq<byte>, pcs: seq<word>, padding: nat, a: word)
    requires p > 1 && a < MAX_PROGRAM && FetchesInside(program, pcs) && 4 <= |program|
    ensures RomRow(p, RomRowOf(program, pcs, padding, a))
  {
    TopCarryIsZero(a);
    MultipleIsZero(p, 0);
    BitIsBool(p, Flag(a < |program|));
    if a >= |program| {
      NoFetchOutside(program, pcs, a);
    }
    hide ToLimbs, Carry, FetchCount, Bool, Zero;
    var r := RomRowOf(program, pcs, padding, a);
    assert r.mult * (1 - r.isReal) == 0;
  }

  lemma {:induction false} RomTransitionAccepted(p: int, program: seq<byte>, pcs: seq<word>, padding: nat, a: word)
    requires p > 1 && a + 1 < MAX_PROGRAM
    ensures RomTransition(p, RomRowOf(program, pcs, padding, a), RomRowOf(program, pcs, padding, a + 1))
  {
    assert Wrap(a + 1) == a + 1;
    hide ToLimbs, U32Inc, MultOf, Carry, Zero, Wrap;
    IncWitness(p, a);
    RealFalls(p, program, a);
  }

  lemma {:induction false} RealFalls(p: int, program: seq<byte>, a: nat)
    requires p > 1
    ensures Zero(p, (1 - Flag(a < |program|)) * Flag(a + 1 < |program|))
  {
    MultipleIsZero(p, 0);
  }

  /** The built program table meets every constraint: nothing is fetched from its padding. */
  lemma {:induction false} RomAccepted(p: int, program: seq<byte>, pcs: seq<word>, padding: nat)
    requires p > 1 && 4 <= |program| <= MAX_PROGRAM && FetchesInside(program, pcs)
    ensures RomEval(p, RomMatrix(program, pcs, padding))
  {
    var rows := RomMatrix(program, pcs, padding);
    HeightFits(|program|);
    assert ZeroAddress(p, ToLimbs(0)) by {
      MultipleIsZero(p, 0);
    }
    hide PaddedHeight, ToLimbs, Carry, MultOf, RomRow, RomTransition, FetchesInside, ZeroAddress;
    forall i | 0 <= i < |rows| ensures RomRow(p, rows[i]) {
      RomRowAccepted(p, program, pcs, padding, i);
    }
    forall i | 0 <= i < |rows| - 1 ensures RomStepsAt(p, rows, i) {
      RomTransitionAccepted(p, program, pcs, padding, i);
    }
  }

  // The program bus.

  /** Byte a of the program as a tuple. */
  function RomTuple(program: seq<byte>, a: nat): FetchTuple
    requires a < |program| <= MAX_PROGRAM
  {
    FetchTuple(ToLimbs(a), program[a])
  }

  /** The four bytes at pc differ in the low limb of their addresses alone. */
  predicate Unsplit(pc: word) {
    pc % 256 <= 252
  }

  lemma {:induction false} UnsplitLimbs(pc: word, i: nat)
    requires Unsplit(pc) && i < 4 && pc + 3 < TWO32
    ensures ToLimbs(pc + i) == [ToLimbs(pc)[0] + i, ToLimbs(pc)[1], ToLimbs(pc)[2], ToLimbs(pc)[3]]
  {
    LowLimb(pc, i);
    assert (pc + i) / 65536 == ((pc + i) / 256) / 256 && pc / 65536 == (pc / 256) / 256;
    assert (pc + i) / 16777216 == ((pc + i) / 256) / 65536 && pc / 16777216 == (pc / 256) / 65536;
  }

  lemma {:induction false} LowLimb(pc: word, i: nat)
    requires Unsplit(pc) && i < 4
    ensures (pc + i) % 256 == pc % 256 + i && (pc + i) / 256 == pc / 256
  {
    assert pc == 256 * (pc / 256) + pc % 256;
  }

  lemma {:induction false} WordBytes(program: seq<byte>, pc: nat)
    requires pc + 3 < |program|
    ensures ToLimbs(WordAt(program, pc)) == [program[pc], program[pc + 1], program[pc + 2], program[pc + 3]]
  {
    ValueToLimbs([program[pc], program[pc + 1], program[pc + 2], program[pc + 3]]);
  }

  lemma {:induction false} FilledFetch(pc: word, w: word, mult: int, i: nat)
    requires i < 4
    ensures var pcb := ToLimbs(pc);
            Fetch(FillDecode(pc, w).(mult := mult), i)
            == Entry(FetchTuple([pcb[0] + i, pcb[1], pcb[2], pcb[3]], ToLimbs(w)[i]), 1)
  {
    hide ToLimbs, Matches, ToBits, PackedOf, FlagsOf;
  }

  /** A decode row of the word at an unsplit pc fetches the four bytes at pc. */
  lemma {:induction false} FetchIsRomTuple(program: seq<byte>, pc: word, mult: int, i: nat)
    requires Unsplit(pc) && pc + 3 < |program| <= MAX_PROGRAM && i < 4
    ensures Fetch(FillDecode(pc, WordAt(program, pc)).(mult := mult), i) == Entry(RomTuple(program, pc + i), 1)
  {
    hide ToLimbs, Unsplit, WordAt, Fetch, FillDecode;
    UnsplitLimbs(pc, i);
    WordBytes(program, pc);
    FilledFetch(pc, WordAt(program, pc), mult, i);
  }

  lemma {:induction false} RomTupleInjective(program: seq<byte>, a: nat, b: nat)
    requires a < |program| <= MAX_PROGRAM && b < |program| && RomTuple(program, a) == RomTuple(program, b)
    ensures a == b
  {
    LimbsInjective(a, b);
  }

  /** Whether t is byte a of the program, for some a at pc. */
  function Hits(program: seq<byte>, pc: int, t: FetchTuple): int
    requires 0 <= pc && pc + 3 < |program| <= MAX_PROGRAM
  {
    Flag(RomTuple(program, pc) == t) + Flag(RomTuple(program, pc + 1) == t)
    + Flag(RomTuple(program, pc + 2) == t) + Flag(RomTuple(program, pc + 3) == t)
  }

  lemma {:induction false} HitsAddress(program: seq<byte>, pc: nat, a: nat)
    requires pc + 3 < |program| <= MAX_PROGRAM && a < |program|
    ensures Hits(program, pc, RomTuple(program, a)) == if IsFetched(pc, a) then 1 else 0
  {
    hide RomTuple;
    TupleReflected(program, pc, a);
    TupleReflected(program, pc + 1, a);
    TupleReflected(program, pc + 2, a);
    TupleReflected(program, pc + 3, a);
  }

  lemma {:induction false} TupleReflected(program: seq<byte>, a: nat, b: nat)
    requires a < |program| <= MAX_PROGRAM && b < |program|
    ensures RomTuple(program, a) == RomTuple(program, b) <==> a == b
  {
    if RomTuple(program, a) == RomTuple(program, b) {
      RomTupleInjective(program, a, b);
    }
  }

  lemma {:induction false} RowTotal(program: seq<byte>, pc: word, mult: int, t: FetchTuple)
    requires Unsplit(pc) && pc + 3 < |program| <= MAX_PROGRAM
    ensures Total(RowFetches(FillDecode(pc, WordAt(program, pc)).(mult := mult)), t) == Hits(program, pc, t)
  {
    var r := FillDecode(pc, WordAt(program, pc)).(mult := mult);
    hide FillDecode, RomTuple, Total, Fetch, WordAt;
    FetchIsRomTuple(program, pc, mult, 0);
    FetchIsRomTuple(program, pc, mult, 1);
    FetchIsRomTuple(program, pc, mult, 2);
    FetchIsRomTuple(program, pc, mult, 3);
    TotalFour(Fetch(r, 0), Fetch(r, 1), Fetch(r, 2), Fetch(r, 3), t);
  }

  /** A run whose instructions are read inside the program, the first at 0. */
  ghost predicate InsideRun(program: seq<byte>, steps: seq<ExecutionStep>) {
    && |steps| > 0 && steps[0].pc == 0 && |program| <= MAX_PROGRAM
    && forall k :: 0 <= k < |steps| ==> ReadsInside(program, steps[k])
  }

  /** Such a run none of whose instructions crosses a multiple of 256. */
  ghost predicate UnsplitRun(program: seq<byte>, steps: seq<ExecutionStep>) {
    && |steps| > 0 && steps[0].pc == 0 && |program| <= MAX_PROGRAM
    && forall k :: 0 <= k < |steps| ==> ReadsProgram(program, steps[k])
  }

  predicate ReadsInside(program: seq<byte>, step: ExecutionStep) {
    step.pc + 3 < |program| && step.instructionWord == WordAt(program, step.pc)
  }

  predicate ReadsProgram(program: seq<byte>, step: ExecutionStep) {
    Unsplit(step.pc) && ReadsInside(program, step)
  }

  lemma {:induction false} FetchesNext(rows: seq<DecodeColumns>, r: DecodeColumns, t: FetchTuple)
    ensures Total(Fetches(rows + [r]), t) == Total(Fetches(rows), t) + Total(RowFetches(r), t)
  {
    hide RowFetches;
    assert (rows + [r])[..|rows|] == rows;
    TotalAppend(Fetches(rows), RowFetches(r), t);
  }

  lemma {:induction false} CountNext(pcs: seq<word>, pc: word, a: int)
    ensures FetchCount(pcs + [pc], a) == FetchCount(pcs, a) + if IsFetched(pc, a) then 1 else 0
  {
    assert (pcs + [pc])[..|pcs|] == pcs;
  }

  /** The pc of decode row k. */
  function PcOfRow(steps: seq<ExecutionStep>, k: nat): word {
    if k < |steps| then steps[k].pc else 0
  }

  lemma {:induction false} RowPcInside(program: seq<byte>, steps: seq<ExecutionStep>, k: nat)
    requires UnsplitRun(program, steps)
    ensures PcOfRow(steps, k) + 3 < |program| <= MAX_PROGRAM
  {
    assert ReadsProgram(program, steps[0]);
    assert k < |steps| ==> ReadsProgram(program, steps[k]);
  }

  /** Fetches of a tuple by the first k rows: hits of the steps, then of the padding rows at 0. */
  ghost function HitCount(program: seq<byte>, steps: seq<ExecutionStep>, k: nat, t: FetchTuple): int
    requires UnsplitRun(program, steps)
  {
    if k == 0 then 0
    else
      RowPcInside(program, steps, k - 1);
      HitCount(program, steps, k - 1, t) + Hits(program, PcOfRow(steps, k - 1), t)
  }

  lemma {:induction false} DecodeRowTotal(program: seq<byte>, steps: seq<ExecutionStep>, k: nat, t: FetchTuple)
    requires UnsplitRun(program, steps)
    ensures Total(RowFetches(DecodeRowOf(steps, k)), t) == Hits(program, PcOfRow(steps, k), t)
  {
    hide FillDecode, RowFetches, Total, Hits, WordAt;
    assert ReadsProgram(program, steps[0]);
    if k < |steps| {
      assert ReadsProgram(program, steps[k]);
      RowTotal(program, steps[k].pc, 1, t);
      MultStays(steps[k].pc, steps[k].instructionWord);
    } else {
      RowTotal(program, 0, 0, t);
    }
  }

  lemma {:induction false} MultStays(pc: word, w: word)
    ensures FillDecode(pc, w).(mult := 1) == FillDecode(pc, w)
  {
    hide ToLimbs, Matches, ToBits, PackedOf, FlagsOf;
  }

  lemma {:induction false} MatrixNext(steps: seq<ExecutionStep>, k: nat)
    requires 0 < |steps| && k < PaddedHeight(|steps|)
    ensures DecodeMatrix(steps)[..k + 1] == DecodeMatrix(steps)[..k] + [DecodeRowOf(steps, k)]
  {
    hide DecodeRowOf, PaddedHeight;
  }

  lemma {:induction false} FetchesCount(program: seq<byte>, steps: seq<ExecutionStep>, k: nat, t: FetchTuple)
    requires UnsplitRun(program, steps) && k <= PaddedHeight(|steps|)
    ensures Total(Fetches(DecodeMatrix(steps)[..k]), t) == HitCount(program, steps, k, t)
  {
    if k > 0 {
      FetchesCount(program, steps, k - 1, t);
      hide DecodeRowOf, Fetches, Total, Hits, PaddedHeight, ReadsProgram, DecodeMatrix, PcOfRow;
      MatrixNext(steps, k - 1);
      FetchesNext(DecodeMatrix(steps)[..k - 1], DecodeRowOf(steps, k - 1), t);
      DecodeRowTotal(program, steps, k - 1, t);
    } else {
      assert DecodeMatrix(steps)[..0] == [];
    }
  }

  lemma {:induction false} PcsNext(steps: seq<ExecutionStep>, k: nat, a: nat)
    requires k < |steps|
    ensures FetchCount(PcsOf(steps)[..k + 1], a)
         == FetchCount(PcsOf(steps)[..k], a) + if IsFetched(steps[k].pc, a) then 1 else 0
  {
    hide FetchCount;
    assert PcsOf(steps)[..k + 1] == PcsOf(steps)[..k] + [steps[k].pc];
    CountNext(PcsOf(steps)[..k], steps[k].pc, a);
  }

  lemma {:induction false} HitsOfSteps(program: seq<byte>, steps: seq<ExecutionStep>, k: nat, a: nat)
    requires UnsplitRun(program, steps) && a < |program| && k <= |steps|
    ensures HitCount(program, steps, k, RomTuple(program, a)) == FetchCount(PcsOf(steps)[..k], a)
  {
    if k > 0 {
      HitsOfSteps(program, steps, k - 1, a);
      RowPcInside(program, steps, k - 1);
      hide Hits, RomTuple, FetchCount, PcsOf;
      HitsAddress(program, steps[k - 1].pc, a);
      PcsNext(steps, k - 1, a);
    }
  }

  lemma {:induction false} HitsOfPadding(program: seq<byte>, steps: seq<ExecutionStep>, k: nat, a: nat)
    requires UnsplitRun(program, steps) && a < |program| && k >= |steps|
    ensures HitCount(program, steps, k, RomTuple(program, a)) == MultOf(PcsOf(steps), k - |steps|, a)
    decreases k
  {
    if k > |steps| {
      HitsOfPadding(program, steps, k - 1, a);
      RowPcInside(program, steps, k - 1);
      hide Hits, RomTuple, FetchCount, PcsOf;
      HitsAddress(program, 0, a);
    } else {
      HitsOfSteps(program, steps, k, a);
      assert PcsOf(steps)[..k] == PcsOf(steps);
    }
  }

  lemma {:induction false} HitsOfOthers(program: seq<byte>, steps: seq<ExecutionStep>, k: nat, t: FetchTuple)
    requires UnsplitRun(program, steps) && forall a: nat :: a < |program| ==> RomTuple(program, a) != t
    ensures HitCount(program, steps, k, t) == 0
  {
    if k > 0 {
      HitsOfOthers(program, steps, k - 1, t);
      RowPcInside(program, steps, k - 1);
      hide RomTuple;
    }
  }

  /** The table offers a tuple as often as the multiplicity of the row of its address. */
  lemma {:induction false} OffersAddress(program: seq<byte>, pcs: seq<word>, padding: nat, a: nat)
    requires 0 < |program| <= MAX_PROGRAM && a < |program| && FetchesInside(program, pcs) && 4 <= |program|
    ensures Total(FetchReceives(RomMatrix(program, pcs, padding)), RomTuple(program, a)) == MultOf(pcs, padding, a)
  {
    var receives, t := FetchReceives(RomMatrix(program, pcs, padding)), RomTuple(program, a);
    HeightFits(|program|);
    hide PaddedHeight, Total, MultOf, FetchesInside;
    forall i | 0 <= i < |receives| ensures receives[i].tuple == t ==> i == a {
      LimbsInjective(i, a);
    }
    TotalAtOne(receives, a, t);
  }

  /** Rows after the program are fetched by nobody. */
  lemma {:induction false} OffersNothingElse(program: seq<byte>, pcs: seq<word>, padding: nat, t: FetchTuple)
    requires 4 <= |program| <= MAX_PROGRAM && FetchesInside(program, pcs)
    requires forall a: nat :: a < |program| ==> RomTuple(program, a) != t
    ensures Total(FetchReceives(RomMatrix(program, pcs, padding)), t) == 0
  {
    var receives := FetchReceives(RomMatrix(program, pcs, padding));
    HeightFits(|program|);
    hide PaddedHeight, Total, FetchesInside, FetchCount, RomTuple;
    forall i | 0 <= i < |receives| ensures receives[i].tuple == t ==> receives[i].multiplicity == 0 {
      ReceiveOf(program, pcs, padding, i);
    }
    TotalOfAbsent(receives, t);
  }

  lemma {:induction false} ReceiveOf(program: seq<byte>, pcs: seq<word>, padding: nat, i: word)
    requires 4 <= |program| <= MAX_PROGRAM && FetchesInside(program, pcs)
    ensures var r := RomRowOf(program, pcs, padding, i);
            && (i < |program| ==> FetchTuple(r.address, r.value) == RomTuple(program, i))
            && (i >= |program| ==> r.mult == 0)
  {
    hide ToLimbs, Carry, FetchCount;
    if i >= |program| {
      NoFetchOutside(program, pcs, i);
    }
  }

  lemma {:induction false} RunIsInside(program: seq<byte>, steps: seq<ExecutionStep>)
    requires UnsplitRun(program, steps)
    ensures FetchesInside(program, PcsOf(steps)) && 4 <= |program|
  {
    assert ReadsProgram(program, steps[0]);
    forall k | 0 <= k < |steps| ensures PcsOf(steps)[k] + 3 < |program| {
      assert ReadsProgram(program, steps[k]);
    }
  }

  /**
   * Program fetch. For every unsplit run the fetches of its decode rows, padding rows included,
   * balance with the program table whose multiplicities count the same run, and that table is
   * accepted: no padding row is fetched.
   */
  lemma {:induction false} FetchesBalance(p: int, program: seq<byte>, steps: seq<ExecutionStep>)
    requires p > 1 && UnsplitRun(program, steps)
    ensures var rom := RomMatrix(program, PcsOf(steps), PaddedHeight(|steps|) - |steps|);
            RomEval(p, rom) && Balanced(p, Fetches(DecodeMatrix(steps)), FetchReceives(rom))
  {
    RunIsInside(program, steps);
    hide PaddedHeight, DecodeMatrix, RomMatrix, Fetches, FetchReceives, UnsplitRun, FetchesInside, RomEval, PcsOf, Balanced;
    RomAccepted(p, program, PcsOf(steps), PaddedHeight(|steps|) - |steps|);
    FetchBusBalances(p, program, steps);
  }

  lemma {:induction false} FetchBusBalances(p: int, program: seq<byte>, steps: seq<ExecutionStep>)
    requires p > 1 && UnsplitRun(program, steps)
    ensures |program| <= MAX_PROGRAM
    ensures Balanced(p, Fetches(DecodeMatrix(steps)),
                     FetchReceives(RomMatrix(program, PcsOf(steps), PaddedHeight(|steps|) - |steps|)))
  {
    assert |program| <= MAX_PROGRAM && |steps| > 0 && PaddedHeight(|steps|) >= |steps|;
    hide *;
    var sends, receives := Fetches(DecodeMatrix(steps)), FetchReceives(RomMatrix(program, PcsOf(steps), PaddedHeight(|steps|) - |steps|));
    forall t ensures Total(sends, t) == Total(receives, t) {
      TupleBalances(program, steps, t);
    }
    TotalsBalance(p, sends, receives);
  }

  lemma {:induction false} TupleBalances(program: seq<byte>, steps: seq<ExecutionStep>, t: FetchTuple)
    requires UnsplitRun(program, steps)
    ensures 4 <= |program| <= MAX_PROGRAM
    ensures Total(Fetches(DecodeMatrix(steps)), t)
         == Total(FetchReceives(RomMatrix(program, PcsOf(steps), PaddedHeight(|steps|) - |steps|)), t)
  {
    RunIsInside(program, steps);
    MatrixWhole(steps);
    hide PaddedHeight, Total, RomTuple, DecodeMatrix, RomMatrix, Fetches, FetchReceives, ReadsProgram, FetchesInside, HitCount,
         MultOf, PcsOf;
    var h := PaddedHeight(|steps|);
    FetchesCount(program, steps, h, t);
    if a: nat :| a < |program| && RomTuple(program, a) == t {
      HitsOfPadding(program, steps, h, a);
      OffersAddress(program, PcsOf(steps), h - |steps|, a);
    } else {
      HitsOfOthers(program, steps, h, t);
      OffersNothingElse(program, PcsOf(steps), h - |steps|, t);
    }
  }

  lemma {:induction false} MatrixWhole(steps: seq<ExecutionStep>)
    requires |steps| > 0
    ensures DecodeMatrix(steps)[..PaddedHeight(|steps|)] == DecodeMatrix(steps)
  {
  }

  /**
   * The exact condition. The fetch adds 0 to 3 to the low limb of the pc and carries nothing over, so
   * the fetches of a run balance with its program table if and only if no pc has a low limb above 252.
   */
  lemma {:induction false} FetchesBalanceIff(p: int, program: seq<byte>, steps: seq<ExecutionStep>)
    requires p > 1 && InsideRun(program, steps) && 4 * PaddedHeight(|steps|) < p
    ensures Balanced(p, Fetches(DecodeMatrix(steps)),
                     FetchReceives(RomMatrix(program, PcsOf(steps), PaddedHeight(|steps|) - |steps|)))
       <==> forall k :: 0 <= k < |steps| ==> steps[k].pc % 256 <= 252
  {
    if forall k :: 0 <= k < |steps| ==> steps[k].pc % 256 <= 252 {
      assert UnsplitRun(program, steps);
      FetchesBalance(p, program, steps);
    } else {
      var k: nat :| k < |steps| && steps[k].pc % 256 > 252;
      assert |program| <= MAX_PROGRAM;
      hide InsideRun, PaddedHeight, Balanced, Fetches, DecodeMatrix, FetchReceives, RomMatrix, PcsOf;
      SplitUnanswered(p, program, steps, PcsOf(steps), PaddedHeight(|steps|) - |steps|, k);
    }
  }

  /** The last fetch of an instruction that crosses a multiple of 256 has a low limb no program row has. */
  lemma {:induction false} SplitUnanswered(p: int, program: seq<byte>, steps: seq<ExecutionStep>, pcs: seq<word>, padding: nat, k: nat)
    requires p > 1 && |program| <= MAX_PROGRAM && k < |steps| && steps[k].pc % 256 > 252 && 4 * PaddedHeight(|steps|) < p
    ensures !Balanced(p, Fetches(DecodeMatrix(steps)), FetchReceives(RomMatrix(program, pcs, padding)))
  {
    var rows, receives := DecodeMatrix(steps), FetchReceives(RomMatrix(program, pcs, padding));
    SplitLimb(steps, k);
    assert |rows| == PaddedHeight(|steps|) && k < |rows|;
    ByteAddresses(program, pcs, padding);
    hide Balanced, Fetches, DecodeMatrix, FetchReceives, RomMatrix, Fetch, PaddedHeight, Live;
    FetchesLive(rows);
    FetchIsSent(rows, k, 3);
    if Balanced(p, Fetches(rows), receives) {
      SentIsReceived(p, Fetches(rows), receives, Fetch(rows[k], 3).tuple);
    }
  }

  lemma {:induction false} SplitLimb(steps: seq<ExecutionStep>, k: nat)
    requires k < |steps| && steps[k].pc % 256 > 252
    ensures k < |DecodeMatrix(steps)| && Fetch(DecodeMatrix(steps)[k], 3).tuple.address[0] >= 256
  {
    hide PaddedHeight, Matches, ToBits, PackedOf, FlagsOf;
  }

  lemma {:induction false} ByteAddresses(program: seq<byte>, pcs: seq<word>, padding: nat)
    requires |program| <= MAX_PROGRAM
    ensures var receives := FetchReceives(RomMatrix(program, pcs, padding));
            forall j :: 0 <= j < |receives| ==> receives[j].tuple.address[0] < 256
  {
    hide PaddedHeight, Carry, MultOf;
  }

  /** The machine reads what it logs: a run none of whose instructions crosses a multiple of 256 is such a run. */
  lemma {:induction false} RunReadsProgram(program: seq<byte>, n: nat)
    requires n > 0 && Execute(program, n).Stepped? && |program| <= MAX_PROGRAM
    ensures InsideRun(program, Execute(program, n).state.trace)
    ensures UnsplitRun(program, Execute(program, n).state.trace)
       <==> forall k :: 0 <= k < |Execute(program, n).state.trace| ==> Execute(program, n).state.trace[k].pc % 256 <= 252
  {
    ReadsAll(program, n);
    FirstAtZero(program, n);
    hide Execute;
    var trace := Execute(program, n).state.trace;
    forall k | 0 <= k < |trace| ensures ReadsInside(program, trace[k]) {
    }
    assert forall k :: 0 <= k < |trace| ==> (ReadsProgram(program, trace[k]) <==> trace[k].pc % 256 <= 252);
  }

  lemma {:induction false} ReadsAll(program: seq<byte>, n: nat)
    requires Execute(program, n).Stepped?
    ensures var s := Execute(program, n).state;
            s.program == program
            && forall k :: 0 <= k < |s.trace| ==>
                 s.trace[k].pc + 3 < |program| && s.trace[k].instructionWord == WordAt(program, s.trace[k].pc)
  {
    hide DecodeInstruction, WordAt, RegistersAfter, OperationsOf, NextPc, Fits;
    if n > 0 {
      var s, s', i := LastSteps(program, n);
      ReadsAll(program, n - 1);
      hide Execute;
    }
  }

  lemma {:induction false} FirstAtZero(program: seq<byte>, n: nat)
    requires n > 0 && Execute(program, n).Stepped?
    ensures var trace := Execute(program, n).state.trace; |trace| > 0 && trace[0].pc == 0
  {
    hide DecodeInstruction, WordAt, RegistersAfter, OperationsOf, NextPc, Fits;
    var s, s', i := LastSteps(program, n);
    if n > 1 {
      FirstAtZero(program, n - 1);
    }
  }

  // Whatever the prover commits to, a fetch is a read of the program.

  lemma {:induction false} FetchesLive(rows: seq<DecodeColumns>)
    ensures Selectors(Fetches(rows)) && |Live(Fetches(rows))| <= 4 * |rows|
  {
    if |rows| > 0 {
      var before, last := rows[..|rows| - 1], RowFetches(rows[|rows| - 1]);
      FetchesLive(before);
      LiveAppend(Fetches(before), last);
      LiveBound(last);
    }
  }

  lemma {:induction false} FetchIsSent(rows: seq<DecodeColumns>, k: nat, i: nat)
    requires k < |rows| && i < 4
    ensures Fetch(rows[k], i).tuple in Live(Fetches(rows))
  {
    hide Fetch;
    var n := |rows| - 1;
    LiveAppend(Fetches(rows[..n]), RowFetches(rows[n]));
    if k < n {
      FetchIsSent(rows[..n], k, i);
    } else {
      FetchMult(rows[n], i);
      LiveHas(RowFetches(rows[n]), i);
    }
  }

  lemma {:induction false} FetchMult(r: DecodeColumns, i: nat)
    requires i < 4
    ensures Fetch(r, i).multiplicity == 1 && RowFetches(r)[i] == Fetch(r, i)
  {
  }

  lemma {:induction false} SameField(p: int, x: int, j: nat)
    requires p > 0 && 0 <= x < p && j < p && Eq(p, x, j)
    ensures x == j
  {
    Lift(p, x - j);
  }

  lemma {:induction false} TopLimbZero(p: int, rom: seq<ProgramColumns>, j: nat)
    requires p > 0 && RomEval(p, rom) && j < |rom| && Residue(p, rom[j].address[3])
    ensures rom[j].address[3] == 0
  {
    assert RomRow(p, rom[j]);
    hide RomEval;
    Lift(p, rom[j].address[3]);
  }

  lemma {:induction false} FetchedAddress(r: DecodeColumns, i: nat, address: Limbs)
    requires i < 4 && Fetch(r, i).tuple.address == address
    ensures Value(address) == Value(r.pc) + i
    ensures AreBytes(r.pc) && address[3] == 0 ==> 0 <= Value(address) < MAX_PROGRAM + 3
  {
  }

  /** What a proof commits to on the program bus: an accepted program table that answers every fetch. */
  ghost predicate ProgramBus(p: int, rows: seq<DecodeColumns>, rom: seq<ProgramColumns>)
    requires p > 0
  {
    && RomResidues(p, rom) && RomEval(p, rom) && |rom| + 3 <= p && 4 * |rows| < p
    && (forall j :: 0 <= j < |rom| ==> Residue(p, rom[j].address[3]))
    && Balanced(p, Fetches(rows), FetchReceives(rom))
  }

  /** Every fetch of a decode row is answered by a real row of the program table. */
  lemma {:induction false} FetchIndex(p: int, rows: seq<DecodeColumns>, rom: seq<ProgramColumns>, k: nat, i: nat) returns (j: nat)
    requires LargePrime(p) && ProgramBus(p, rows, rom) && k < |rows| && i < 4
    ensures j < |RomBytes(rom)| <= |rom| && Eq(p, Value(rows[k].pc) + i, j)
    ensures rows[k].instruction[i] == RomBytes(rom)[j]
    ensures AreBytes(rows[k].pc) ==> 0 <= Value(rows[k].pc) + i < MAX_PROGRAM + 3
  {
    var t := Fetch(rows[k], i).tuple;
    FetchesLive(rows);
    FetchIsSent(rows, k, i);
    SentIsReceived(p, Fetches(rows), FetchReceives(rom), t);
    j :| j < |rom| && FetchReceives(rom)[j].tuple == t && FetchReceives(rom)[j].multiplicity != 0;
    assert IsPrime(p);
    hide Balanced, Fetches, RomResidues, RomEval, IsPrime, LargePrime, Value, Eq, AreBytes;
    AddressIsIndex(p, rom, j);
    TopLimbZero(p, rom, j);
    if j >= RealRows(rom) {
      RomPadding(p, rom, j);
    }
    FetchedAddress(rows[k], i, rom[j].address);
  }

  /**
   * Fetch soundness. When the program bus balances with an accepted program table, the instruction
   * bytes of every decode row with a byte address are the bytes of that program at the address,
   * even though the limbs of the program table are not range checked.
   */
  lemma {:induction false} FetchSound(p: int, rows: seq<DecodeColumns>, rom: seq<ProgramColumns>, k: nat, i: nat)
    requires LargePrime(p) && ProgramBus(p, rows, rom) && k < |rows| && i < 4 && AreBytes(rows[k].pc)
    ensures 0 <= Value(rows[k].pc) + i < |RomBytes(rom)|
    ensures rows[k].instruction[i] == RomBytes(rom)[Value(rows[k].pc) + i]
  {
    var j := FetchIndex(p, rows, rom, k, i);
    assert p > 2 * MAX_PROGRAM;
    hide Value, Eq, RomBytes, ProgramBus, AreBytes, LargePrime;
    SameField(p, Value(rows[k].pc) + i, j);
  }

  lemma {:induction false} NextField(p: int, x: int, i: nat, a: nat, j: nat)
    requires p > 0 && Eq(p, x, a) && Eq(p, x + i, j) && a + i < p && j < p
    ensures j == a + i
  {
    ZeroScale(p, -1, x - a);
    ZeroAdd(p, x + i - j, -1 * (x - a));
    Lift(p, a + i - j);
  }

  /**
   * The fetches of a decode row whose pc limbs are anything at all still read four consecutive bytes
   * of the program: those at the residue of its pc.
   */
  lemma {:induction false} FetchAnywhere(p: int, rows: seq<DecodeColumns>, rom: seq<ProgramColumns>, k: nat) returns (a: nat)
    requires LargePrime(p) && ProgramBus(p, rows, rom) && k < |rows|
    ensures a == Reduce(p, Value(rows[k].pc)) && a + 3 < |RomBytes(rom)|
    ensures forall i :: 0 <= i < 4 ==> rows[k].instruction[i] == RomBytes(rom)[a + i]
  {
    a := FetchIndex(p, rows, rom, k, 0);
    assert |rom| + 3 <= p;
    var b := FetchIndex(p, rows, rom, k, 1);
    var c := FetchIndex(p, rows, rom, k, 2);
    var d := FetchIndex(p, rows, rom, k, 3);
    hide ProgramBus, RomBytes, Eq, Value;
    NextField(p, Value(rows[k].pc), 1, a, b);
    NextField(p, Value(rows[k].pc), 2, a, c);
    NextField(p, Value(rows[k].pc), 3, a, d);
    ReducedIndex(p, Value(rows[k].pc), a);
  }

  lemma {:induction false} WordOfFetched(program: seq<byte>, pc: nat, bytes: Limbs)
    requires pc + 3 < |program| && forall i :: 0 <= i < 4 ==> bytes[i] == program[pc + i]
    ensures Value(bytes) == WordAt(program, pc)
  {
    assert bytes == [program[pc], program[pc + 1], program[pc + 2], program[pc + 3]] by {
      assert bytes[0] == program[pc + 0] && bytes[1] == program[pc + 1] && bytes[2] == program[pc + 2] && bytes[3] == program[pc + 3];
    }
  }

  lemma {:induction false} ByteAddress(p: int, rows: seq<DecodeColumns>, rom: seq<ProgramColumns>, k: nat)
    requires LargePrime(p) && ProgramBus(p, rows, rom) && k < |rows| && AreBytes(rows[k].pc)
    ensures Reduce(p, Value(rows[k].pc)) == Value(rows[k].pc)
  {
    var j := FetchIndex(p, rows, rom, k, 0);
    FetchSound(p, rows, rom, k, 0);
    BytesNonNegative(rows[k].pc);
    assert |RomBytes(rom)| <= |rom| < p;
    hide *;
    EqualsEq(p, Value(rows[k].pc), Value(rows[k].pc));
    ReducedIndex(p, Value(rows[k].pc), Value(rows[k].pc));
  }

  /** An accepted decode row decodes as the machine does at the address its pc stands for. */
  lemma {:induction false} DecodeReadsProgram(p: int, program: seq<byte>, rows: seq<DecodeColumns>, rom: seq<ProgramColumns>, k: nat)
    requires LargePrime(p) && ProgramBus(p, rows, rom) && k < |rows|
    requires DecodeResidues(p, rows[k]) && DecodeEval(p, rows[k]) && RomBytes(rom) == program
    ensures Reduce(p, Value(rows[k].pc)) + 3 < |program|
    ensures Value(rows[k].instruction) == WordAt(program, Reduce(p, Value(rows[k].pc)))
    ensures Decodes(rows[k], WordAt(program, Reduce(p, Value(rows[k].pc))))
    ensures AreBytes(rows[k].pc) ==> Reduce(p, Value(rows[k].pc)) == Value(rows[k].pc)
  {
    var r := rows[k];
    hide *;
    var a := FetchAnywhere(p, rows, rom, k);
    if AreBytes(r.pc) {
      ByteAddress(p, rows, rom, k);
    }
    DecodeSound(p, r);
    WordOfFetched(program, a, r.instruction);
  }

  lemma {:induction false} BytesNonNegative(x: Limbs)
    requires AreBytes(x)
    ensures Value(x) >= 0
  {
  }

  // The built tables as a proof commits to them.

  lemma {:induction false} FilledDecodeResidues(p: int, pc: word, w: word)
    requires LargePrime(p)
    ensures DecodeResidues(p, FillDecode(pc, w))
  {
    ToLimbsValue(w);
    BitResidues(p, ByteBits(w, 0));
    BitResidues(p, ByteBits(w, 1));
    BitResidues(p, ByteBits(w, 2));
    BitResidues(p, ByteBits(w, 3));
    BitResidues(p, FlagsOf(w));
    PackedRange(w);
    assert 0 <= w / 0x10_0000 < 4096;
    hide ToLimbs, Value, Matches, PackedOf, FlagsOf, ByteBits, IsPrime, Residues;
  }

  lemma {:induction false} PackedRange(w: word)
    ensures 0 <= PackedOf(w) < 23 && AreBits(FlagsOf(w))
  {
    hide Matches;
  }

  ghost predicate AllDecode(steps: seq<ExecutionStep>) {
    forall k :: 0 <= k < |steps| ==> DecodeInstruction(steps[k].instructionWord).Some?
  }

  lemma {:induction false} DecodeRowAccepted(p: int, steps: seq<ExecutionStep>, k: nat)
    requires LargePrime(p) && |steps| > 0 && AllDecode(steps)
    ensures DecodeResidues(p, DecodeRowOf(steps, k)) && DecodeEval(p, DecodeRowOf(steps, k))
  {
    var pc, w := if k < |steps| then steps[k].pc else 0, if k < |steps| then steps[k].instructionWord else steps[0].instructionWord;
    FilledDecodeResidues(p, pc, w);
    DecodeComplete(p, pc, w);
    MultIsFree(p, FillDecode(pc, w), 0);
    hide FillDecode, DecodeResidues, DecodeEval, DecodeInstruction, LargePrime;
  }

  /** No constraint mentions the multiplicity of a decode row. */
  lemma {:induction false} MultIsFree(p: int, r: DecodeColumns, mult: int)
    requires p > 0 && DecodeEval(p, r) && DecodeResidues(p, r)
    ensures DecodeEval(p, r.(mult := mult)) && DecodeResidues(p, r.(mult := mult))
  {
    hide FlagConstraints, ByteConstraints, FieldConstraints, OperandConstraints, Low8Constraints, PackedSum, Residues;
    OperandsWithMult(p, r, mult);
  }

  lemma {:induction false} OperandsWithMult(p: int, r: DecodeColumns, mult: int)
    requires p > 0 && OperandConstraints(p, r)
    ensures OperandConstraints(p, r.(mult := mult))
  {
    hide PackRd, PackRs1, PackRs2, PackImm;
  }

  lemma {:induction false} FetchCountBound(pcs: seq<word>, a: int)
    ensures FetchCount(pcs, a) <= |pcs|
  {
    if |pcs| > 0 {
      FetchCountBound(pcs[..|pcs| - 1], a);
    }
  }

  lemma {:induction false} ProgramBusOf(p: int, rows: seq<DecodeColumns>, rom: seq<ProgramColumns>)
    requires p > 0 && RomResidues(p, rom) && RomEval(p, rom) && |rom| + 3 <= p && 4 * |rows| < p
    requires forall j :: 0 <= j < |rom| ==> Residue(p, rom[j].address[3])
    requires Balanced(p, Fetches(rows), FetchReceives(rom))
    ensures ProgramBus(p, rows, rom)
  {
    hide RomResidues, RomEval, Balanced, Fetches, FetchReceives;
  }

  lemma {:induction false} MatrixHeights(program: seq<byte>, steps: seq<ExecutionStep>, padding: nat)
    requires |program| <= MAX_PROGRAM && |steps| > 0
    ensures |RomMatrix(program, PcsOf(steps), padding)| == PaddedHeight(|program|) <= MAX_PROGRAM
    ensures |DecodeMatrix(steps)| == PaddedHeight(|steps|) && |PcsOf(steps)| == |steps|
  {
    HeightFits(|program|);
    hide PaddedHeight;
  }

  /** The decode and program tables of an unsplit run commit to the program. */
  lemma {:induction false} RunCommitsProgram(p: int, program: seq<byte>, steps: seq<ExecutionStep>)
    requires LargePrime(p) && UnsplitRun(program, steps) && 8 * |steps| + 16 < p
    ensures |program| <= MAX_PROGRAM
    ensures var rom := RomMatrix(program, PcsOf(steps), PaddedHeight(|steps|) - |steps|);
            ProgramBus(p, DecodeMatrix(steps), rom) && RomBytes(rom) == program
  {
    hide *;
    CommitSizes(p, program, steps);
    var padding := PaddedHeight(|steps|) - |steps|;
    FetchesBalance(p, program, steps);
    MatrixHeights(program, steps, padding);
    MultsFit(p, PcsOf(steps), padding);
    RomMatrixResidues(p, program, PcsOf(steps), padding);
    RomMatrixBytes(program, PcsOf(steps), padding);
    ProgramBusOf(p, DecodeMatrix(steps), RomMatrix(program, PcsOf(steps), padding));
  }

  lemma {:induction false} CommitSizes(p: int, program: seq<byte>, steps: seq<ExecutionStep>)
    requires LargePrime(p) && UnsplitRun(program, steps)
    ensures p > MAX_PROGRAM + 3 && p > 256 && |program| <= MAX_PROGRAM && |steps| > 0
  {
    hide Execute, PaddedHeight;
  }

  lemma {:induction false} RomMatrixResidues(p: int, program: seq<byte>, pcs: seq<word>, padding: nat)
    requires |program| <= MAX_PROGRAM && p > 256
    requires forall a: nat :: a < 2 * MAX_PROGRAM ==> MultOf(pcs, padding, a) < p
    ensures var rom := RomMatrix(program, pcs, padding);
            RomResidues(p, rom) && forall j :: 0 <= j < |rom| ==> Residue(p, rom[j].address[3])
  {
    var rom := RomMatrix(program, pcs, padding);
    HeightBound(|program|);
    hide ToLimbs, Carry, MultOf, PaddedHeight;
    forall j | 0 <= j < |rom| ensures Residue(p, rom[j].isReal) && Residue(p, rom[j].mult) && Residue(p, rom[j].address[3]) {
      TopLimb(j);
    }
  }

  lemma {:induction false} MultsFit(p: int, pcs: seq<word>, padding: nat)
    requires |pcs| + padding < p
    ensures forall a: nat :: a < 2 * MAX_PROGRAM ==> MultOf(pcs, padding, a) < p
  {
    hide FetchCount;
    forall a: nat | a < 2 * MAX_PROGRAM ensures MultOf(pcs, padding, a) < p {
      FetchCountBound(pcs, a);
    }
  }

  lemma {:induction false} TopLimb(a: word)
    ensures 0 <= ToLimbs(a)[3] < 256
  {
  }

  lemma {:induction false} RomMatrixBytes(program: seq<byte>, pcs: seq<word>, padding: nat)
    requires |program| <= MAX_PROGRAM
    ensures RomBytes(RomMatrix(program, pcs, padding)) == program
  {
    var rom := RomMatrix(program, pcs, padding);
    hide ToLimbs, Carry, MultOf, PaddedHeight;
    RealRowsAre(rom, |program|);
  }

  lemma {:induction false} RealRowsAre(rows: seq<ProgramColumns>, n: nat)
    requires n <= |rows| && forall i :: 0 <= i < n ==> rows[i].isReal == 1
    requires n < |rows| ==> rows[n].isReal != 1
    ensures RealRows(rows) == n
  {
    if n > 0 {
      RealRowsAre(rows[1..], n - 1);
    }
  }
}
