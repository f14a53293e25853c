/**
 * Execution soundness. The rows of the instruction tables as they are committed to, what their constraints
 * force of them, the columns they leave open, what the lookup buses guarantee, and the one execution that
 * is left when every bus balances.
 */
module TableRows {
  import opened Words
  import opened PrimeField
  import opened Rv32
  import opened Vm
  import opened Jal
  import opened U32Ops
  import opened U32LessThan
  import opened TimestampLessThan
  import opened ByteTables
  import opened Shifts
  import opened Subtract
  import opened JalAir
  import opened JalrAir
  import opened Lookups
  import opened Bus
  import opened TraceBus
  import opened Decode
  import opened ProgramRom
  import opened DecodeBus
  import opened RowBuses
  import opened MemoryAir
  import opened MemoryTimes
  import opened VmLog
  import opened ByteCounts
  import opened EndToEnd
  import opened InstructionRows

  // What the constraints of each modelled table force of a row.

  lemma {:induction false} RTypeOf(r: BusRow, i: Instruction)
    requires RowDenotes(r, i)
    ensures r.id == 11 ==> i.Sra?
    ensures r.id == 9 ==> i.Sll?
    ensures r.id == 15 ==> i.Slt?
    ensures r.id == 5 ==> i.Sub?
    ensures r.id == 21 ==> i.Jal? && i.imm == Offset(r.field4, r.low8)
    ensures r.id == 22 ==> i.Jalr? && 0 <= r.field4 < 4096 && i.imm == SignExtend12(r.field4)
  {
    hide Offset, SignExtend12;
  }

  function SraBusRow(r: SraColumns): BusRow {
    BusRow(11, r.pc, r.timestamp, r.rd, r.rs1, r.rs2, 0, r.rs1Bytes, r.rs2Value, r.oldRdValue, r.rdBytes, r.nextPc, 1, r.isDummy)
  }

  function SllBusRow(r: SllColumns): BusRow {
    BusRow(9, r.pc, r.timestamp, r.rd, r.rs1, r.rs2, 0, r.rs1Bytes, r.rs2Value, r.oldRdValue, r.rdBytes, r.nextPc, 1, r.isDummy)
  }

  /** The SLT table writes its result column. */
  function SltBusRow(r: SltColumns): BusRow {
    BusRow(15, r.pc, r.timestamp, r.rd, r.rs1, r.rs2, 0, r.rs1Bytes, r.rs2Bytes, r.oldRdValue, [r.ltResult, 0, 0, 0], r.nextPc, 1,
           r.isDummy)
  }

  function SubBusRow(r: SubColumns): BusRow {
    BusRow(5, r.pc, r.timestamp, r.rd, r.rs1, r.rs2, 0, r.rs1Value, r.rs2Value, r.oldRdValue, r.rdNewValue, r.nextPc, 1, r.isDummy)
  }

  /** The write of a JAL is gated by 1 - rd_is_zero. */
  function JalBusRow(r: JalColumns): BusRow {
    BusRow(21, r.pc, r.timestamp, r.rd, 0, r.immHigh12, r.immLo8, ZERO_LIMBS, ZERO_LIMBS, r.oldRdValue, r.rdVal, r.nextPc,
           1 - r.rdIsZero, r.isDummy)
  }

  function JalrBusRow(r: JalrColumns): BusRow {
    BusRow(22, r.pc, r.timestamp, r.rd, r.rs1, r.imm, 0, r.rs1Value, ZERO_LIMBS, r.oldRdValue, r.rdVal, r.nextPc, 1, r.isDummy)
  }

  /** An accepted SRA row carries out its SRA exactly when its low-7 column is below 128 or nothing is shifted. */
  lemma {:induction false} SraCarriesOutIff(p: int, r: SraColumns, i: Instruction)
    requires LargePrime(p) && SraResidues(p, r) && SraEval(p, r) && SraLookups(r) && ByteRowFor(SraBusRow(r), i)
    ensures CarriesOut(SraBusRow(r), i) <==> r.rs1Byte3Low7 < 128 || Value(r.rs2Value) % 32 == 0
  {
    SraSound(p, r);
    assert AreBytes(r.rs2Value) && AreBytes(r.rdBytes);
    hide SraEval, SraLookups, SraResidues, Value, Sra32, LargePrime, Denotes, AreBytes;
    BytesAreWord(r.rs2Value);
    RTypeOf(SraBusRow(r), i);
    BytesAreWord(r.pc);
  }

  lemma {:induction false} SllForced(p: int, r: SllColumns)
    requires LargePrime(p) && Residue(p, r.amount.byteShamt) && SllEval(p, r) && SllLookups(r)
    ensures RowForced(SllBusRow(r))
  {
    SllSound(p, r);
    assert AreBytes(r.rs2Value) && AreBytes(r.rdBytes);
    hide SllEval, SllLookups, Value, Shl, LargePrime, Denotes, AreBytes;
    BytesAreWord(r.rs1Bytes);
    BytesAreWord(r.rs2Value);
    forall i | AreBytes(r.pc) && AreBytes(r.nextPc) && RowDenotes(SllBusRow(r), i) ensures CarriesOut(SllBusRow(r), i) {
      RTypeOf(SllBusRow(r), i);
      BytesAreWord(r.pc);
    }
  }

  lemma {:induction false} ResultColumn(lt: int)
    ensures Value([lt, 0, 0, 0]) == lt && (IsBit(lt) ==> AreBytes([lt, 0, 0, 0]))
  {
  }

  lemma {:induction false} FlagIsBit(b: bool)
    ensures IsBit(Flag(b)) && Flag(b) == if b then 1 else 0
  {
  }

  /** An accepted SLT row carries out its SLT exactly when its low-7 columns are on the same side of 128. */
  lemma {:induction false} SltCarriesOutIff(p: int, r: SltColumns, i: Instruction)
    requires LargePrime(p) && SltResidues(p, r) && SltEval(p, r) && SltLookups(r) && ByteRowFor(SltBusRow(r), i)
    ensures CarriesOut(SltBusRow(r), i) <==> (r.rs1Byte3Low7 < 128 <==> r.rs2Byte3Low7 < 128)
  {
    SltSound(p, r);
    assert AreBytes(r.rs1Bytes) && AreBytes(r.rs2Bytes);
    ResultColumn(r.ltResult);
    hide SltEval, SltLookups, SltResidues, Value, Signed, LargePrime, Denotes, AreBytes, Wrap, Flag, IsBit;
    FlagIsBit(Signed(Value(r.rs1Bytes)) < Signed(Value(r.rs2Bytes)));
    RTypeOf(SltBusRow(r), i);
    BytesAreWord(r.pc);
  }

  lemma {:induction false} SubForced(p: int, r: SubColumns)
    requires LargePrime(p) && SubEval(p, r) && SubLookups(r)
    ensures RowForced(SubBusRow(r))
  {
    SubSound(p, r);
    assert AreBytes(r.rs1Value) && AreBytes(r.rs2Value) && AreBytes(r.rdNewValue);
    hide SubEval, SubLookups, Value, LargePrime, Denotes, AreBytes, Wrap;
    forall i | AreBytes(r.pc) && AreBytes(r.nextPc) && RowDenotes(SubBusRow(r), i) ensures CarriesOut(SubBusRow(r), i) {
      RTypeOf(SubBusRow(r), i);
      BytesAreWord(r.pc);
    }
  }

  lemma {:induction false} LinkIsPcPlusFour(pc: word, rdVal: int)
    requires rdVal == pc + 4 && rdVal < TWO32
    ensures Wrap(pc + 4) == rdVal
  {
  }

  lemma {:induction false} JalResults(i: Instruction, pc: word, offset: int, rdVal: word, nextPc: int, rdIsZero: int, rd: int)
    requires i.Jal? && i.imm == offset && rdVal == pc + 4 && nextPc == Wrap(pc + offset) && rdIsZero == Flag(rd == 0)
    ensures rdVal == Result(i, pc, 0, 0) && nextPc == NextPcFrom(i, pc, 0) && 1 - rdIsZero == Flag(rd != 0)
  {
    LinkIsPcPlusFour(pc, rdVal);
    WrapOfWrapped(pc, offset);
    hide Wrap;
  }

  /** An accepted JAL row carries out the JAL of its decode columns, whether or not it links. */
  lemma {:induction false} JalForced(p: int, r: JalColumns)
    requires LargePrime(p) && JalResidues(p, r) && JalEval(p, r) && AreBytes(r.rdVal)
    ensures RowForced(JalBusRow(r))
  {
    hide JalEval, JalResidues, Value, LargePrime, Denotes, AreBytes, Wrap, Offset, Result, NextPcFrom, Flag;
    ZeroBytes();
    BytesAreWord(r.rdVal);
    forall i | AreBytes(r.pc) && AreBytes(r.nextPc) && RowDenotes(JalBusRow(r), i) ensures CarriesOut(JalBusRow(r), i) {
      JalSound(p, r);
      RTypeOf(JalBusRow(r), i);
      BytesAreWord(r.pc);
      JalResults(i, Value(r.pc), Offset(r.immHigh12, r.immLo8), Value(r.rdVal), Value(r.nextPc), r.rdIsZero, r.rd);
    }
  }

  /**
   * An accepted JALR row carries out its JALR exactly when its sign column is the sign of the
   * immediate, its next pc is even, and rd is not register 0.
   */
  lemma {:induction false} JalrCarriesOutIff(p: int, r: JalrColumns, i: Instruction)
    requires LargePrime(p) && JalrResidues(p, r) && JalrEval(p, r) && AreBytes(r.rs1Value) && AreBytes(r.rdVal)
    requires ByteRowFor(JalrBusRow(r), i)
    ensures CarriesOut(JalrBusRow(r), i) <==> r.immHighBits[3] == Flag(r.imm >= 2048) && r.nextPc[0] % 2 == 0 && r.rd != 0
  {
    ZeroBytes();
    RTypeOf(JalrBusRow(r), i);
    assert i.rd == r.rd && i == Jalr(i.rd, i.rs1, SignExtend12(r.imm));
    hide JalrEval, JalrResidues, Value, LargePrime, AreBytes, Wrap, SignExtend12, Denotes, Result, NextPcFrom, Flag;
    JalrSound(p, r, i.rd, i.rs1);
  }

  /**
   * A row of some instruction table. A row of a table that is not modelled is known by the columns it
   * puts on the shared buses and the tuples it looks up.
   */
  datatype TableRow =
    | InSra(sra: SraColumns)
    | InSll(sll: SllColumns)
    | InSlt(slt: SltColumns)
    | InSub(sub: SubColumns)
    | InJal(jal: JalColumns)
    | InJalr(jalr: JalrColumns)
    | InOther(other: BusRow, bytes: seq<int>, left: seq<ShiftRow>, right: seq<ShiftRow>)

  function BusRowOf(t: TableRow): BusRow {
    match t
    case InSra(r) => SraBusRow(r)
    case InSll(r) => SllBusRow(r)
    case InSlt(r) => SltBusRow(r)
    case InSub(r) => SubBusRow(r)
    case InJal(r) => JalBusRow(r)
    case InJalr(r) => JalrBusRow(r)
    case InOther(r, _, _, _) => r
  }

  function BusRowsOf(rows: seq<TableRow>): seq<BusRow> {
    seq(|rows|, k requires 0 <= k < |rows| => BusRowOf(rows[k]))
  }

  /** What the constraints and lookups of a table that is not modelled must establish of a row. */
  ghost predicate SomeTableRow(r: BusRow) {
    IsBit(r.isDummy) && IsBit(r.links) && (r.isDummy == 1 ==> RowForced(r))
  }

  /** The constraints of the row's table. */
  ghost predicate Constrained(p: int, t: TableRow)
    requires p > 0
  {
    && Residue(p, BusRowOf(t).timestamp) && Residue(p, BusRowOf(t).isDummy)
    && match t
       case InSra(r) => SraResidues(p, r) && SraEval(p, r)
       case InSll(r) => Residue(p, r.amount.byteShamt) && SllEval(p, r)
       case InSlt(r) => SltResidues(p, r) && SltEval(p, r)
       case InSub(r) => SubEval(p, r)
       case InJal(r) => JalResidues(p, r) && JalEval(p, r)
       case InJalr(r) => JalrResidues(p, r) && JalrEval(p, r)
       case InOther(r, _, _, _) => SomeTableRow(r)
  }

  /** The condition on the columns that neither constraints nor lookups pin down. */
  predicate OpenColumnsRight(t: TableRow) {
    match t
    case InSra(r) => r.rs1Byte3Low7 < 128 || Value(r.rs2Value) % 32 == 0
    case InSlt(r) => r.rs1Byte3Low7 < 128 <==> r.rs2Byte3Low7 < 128
    case InJalr(r) => r.immHighBits[3] == Flag(r.imm >= 2048) && r.nextPc[0] % 2 == 0 && r.rd != 0
    case _ => true
  }

  /** What the byte and shift lookups of a real row guarantee. */
  ghost predicate LookedUp(t: TableRow) {
    match t
    case InSra(r) => SraLookups(r)
    case InSll(r) => SllLookups(r)
    case InSlt(r) => SltLookups(r)
    case InSub(r) => SubLookups(r)
    case InJal(r) => AreBytes(r.pc) && AreBytes(r.rdVal)
    case InJalr(r) => AreBytes(r.rs1Value) && AreBytes(r.rdVal)
    case InOther(_, _, _, _) => true
  }

  /**
   * A constrained row whose lookups hold carries out the instruction its decode columns denote exactly
   * when its open columns are right.
   */
  lemma {:induction false} CarriesOutIff(p: int, t: TableRow, i: Instruction)
    requires LargePrime(p) && Constrained(p, t) && LookedUp(t) && BusRowOf(t).isDummy == 1 && ByteRowFor(BusRowOf(t), i)
    ensures CarriesOut(BusRowOf(t), i) <==> OpenColumnsRight(t)
  {
    hide SraEval, SllEval, SltEval, SubEval, JalEval, JalrEval, SraLookups, SllLookups, SltLookups, SubLookups, SraResidues, SltResidues,
         JalResidues, JalrResidues, CarriesOut, RowDenotes, Value, AreBytes, LargePrime, Flag;
    match t
    case InSra(r) => SraCarriesOutIff(p, r, i);
    case InSll(r) => SllForced(p, r);
    case InSlt(r) => SltCarriesOutIff(p, r, i);
    case InSub(r) => SubForced(p, r);
    case InJal(r) => JalForced(p, r);
    case InJalr(r) => JalrCarriesOutIff(p, r, i);
    case InOther(r, _, _, _) =>
  }

  lemma {:induction false} RightColumnsForce(p: int, t: TableRow)
    requires LargePrime(p) && Constrained(p, t) && LookedUp(t) && BusRowOf(t).isDummy == 1 && OpenColumnsRight(t)
    ensures RowForced(BusRowOf(t))
  {
    hide LookedUp, Constrained, OpenColumnsRight, CarriesOut, RowDenotes, AreBytes, LargePrime, BusRowOf;
    forall i | ByteRowFor(BusRowOf(t), i) ensures CarriesOut(BusRowOf(t), i) {
      CarriesOutIff(p, t, i);
    }
  }

  lemma {:induction false} ConstrainedBools(p: int, t: TableRow)
    requires p > 0 && Constrained(p, t)
    ensures !t.InOther? ==> Bool(p, BusRowOf(t).isDummy)
    ensures t.InJal? ==> Bool(p, t.jal.rdIsZero) && Residue(p, t.jal.rdIsZero)
  {
    hide U32PlusFour, U32Add, U32Sub, Bool, AmountConstraints, MoveLeftConstraints, MoveRightConstraints, SignConstraints,
         CompareConstraints, ImmediateBytes, SignExtends, ClearsLsb, SomeTableRow;
  }

  lemma {:induction false} ConstrainedSelectors(p: int, t: TableRow)
    requires IsPrime(p) && Constrained(p, t)
    ensures IsBit(BusRowOf(t).isDummy) && IsBit(BusRowOf(t).links)
  {
    ConstrainedBools(p, t);
    hide IsPrime, SraEval, SllEval, SltEval, SubEval, JalEval, JalrEval;
    if !t.InOther? {
      BoolResidue(p, BusRowOf(t).isDummy);
    }
    if t.InJal? {
      BoolResidue(p, t.jal.rdIsZero);
    }
  }

  // The lookup buses.

  function BytesOf(t: TableRow): seq<int> {
    match t
    case InSra(r) => SraByteSends(r)
    case InSll(r) => SllByteSends(r)
    case InSlt(r) => SltByteSends(r)
    case InSub(r) => SubByteSends(r)
    case InJal(r) => JalByteSends(r)
    case InJalr(r) => JalrByteSends(r)
    case InOther(_, bytes, _, _) => bytes
  }

  function LeftOf(t: TableRow): seq<ShiftRow> {
    match t
    case InSll(r) => SllShiftSends(r)
    case InOther(_, _, left, _) => left
    case _ => []
  }

  function RightOf(t: TableRow): seq<ShiftRow> {
    match t
    case InSra(r) => SraShiftSends(r)
    case InOther(_, _, _, right) => right
    case _ => []
  }

  function RowBytes(t: TableRow): seq<Entry<int>> {
    Gated(BytesOf(t), BusRowOf(t).isDummy)
  }

  function RowLeft(t: TableRow): seq<Entry<ShiftRow>> {
    Gated(LeftOf(t), BusRowOf(t).isDummy)
  }

  function RowRight(t: TableRow): seq<Entry<ShiftRow>> {
    Gated(RightOf(t), BusRowOf(t).isDummy)
  }

  function AllBytes(rows: seq<TableRow>): seq<Entry<int>> {
    if |rows| == 0 then [] else AllBytes(rows[..|rows| - 1]) + RowBytes(rows[|rows| - 1])
  }

  function AllLeft(rows: seq<TableRow>): seq<Entry<ShiftRow>> {
    if |rows| == 0 then [] else AllLeft(rows[..|rows| - 1]) + RowLeft(rows[|rows| - 1])
  }

  function AllRight(rows: seq<TableRow>): seq<Entry<ShiftRow>> {
    if |rows| == 0 then [] else AllRight(rows[..|rows| - 1]) + RowRight(rows[|rows| - 1])
  }

  /** The free multiplicities of the three tables. */
  datatype Counters = Counters(bytes: seq<int>, left: seq<int>, right: seq<int>)

  /** The lookup buses balance; `others` are the bytes the program hash table sends beside the rows. */
  ghost predicate LookupBuses(p: int, rows: seq<TableRow>, others: seq<Entry<int>>, m: Counters)
    requires p > 0
  {
    && Selectors(others)
    && TableBus(p, AllBytes(rows) + others, ByteTable(), m.bytes)
    && TableBus(p, AllLeft(rows), SllTable(), m.left)
    && TableBus(p, AllRight(rows), SrlTable(), m.right)
  }

  ghost predicate BitSelectors(rows: seq<TableRow>) {
    forall k :: 0 <= k < |rows| ==> IsBit(BusRowOf(rows[k]).isDummy)
  }

  lemma {:induction false} SendSelectors(rows: seq<TableRow>)
    requires BitSelectors(rows)
    ensures Selectors(AllBytes(rows)) && Selectors(AllLeft(rows)) && Selectors(AllRight(rows))
  {
    hide BytesOf, LeftOf, RightOf, BusRowOf;
    if |rows| > 0 {
      SendSelectors(rows[..|rows| - 1]);
    }
  }

  lemma {:induction false} GatedIsLive<T>(tuples: seq<T>, i: nat)
    requires i < |tuples|
    ensures tuples[i] in Live(Gated(tuples, 1))
  {
    LiveHas(Gated(tuples, 1), i);
  }

  lemma {:induction false} ByteIsLive(rows: seq<TableRow>, k: nat, i: nat)
    requires k < |rows| && BusRowOf(rows[k]).isDummy == 1 && i < |BytesOf(rows[k])|
    ensures BytesOf(rows[k])[i] in Live(AllBytes(rows))
  {
    hide BytesOf, BusRowOf;
    var n := |rows| - 1;
    LiveAppend(AllBytes(rows[..n]), Gated(BytesOf(rows[n]), BusRowOf(rows[n]).isDummy));
    if k < n {
      ByteIsLive(rows[..n], k, i);
    } else {
      GatedIsLive(BytesOf(rows[n]), i);
    }
  }

  lemma {:induction false} LeftIsLive(rows: seq<TableRow>, k: nat, i: nat)
    requires k < |rows| && BusRowOf(rows[k]).isDummy == 1 && i < |LeftOf(rows[k])|
    ensures LeftOf(rows[k])[i] in Live(AllLeft(rows))
  {
    hide LeftOf, BusRowOf;
    var n := |rows| - 1;
    LiveAppend(AllLeft(rows[..n]), Gated(LeftOf(rows[n]), BusRowOf(rows[n]).isDummy));
    if k < n {
      LeftIsLive(rows[..n], k, i);
    } else {
      GatedIsLive(LeftOf(rows[n]), i);
    }
  }

  lemma {:induction false} RightIsLive(rows: seq<TableRow>, k: nat, i: nat)
    requires k < |rows| && BusRowOf(rows[k]).isDummy == 1 && i < |RightOf(rows[k])|
    ensures RightOf(rows[k])[i] in Live(AllRight(rows))
  {
    hide RightOf, BusRowOf;
    var n := |rows| - 1;
    LiveAppend(AllRight(rows[..n]), Gated(RightOf(rows[n]), BusRowOf(rows[n]).isDummy));
    if k < n {
      RightIsLive(rows[..n], k, i);
    } else {
      GatedIsLive(RightOf(rows[n]), i);
    }
  }

  /** On balanced lookup buses a live row only asks for tuples of the tables. */
  lemma {:induction false} RowWithin(p: int, rows: seq<TableRow>, others: seq<Entry<int>>, m: Counters, k: nat)
    requires p > 0 && LookupBuses(p, rows, others, m) && BitSelectors(rows) && k < |rows| && BusRowOf(rows[k]).isDummy == 1
    ensures Within(BytesOf(rows[k]), ByteTable()) && Within(LeftOf(rows[k]), SllTable()) && Within(RightOf(rows[k]), SrlTable())
  {
    TableSizes();
    SendSelectors(rows);
    LiveAppend(AllBytes(rows), others);
    hide BytesOf, LeftOf, RightOf, BusRowOf, ByteTable, SllTable, SrlTable, AllBytes, AllLeft, AllRight, TableBus, Live;
    forall i: nat | i < |BytesOf(rows[k])| ensures BytesOf(rows[k])[i] in ByteTable() {
      ByteIsLive(rows, k, i);
      SentIsInTable(p, AllBytes(rows) + others, ByteTable(), m.bytes, BytesOf(rows[k])[i]);
    }
    forall i: nat | i < |LeftOf(rows[k])| ensures LeftOf(rows[k])[i] in SllTable() {
      LeftIsLive(rows, k, i);
      SentIsInTable(p, AllLeft(rows), SllTable(), m.left, LeftOf(rows[k])[i]);
    }
    forall i: nat | i < |RightOf(rows[k])| ensures RightOf(rows[k])[i] in SrlTable() {
      RightIsLive(rows, k, i);
      SentIsInTable(p, AllRight(rows), SrlTable(), m.right, RightOf(rows[k])[i]);
    }
  }

  lemma {:induction false} WithinIsLookedUp(t: TableRow)
    requires Within(BytesOf(t), ByteTable()) && Within(LeftOf(t), SllTable()) && Within(RightOf(t), SrlTable())
    ensures LookedUp(t)
  {
    hide ByteTable, SllTable, SrlTable, Within, SraLookups, SllLookups, SltLookups, SubLookups, AreBytes, SraByteSends, SllByteSends,
         SltByteSends, SubByteSends, SraShiftSends, SllShiftSends, Column;
    match t
    case InSra(r) => SraLookupsHold(r);
    case InSll(r) => SllLookupsHold(r);
    case InSlt(r) => SltLookupsHold(r);
    case InSub(r) => SubLookupsHold(r);
    case InJal(r) => TwoColumnsHold(r.pc, r.rdVal);
    case InJalr(r) => TwoColumnsHold(r.rs1Value, r.rdVal);
    case InOther(_, _, _, _) =>
  }

  // Everything together.

  /** Instruction rows that meet their constraints, balance on the lookup buses and have their open columns right. */
  ghost predicate RowsAccepted(p: int, rows: seq<TableRow>, others: seq<Entry<int>>, m: Counters)
    requires p > 0
  {
    (forall k :: 0 <= k < |rows| ==> Constrained(p, rows[k])) && LookupBuses(p, rows, others, m)
  }

  ghost predicate AllOpenColumnsRight(rows: seq<TableRow>) {
    forall k :: 0 <= k < |rows| && BusRowOf(rows[k]).isDummy == 1 ==> OpenColumnsRight(rows[k])
  }

  lemma {:induction false} AcceptedSelectors(p: int, rows: seq<TableRow>)
    requires LargePrime(p) && forall k :: 0 <= k < |rows| ==> Constrained(p, rows[k])
    ensures BitSelectors(rows) && RowSelectors(BusRowsOf(rows)) && TimeResidues(p, BusRowsOf(rows))
  {
    forall k | 0 <= k < |rows|
      ensures IsBit(BusRowOf(rows[k]).isDummy) && IsBit(BusRowOf(rows[k]).links) && Residue(p, BusRowOf(rows[k]).timestamp)
    {
      ConstrainedSelectors(p, rows[k]);
    }
    hide BusRowOf, Constrained;
  }

  lemma {:induction false} AcceptedAreForced(p: int, rows: seq<TableRow>, others: seq<Entry<int>>, m: Counters)
    requires LargePrime(p) && RowsAccepted(p, rows, others, m) && AllOpenColumnsRight(rows) && ByteNextPcs(BusRowsOf(rows))
    ensures RowsForced(p, BusRowsOf(rows))
  {
    AcceptedSelectors(p, rows);
    hide BusRowOf, Constrained, LookupBuses, LookedUp, OpenColumnsRight, RowForced, LargePrime;
    forall k | 0 <= k < |rows| && BusRowOf(rows[k]).isDummy == 1 ensures RowForced(BusRowOf(rows[k])) {
      RowWithin(p, rows, others, m, k);
      WithinIsLookedUp(rows[k]);
      RightColumnsForce(p, rows[k]);
    }
  }

  /** Comparison tables that meet their constraints and balance with the memory table and the byte pairs. */
  ghost predicate ComparisonBuses(p: int, memory: seq<MemoryColumns>, lt: seq<U32LtColumns>, times: seq<TimestampLtColumns>,
                                  pairs: seq<BytePair>, mults: seq<int>)
    requires p > 0
  {
    && LtConstraints(p, lt) && PairBus(p, lt, pairs, mults) && AddressBus(p, memory, lt)
    && TimeTableAccepted(p, times) && TimestampBus(p, memory, times)
  }

  /** Everything a proof commits to: the instruction rows and the tables around them. */
  datatype Tables = Tables(
    rows: seq<TableRow>, hashed: seq<Entry<int>>, counters: Counters, decode: seq<DecodeColumns>, rom: seq<ProgramColumns>,
    boundaries: seq<int>, memory: seq<MemoryColumns>, lt: seq<U32LtColumns>, times: seq<TimestampLtColumns>,
    pairs: seq<BytePair>, pairCounts: seq<int>)

  /** Fewer rows than the field has elements; at most three ticks a row. */
  predicate SizesFit(p: int, t: Tables) {
    3 * |t.rows| < p && 3 * |t.rows| <= MAX_TIMESTAMP && |t.memory| < p && |t.boundaries| == 4 * BOUNDARY_COLUMNS
  }

  /** The tables meet their constraints and balance on every bus over a program table that holds the program. */
  ghost predicate Accepted(p: int, program: seq<byte>, t: Tables)
    requires p > 0
  {
    && SizesFit(p, t)
    && RowsAccepted(p, t.rows, t.hashed, t.counters)
    && DecodeBuses(p, program, BusRowsOf(t.rows), t.decode, t.rom)
    && TraceBusBalances(p, BusHops(p, BusRowsOf(t.rows)), t.boundaries)
    && MemoryResidues(p, t.memory) && MemoryEval(p, t.memory) && MemoryBus(p, BusRowsOf(t.rows), t.memory)
    && ComparisonBuses(p, t.memory, t.lt, t.times, t.pairs, t.pairCounts)
  }

  /**
   * Execution soundness. Accepted tables leave one possibility under four conditions on what they
   * leave open: the open columns of SRA, SLT and JALR rows are right, next_pc limbs are bytes, LUI,
   * AUIPC and JAL rows stand where the program holds what their decode row read, and the timestamp
   * rows answering the memory table have their top bits off. Then the machine, run for as many steps
   * as there are live rows, ends at the point of Boundaries having logged exactly the accesses of the
   * memory table.
   */
  lemma {:induction false} AcceptedProofIsTheRun(p: int, program: seq<byte>, t: Tables)
    requires LargePrime(p) && Accepted(p, program, t)
    requires AllOpenColumnsRight(t.rows) && ByteNextPcs(BusRowsOf(t.rows))
    requires UpperRowsInPlace(p, program, BusRowsOf(t.rows), t.decode) && AnswersAscend(t.memory, t.times)
    ensures |t.boundaries| == 4 * BOUNDARY_COLUMNS && Execute(program, |LiveRows(BusRowsOf(t.rows))|).Stepped?
    ensures var s, end := Execute(program, |LiveRows(BusRowsOf(t.rows))|).state, BoundaryPoint(t.boundaries, 3);
            ToLimbs(s.pc) == end.pc && s.timestamp == end.ts && multiset(Ops(s)) == multiset(RealOps(t.memory))
  {
    hide *;
    LargeIsPrime(p);
    AcceptedParts(p, program, t);
    AcceptedAreForced(p, t.rows, t.hashed, t.counters);
    PairLookupsHold(p, t.lt, t.pairs, t.pairCounts);
    ForcedRowsAreTheRun(p, program, BusRowsOf(t.rows), t.decode, t.rom, t.boundaries, t.memory, t.lt, t.times);
  }

  lemma {:induction false} AcceptedFromParts(p: int, program: seq<byte>, t: Tables)
    requires p > 0 && 3 * |t.rows| < p && 3 * |t.rows| <= MAX_TIMESTAMP && |t.memory| < p && |t.boundaries| == 4 * BOUNDARY_COLUMNS
    requires RowsAccepted(p, t.rows, t.hashed, t.counters) && DecodeBuses(p, program, BusRowsOf(t.rows), t.decode, t.rom)
    requires TraceBusBalances(p, BusHops(p, BusRowsOf(t.rows)), t.boundaries)
    requires MemoryResidues(p, t.memory) && MemoryEval(p, t.memory) && MemoryBus(p, BusRowsOf(t.rows), t.memory)
    requires ComparisonBuses(p, t.memory, t.lt, t.times, t.pairs, t.pairCounts)
    ensures Accepted(p, program, t)
  {
    hide RowsAccepted, DecodeBuses, TraceBusBalances, MemoryResidues, MemoryEval, MemoryBus, ComparisonBuses;
  }

  lemma {:induction false} AcceptedParts(p: int, program: seq<byte>, t: Tables)
    requires p > 0 && Accepted(p, program, t)
    ensures |BusRowsOf(t.rows)| == |t.rows|
    ensures 3 * |t.rows| < p && 3 * |t.rows| <= MAX_TIMESTAMP && |t.memory| < p && |t.boundaries| == 4 * BOUNDARY_COLUMNS
    ensures RowsAccepted(p, t.rows, t.hashed, t.counters) && DecodeBuses(p, program, BusRowsOf(t.rows), t.decode, t.rom)
    ensures TraceBusBalances(p, BusHops(p, BusRowsOf(t.rows)), t.boundaries)
    ensures MemoryResidues(p, t.memory) && MemoryEval(p, t.memory) && MemoryBus(p, BusRowsOf(t.rows), t.memory)
    ensures LtConstraints(p, t.lt) && PairBus(p, t.lt, t.pairs, t.pairCounts) && AddressBus(p, t.memory, t.lt)
    ensures TimeTableAccepted(p, t.times) && TimestampBus(p, t.memory, t.times)
  {
    hide RowsAccepted, DecodeBuses, TraceBusBalances, MemoryResidues, MemoryEval, MemoryBus, LtConstraints, PairBus, AddressBus,
         TimeTableAccepted, TimestampBus;
  }
}
