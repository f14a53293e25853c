/**
 * The lookup tables and what the rows of the modelled instruction tables ask of them: the columns
 * each row sends to the `bytes`, `byte_sll` and `byte_srl` buses, in the order of its lookups.
 */
module Lookups {
  import opened Words
  import opened PrimeField
  import opened ByteTables
  import opened Bus
  import opened Shifts
  import opened Subtract
  import opened JalAir
  import opened JalrAir

  // The preprocessed tables; their multiplicities are free.

  function ByteTable(): seq<int> {
    seq(256, k requires 0 <= k < 256 => k)
  }

  function SllTable(): seq<ShiftRow> {
    seq(2048, k requires 0 <= k < 2048 => SllRow(k / 8, k % 8))
  }

  function SrlTable(): seq<ShiftRow> {
    seq(2048, k requires 0 <= k < 2048 => SrlRow(k / 8, k % 8))
  }

  lemma {:induction false} TableSizes()
    ensures |ByteTable()| == 256 && |SllTable()| == 2048 && |SrlTable()| == 2048
  {
  }

  lemma {:induction false} ByteEntries(x: int)
    requires x in ByteTable()
    ensures IsByte(x)
  {
  }

  lemma {:induction false} SllEntries(r: ShiftRow)
    requires r in SllTable()
    ensures InSllTable(r)
  {
    hide SllRow;
    var k :| 0 <= k < 2048 && SllTable()[k] == r;
    SllIndex(k);
  }

  lemma {:induction false} SllIndex(k: nat)
    requires k < 2048
    ensures InSllTable(SllRow(k / 8, k % 8))
  {
  }

  lemma {:induction false} SrlEntries(r: ShiftRow)
    requires r in SrlTable()
    ensures InSrlTable(r)
  {
    hide SrlRow;
    var k :| 0 <= k < 2048 && SrlTable()[k] == r;
    SrlIndex(k);
  }

  lemma {:induction false} SrlIndex(k: nat)
    requires k < 2048
    ensures InSrlTable(SrlRow(k / 8, k % 8))
  {
  }

  // What the rows send.

  function Column(x: Limbs): seq<int> {
    [x[0], x[1], x[2], x[3]]
  }

  function SraByteSends(r: SraColumns): seq<int> {
    Column(r.rs2Value) + [r.amount.rs2ShamtHigh] + Column(r.rdBytes) + [r.rs1Byte3Low7]
  }

  function SltByteSends(r: SltColumns): seq<int> {
    Column(r.rs1Bytes) + Column(r.rs2Bytes) + Column(r.diffBytes) + [r.rs1Byte3Low7] + [r.rs2Byte3Low7]
  }

  function SubByteSends(r: SubColumns): seq<int> {
    Column(r.rs1Value) + Column(r.rs2Value) + Column(r.rdNewValue)
  }

  function SllByteSends(r: SllColumns): seq<int> {
    Column(r.rs2Value) + [r.amount.rs2ShamtHigh] + Column(r.rdBytes)
  }

  function JalByteSends(r: JalColumns): seq<int> {
    Column(r.pc) + Column(r.rdVal)
  }

  function JalrByteSends(r: JalrColumns): seq<int> {
    Column(r.rs1Value) + Column(r.rdVal)
  }

  function SraShiftSends(r: SraColumns): seq<ShiftRow> {
    [ShiftRow(r.rs1Bytes[0], r.amount.bitShamt, r.shiftedBytes[0], r.carryBytes[0]),
     ShiftRow(r.rs1Bytes[1], r.amount.bitShamt, r.shiftedBytes[1], r.carryBytes[1]),
     ShiftRow(r.rs1Bytes[2], r.amount.bitShamt, r.shiftedBytes[2], r.carryBytes[2]),
     ShiftRow(r.rs1Bytes[3], r.amount.bitShamt, r.shiftedBytes[3], r.carryBytes[3]),
     SraFfTuple(r)]
  }

  function SllShiftSends(r: SllColumns): seq<ShiftRow> {
    [ShiftRow(r.rs1Bytes[0], r.amount.bitShamt, r.shiftedBytes[0], r.carryBytes[0]),
     ShiftRow(r.rs1Bytes[1], r.amount.bitShamt, r.shiftedBytes[1], r.carryBytes[1]),
     ShiftRow(r.rs1Bytes[2], r.amount.bitShamt, r.shiftedBytes[2], r.carryBytes[2]),
     ShiftRow(r.rs1Bytes[3], r.amount.bitShamt, r.shiftedBytes[3], r.carryBytes[3])]
  }

  /** A row sends its tuples gated by its selector. */
  function Gated<T>(tuples: seq<T>, selector: int): seq<Entry<T>> {
    seq(|tuples|, i requires 0 <= i < |tuples| => Entry(tuples[i], selector))
  }

  function Ones<T>(tuples: seq<T>): seq<Entry<T>> {
    Gated(tuples, 1)
  }

  lemma {:induction false} OnesAreLive<T>(tuples: seq<T>)
    ensures Live(Ones(tuples)) == tuples && Selectors(Ones(tuples))
  {
    if |tuples| > 0 {
      OnesAreLive(tuples[1..]);
      assert Ones(tuples)[1..] == Ones(tuples[1..]);
    }
  }

  /** The bus between fewer than p sends and a preprocessed table with free multiplicities. */
  ghost predicate TableBus<T(!new)>(p: int, sends: seq<Entry<T>>, table: seq<T>, counts: seq<int>)
    requires p > 0
  {
    |sends| < p && |counts| == |table| && Balanced(p, sends, TableReceives(table, counts))
  }

  /** The tuples asked for by row index. */
  function TuplesAt<T>(table: seq<T>, indices: seq<nat>): seq<T>
    requires forall i :: 0 <= i < |indices| ==> indices[i] < |table|
  {
    seq(|indices|, i requires 0 <= i < |indices| => table[indices[i]])
  }

  /** Sends balance with a table that counts their indices, in whatever order they are sent. */
  lemma {:induction false} CountedBalances<T(!new)>(p: int, sends: seq<Entry<T>>, table: seq<T>, indices: seq<nat>)
    requires p > 0 && Selectors(sends) && forall i :: 0 <= i < |indices| ==> indices[i] < |table|
    requires |sends| < p && multiset(Live(sends)) == multiset(TuplesAt(table, indices))
    ensures TableBus(p, sends, table, Counts(indices, |table|))
  {
    MultipleIsZero(p, 0);
    var tuples := TuplesAt(table, indices);
    OnesAreLive(tuples);
    assert IndexSends(table, indices) == Ones(tuples);
    hide TuplesAt, Live, TableReceives, IndexSends, Counts, Ones;
    forall t ensures Zero(p, Total(sends, t) - Total(TableReceives(table, Counts(indices, |table|)), t)) {
      TableTotals(table, indices, t);
      TotalCounts(sends, t);
      TotalCounts(Ones(tuples), t);
    }
  }

  // What a balanced bus says of a row.

  /** A live tuple on the bus of a preprocessed table is in the table, whatever the multiplicities. */
  lemma {:induction false} SentIsInTable<T(!new)>(p: int, sends: seq<Entry<T>>, table: seq<T>, counts: seq<int>, t: T)
    requires p > 0 && Selectors(sends) && TableBus(p, sends, table, counts) && t in Live(sends)
    ensures t in table
  {
    LiveBound(sends);
    SentIsReceived(p, sends, TableReceives(table, counts), t);
  }

  predicate Within<T(==)>(tuples: seq<T>, table: seq<T>) {
    forall i :: 0 <= i < |tuples| ==> tuples[i] in table
  }

  lemma {:induction false} BytesWithin(tuples: seq<int>)
    requires Within(tuples, ByteTable())
    ensures forall i :: 0 <= i < |tuples| ==> IsByte(tuples[i])
  {
    hide ByteTable;
    forall i | 0 <= i < |tuples| ensures IsByte(tuples[i]) {
      ByteEntries(tuples[i]);
    }
  }

  lemma {:induction false} SraLookupsHold(r: SraColumns)
    requires Within(SraByteSends(r), ByteTable()) && Within(SraShiftSends(r), SrlTable())
    ensures SraLookups(r)
  {
    var bytes, shifts := SraByteSends(r), SraShiftSends(r);
    BytesWithin(bytes);
    hide ByteTable, SrlTable, InSrlTable;
    forall i | 0 <= i < 5 ensures InSrlTable(shifts[i]) {
      SrlEntries(shifts[i]);
    }
    assert InSrlTable(shifts[0]) && InSrlTable(shifts[1]) && InSrlTable(shifts[2]) && InSrlTable(shifts[3]) && InSrlTable(shifts[4]);
    assert IsByte(bytes[0]) && IsByte(bytes[1]) && IsByte(bytes[2]) && IsByte(bytes[3]) && IsByte(bytes[4]);
    assert IsByte(bytes[5]) && IsByte(bytes[6]) && IsByte(bytes[7]) && IsByte(bytes[8]) && IsByte(bytes[9]);
  }

  lemma {:induction false} SllLookupsHold(r: SllColumns)
    requires Within(SllByteSends(r), ByteTable()) && Within(SllShiftSends(r), SllTable())
    ensures SllLookups(r)
  {
    var bytes, shifts := SllByteSends(r), SllShiftSends(r);
    BytesWithin(bytes);
    hide ByteTable, SllTable, InSllTable;
    forall i | 0 <= i < 4 ensures InSllTable(shifts[i]) {
      SllEntries(shifts[i]);
    }
    assert InSllTable(shifts[0]) && InSllTable(shifts[1]) && InSllTable(shifts[2]) && InSllTable(shifts[3]);
    assert IsByte(bytes[0]) && IsByte(bytes[1]) && IsByte(bytes[2]) && IsByte(bytes[3]) && IsByte(bytes[4]);
    assert IsByte(bytes[5]) && IsByte(bytes[6]) && IsByte(bytes[7]) && IsByte(bytes[8]);
  }

  lemma {:induction false} SltLookupsHold(r: SltColumns)
    requires Within(SltByteSends(r), ByteTable())
    ensures SltLookups(r)
  {
    var bytes := SltByteSends(r);
    BytesWithin(bytes);
    assert IsByte(bytes[0]) && IsByte(bytes[1]) && IsByte(bytes[2]) && IsByte(bytes[3]) && IsByte(bytes[4]);
    assert IsByte(bytes[5]) && IsByte(bytes[6]) && IsByte(bytes[7]) && IsByte(bytes[8]) && IsByte(bytes[9]);
    assert IsByte(bytes[10]) && IsByte(bytes[11]) && IsByte(bytes[12]) && IsByte(bytes[13]);
  }

  lemma {:induction false} SubLookupsHold(r: SubColumns)
    requires Within(SubByteSends(r), ByteTable())
    ensures SubLookups(r)
  {
    var bytes := SubByteSends(r);
    BytesWithin(bytes);
    assert IsByte(bytes[0]) && IsByte(bytes[1]) && IsByte(bytes[2]) && IsByte(bytes[3]) && IsByte(bytes[4]) && IsByte(bytes[5]);
    assert IsByte(bytes[6]) && IsByte(bytes[7]) && IsByte(bytes[8]) && IsByte(bytes[9]) && IsByte(bytes[10]) && IsByte(bytes[11]);
  }

  lemma {:induction false} TwoColumnsHold(x: Limbs, y: Limbs)
    requires Within(Column(x) + Column(y), ByteTable())
    ensures AreBytes(x) && AreBytes(y)
  {
    var bytes := Column(x) + Column(y);
    BytesWithin(bytes);
    assert IsByte(bytes[0]) && IsByte(bytes[1]) && IsByte(bytes[2]) && IsByte(bytes[3]);
    assert IsByte(bytes[4]) && IsByte(bytes[5]) && IsByte(bytes[6]) && IsByte(bytes[7]);
  }
}
