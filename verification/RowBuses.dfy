/**
 * What the rows of the instruction tables put on the shared buses: one record for the rows of all
 * tables, holding the columns their lookups send.
 */
module RowBuses {
  import opened Words
  import opened PrimeField
  import opened Rv32
  import opened Vm
  import opened Bus
  import opened TraceBus
  import opened Decode
  import opened DecodeBus
  import opened MemoryAir

  /**
   * A row of the table of instruction `id`. `field4` and `low8` are its last decode columns (rs2, an
   * immediate, or the two immediate fields of LUI, AUIPC and JAL); `links` gates the write of a JAL.
   */
  datatype BusRow = BusRow(
    id: int, pc: Limbs, timestamp: int, rd: int, rs1: int, field4: int, low8: int,
    v1: Limbs, v2: Limbs, oldRd: Limbs, newRd: Limbs, nextPc: Limbs, links: int, isDummy: int)

  const JAL_ID := 21

  predicate IsRTypeId(id: int) {
    4 <= id <= 11 || id == 15 || id == 16
  }

  predicate IsUpperId(id: int) {
    id == 19 || id == 20
  }

  /** The twenty instructions whose decode tuple carries the pc. */
  predicate IsStandardId(id: int) {
    !IsUpperId(id) && id != JAL_ID
  }

  function TicksOf(id: int): int {
    if IsRTypeId(id) then 3 else if IsUpperId(id) || id == JAL_ID then 1 else 2
  }

  lemma {:induction false} FormatOfId(i: Instruction)
    ensures IsRTypeId(Id(i)) == IsRType(i) && IsUpperId(Id(i)) == IsUType(i) && (Id(i) == JAL_ID <==> i.Jal?)
    ensures IsStandardId(Id(i)) == !UsesLow8(i) && TicksOf(Id(i)) == Ticks(i)
  {
  }

  // Trace.

  function BusHop(p: int, r: BusRow): Hop
    requires p > 0
  {
    Hop(Point(r.pc, r.timestamp), Point(r.nextPc, Later(p, r.timestamp, TicksOf(r.id))), r.isDummy)
  }

  function BusHops(p: int, rows: seq<BusRow>): seq<Hop>
    requires p > 0
  {
    seq(|rows|, k requires 0 <= k < |rows| => BusHop(p, rows[k]))
  }

  // Decode.

  function DecodeTupleOf(r: BusRow): DecodeTuple {
    DecodeTuple(r.pc, r.id, r.rd, r.rs1, r.field4)
  }

  function UpperTupleOf(r: BusRow): UpperTuple {
    UpperTuple(r.id, r.rd, r.field4, r.low8)
  }

  /** A row sends on the bus of its instruction, gated by its selector. */
  function StandardSends(rows: seq<BusRow>): seq<Entry<DecodeTuple>> {
    seq(|rows|, k requires 0 <= k < |rows| => Entry(DecodeTupleOf(rows[k]), if IsStandardId(rows[k].id) then rows[k].isDummy else 0))
  }

  function UpperSends(rows: seq<BusRow>): seq<Entry<UpperTuple>> {
    seq(|rows|, k requires 0 <= k < |rows| => Entry(UpperTupleOf(rows[k]), if IsUpperId(rows[k].id) then rows[k].isDummy else 0))
  }

  function JumpSends(rows: seq<BusRow>): seq<Entry<UpperTuple>> {
    seq(|rows|, k requires 0 <= k < |rows| => Entry(UpperTupleOf(rows[k]), if rows[k].id == JAL_ID then rows[k].isDummy else 0))
  }

  ghost predicate RowSelectors(rows: seq<BusRow>) {
    forall k :: 0 <= k < |rows| ==> IsBit(rows[k].isDummy) && IsBit(rows[k].links)
  }

  lemma {:induction false} DecodeSelectors(rows: seq<BusRow>)
    requires RowSelectors(rows)
    ensures Selectors(StandardSends(rows)) && Selectors(UpperSends(rows)) && Selectors(JumpSends(rows))
    ensures |StandardSends(rows)| == |UpperSends(rows)| == |JumpSends(rows)| == |rows|
  {
  }

  /** A live row sends its tuple on one of the three decode buses. */
  lemma {:induction false} SendsItsTuple(rows: seq<BusRow>, k: nat)
    requires k < |rows| && rows[k].isDummy == 1
    ensures IsStandardId(rows[k].id) ==> DecodeTupleOf(rows[k]) in Live(StandardSends(rows))
    ensures IsUpperId(rows[k].id) ==> UpperTupleOf(rows[k]) in Live(UpperSends(rows))
    ensures rows[k].id == JAL_ID ==> UpperTupleOf(rows[k]) in Live(JumpSends(rows))
  {
    var standard, upper, jump := StandardSends(rows), UpperSends(rows), JumpSends(rows);
    assert standard[k].tuple == DecodeTupleOf(rows[k]) && upper[k].tuple == jump[k].tuple == UpperTupleOf(rows[k]);
    assert IsStandardId(rows[k].id) ==> standard[k].multiplicity == 1;
    assert IsUpperId(rows[k].id) ==> upper[k].multiplicity == 1;
    assert rows[k].id == JAL_ID ==> jump[k].multiplicity == 1;
    hide *;
    if IsStandardId(rows[k].id) {
      LiveHas(standard, k);
    }
    if IsUpperId(rows[k].id) {
      LiveHas(upper, k);
    }
    if rows[k].id == JAL_ID {
      LiveHas(jump, k);
    }
  }

  // Memory.

  datatype MemoryTuple = MemoryTuple(timestamp: int, memoryType: int, address: Limbs, read: Limbs, write: Limbs)

  function RegisterAddress(a: int): Limbs {
    [a, 0, 0, 0]
  }

  function ReadEntry(p: int, r: BusRow, k: int, a: int, v: Limbs): Entry<MemoryTuple>
    requires p > 0
  {
    Entry(MemoryTuple(Later(p, r.timestamp, k), 0, RegisterAddress(a), v, v), r.isDummy)
  }

  function WriteEntry(p: int, r: BusRow, k: int, multiplicity: int): Entry<MemoryTuple>
    requires p > 0
  {
    Entry(MemoryTuple(Later(p, r.timestamp, k), 0, RegisterAddress(r.rd), r.oldRd, r.newRd), multiplicity)
  }

  /** The memory sends of a row: reads of its sources, then the write of rd, which a JAL to x0 gates off. */
  function RowSends(p: int, r: BusRow): seq<Entry<MemoryTuple>>
    requires p > 0
  {
    if IsRTypeId(r.id) then [ReadEntry(p, r, 0, r.rs1, r.v1), ReadEntry(p, r, 1, r.field4, r.v2), WriteEntry(p, r, 2, r.isDummy)]
    else if IsUpperId(r.id) then [WriteEntry(p, r, 0, r.isDummy)]
    else if r.id == JAL_ID then [WriteEntry(p, r, 0, r.isDummy * r.links)]
    else [ReadEntry(p, r, 0, r.rs1, r.v1), WriteEntry(p, r, 1, r.isDummy)]
  }

  function AllSends(p: int, rows: seq<BusRow>): seq<Entry<MemoryTuple>>
    requires p > 0
  {
    if |rows| == 0 then [] else AllSends(p, rows[..|rows| - 1]) + RowSends(p, rows[|rows| - 1])
  }

  function TupleOf(r: MemoryColumns): MemoryTuple {
    MemoryTuple(r.timestamp, r.memoryType, r.address, r.read, r.write)
  }

  function MemoryReceives(memory: seq<MemoryColumns>): seq<Entry<MemoryTuple>> {
    seq(|memory|, i requires 0 <= i < |memory| => Entry(TupleOf(memory[i]), 1 - memory[i].isPadding))
  }

  ghost predicate MemoryBus(p: int, rows: seq<BusRow>, memory: seq<MemoryColumns>)
    requires p > 0
  {
    Balanced(p, AllSends(p, rows), MemoryReceives(memory))
  }

  function RealTuples(memory: seq<MemoryColumns>): seq<MemoryTuple> {
    seq(RealCount(memory), i requires 0 <= i < RealCount(memory) => TupleOf(memory[i]))
  }

  lemma {:induction false} RowSendsFew(p: int, r: BusRow)
    requires p > 0 && IsBit(r.isDummy) && IsBit(r.links)
    ensures |RowSends(p, r)| <= 3 && Selectors(RowSends(p, r))
  {
  }

  lemma {:induction false} AllSendsFew(p: int, rows: seq<BusRow>)
    requires p > 0 && RowSelectors(rows)
    ensures |AllSends(p, rows)| <= 3 * |rows| && Selectors(AllSends(p, rows))
  {
    hide RowSends;
    if |rows| > 0 {
      AllSendsFew(p, rows[..|rows| - 1]);
      RowSendsFew(p, rows[|rows| - 1]);
    }
  }

  lemma {:induction false} RealReceived(memory: seq<MemoryColumns>, n: nat)
    requires n <= RealCount(memory)
    ensures Live(MemoryReceives(memory)[..n]) == RealTuples(memory)[..n]
  {
    if n > 0 {
      RealReceived(memory, n - 1);
      assert MemoryReceives(memory)[n - 1].multiplicity == 1;
      hide MemoryReceives, TupleOf;
      LiveNext(MemoryReceives(memory), n - 1);
      assert RealTuples(memory)[..n] == RealTuples(memory)[..n - 1] + [RealTuples(memory)[n - 1]];
    }
  }

  lemma {:induction false} MemoryReceived(p: int, memory: seq<MemoryColumns>)
    requires IsPrime(p) && MemoryResidues(p, memory) && MemoryEval(p, memory)
    ensures Live(MemoryReceives(memory)) == RealTuples(memory) && Selectors(MemoryReceives(memory))
  {
    var receives, n := MemoryReceives(memory), RealCount(memory);
    forall i | 0 <= i < |memory| ensures receives[i].multiplicity == if i < n then 1 else 0 {
      if i >= n {
        PaddingIsSuffix(p, memory, i);
      }
    }
    RealReceived(memory, n);
    hide MemoryEval, MemoryResidues, MemoryReceives;
    LivePrefix(receives, n);
    assert RealTuples(memory)[..n] == RealTuples(memory);
  }

  /** The memory bus: the live accesses of the instruction rows are the real rows of the memory table. */
  lemma {:induction false} MemoryBusMoves(p: int, rows: seq<BusRow>, memory: seq<MemoryColumns>)
    requires IsPrime(p) && RowSelectors(rows) && 3 * |rows| < p && |memory| < p
    requires MemoryResidues(p, memory) && MemoryEval(p, memory)
    ensures MemoryBus(p, rows, memory) <==> multiset(Live(AllSends(p, rows))) == multiset(RealTuples(memory))
  {
    hide MemoryEval, MemoryResidues, AllSends, MemoryReceives, Live, RowSelectors, Balanced, IsPrime, RealTuples, Selectors;
    AllSendsFew(p, rows);
    MemoryReceived(p, memory);
    LiveBound(AllSends(p, rows));
    assert |MemoryReceives(memory)| == |memory| by { ReceivesSize(memory); }
    LiveBound(MemoryReceives(memory));
    BalancedIffEqual(p, AllSends(p, rows), MemoryReceives(memory));
  }

  lemma {:induction false} ReceivesSize(memory: seq<MemoryColumns>)
    ensures |MemoryReceives(memory)| == |memory|
  {
  }

  // Live rows.

  function LiveRows(rows: seq<BusRow>): seq<BusRow> {
    if |rows| == 0 then []
    else LiveRows(rows[..|rows| - 1]) + if rows[|rows| - 1].isDummy == 1 then [rows[|rows| - 1]] else []
  }

  lemma {:induction false} LiveRowsAre(rows: seq<BusRow>)
    ensures |LiveRows(rows)| <= |rows|
    ensures forall r :: r in LiveRows(rows) ==> r.isDummy == 1 && r in rows
  {
    if |rows| > 0 {
      LiveRowsAre(rows[..|rows| - 1]);
    }
  }

  /** The accesses of a live row. */
  function Accesses(p: int, r: BusRow): seq<MemoryTuple>
    requires p > 0
  {
    Live(RowSends(p, r))
  }

  function AllAccesses(p: int, rows: seq<BusRow>): seq<MemoryTuple>
    requires p > 0
  {
    if |rows| == 0 then [] else AllAccesses(p, rows[..|rows| - 1]) + Accesses(p, rows[|rows| - 1])
  }

  lemma {:induction false} PaddingSendsNothing(p: int, r: BusRow)
    requires p > 0 && r.isDummy == 0
    ensures Accesses(p, r) == []
  {
    NoneLive(RowSends(p, r));
  }

  lemma {:induction false} LiveRowsAccess(p: int, rows: seq<BusRow>)
    requires p > 0 && RowSelectors(rows)
    ensures Live(AllSends(p, rows)) == AllAccesses(p, LiveRows(rows))
  {
    hide RowSends, Live;
    if |rows| > 0 {
      var before, last := rows[..|rows| - 1], rows[|rows| - 1];
      LiveRowsAccess(p, before);
      LiveAppend(AllSends(p, before), RowSends(p, last));
      if last.isDummy == 1 {
        assert (LiveRows(before) + [last])[..|LiveRows(before)|] == LiveRows(before);
      } else {
        PaddingSendsNothing(p, last);
        assert LiveRows(rows) == LiveRows(before);
        assert Live(AllSends(p, before)) + [] == Live(AllSends(p, before));
      }
    } else {
      assert Live<MemoryTuple>([]) == [] by { NoneLive<MemoryTuple>([]); }
    }
  }

  lemma {:induction false} LiveHopsAppend(a: seq<Hop>, h: Hop)
    ensures LiveHops(a + [h]) == LiveHops(a) + if h.isDummy == 1 then [h] else []
  {
    if |a| > 0 {
      LiveHopsAppend(a[1..], h);
      assert (a + [h])[1..] == a[1..] + [h];
    } else {
      assert [h][1..] == [];
    }
  }

  lemma {:induction false} LiveRowsHop(p: int, rows: seq<BusRow>)
    requires p > 0
    ensures LiveHops(BusHops(p, rows)) == BusHops(p, LiveRows(rows))
  {
    if |rows| > 0 {
      var before, last := rows[..|rows| - 1], rows[|rows| - 1];
      LiveRowsHop(p, before);
      assert BusHops(p, rows) == BusHops(p, before) + [BusHop(p, last)];
      LiveHopsAppend(BusHops(p, before), BusHop(p, last));
    }
  }
}
