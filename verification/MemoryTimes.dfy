/** The timestamp comparisons of the memory table: what they check and what they leave open. */
module MemoryTimes {
  import opened Words
  import opened PrimeField
  import opened Rv32
  import opened OfflineMemory
  import opened U32Ops
  import opened U32LessThan
  import opened TimestampLessThan
  import opened MemoryAir
  import opened Bus

  datatype TimeTuple = TimeTuple(x: int, y: int, isEqual: int)

  function TimestampSend(local: MemoryColumns, next: MemoryColumns): Entry<TimeTuple> {
    Entry(TimeTuple(local.timestamp, next.timestamp, local.isTimestampEqual), local.isAddressEqual * (1 - next.isPadding))
  }

  function TimestampSends(rows: seq<MemoryColumns>): seq<Entry<TimeTuple>> {
    seq(|rows|, i requires 0 <= i < |rows| => TimestampSend(rows[i], NextOf(rows, i)))
  }

  function TimestampReceives(table: seq<TimestampLtColumns>): seq<Entry<TimeTuple>> {
    seq(|table|, i requires 0 <= i < |table| => Entry(TimeTuple(table[i].x, table[i].y, table[i].isEqual), table[i].mult))
  }

  ghost predicate TimeTableAccepted(p: int, table: seq<TimestampLtColumns>)
    requires p > 0
  {
    forall k :: 0 <= k < |table| ==> TimestampLtResidues(p, table[k]) && TimestampLtEval(p, table[k])
  }

  ghost predicate TimestampBus(p: int, rows: seq<MemoryColumns>, table: seq<TimestampLtColumns>)
    requires p > 0
  {
    Balanced(p, TimestampSends(rows), TimestampReceives(table))
  }

  /** Row k of the timestamp table can answer the comparison memory row i sends. */
  predicate Answers(rows: seq<MemoryColumns>, table: seq<TimestampLtColumns>, i: nat, k: nat)
    requires i < |rows| && k < |table|
  {
    TimestampReceives(table)[k].multiplicity != 0 && TimestampReceives(table)[k].tuple == TimestampSends(rows)[i].tuple
  }

  /** Memory row i and the next one are accesses to one address. */
  predicate SameAddressPair(rows: seq<MemoryColumns>, i: int) {
    0 <= i && i + 1 < RealCount(rows) && rows[i].address == rows[i + 1].address
  }

  /**
   * The assertion the timestamp table does not make: every row that answers a comparison of two
   * accesses to one address has its top bit off.
   */
  ghost predicate AnswersAscend(rows: seq<MemoryColumns>, table: seq<TimestampLtColumns>) {
    forall i, k :: SameAddressPair(rows, i) && 0 <= k < |table| && Answers(rows, table, i, k) ==> table[k].vBits[24] == 0
  }

  /**
   * The last row compares itself with the first one, and no constraint makes the selector of that
   * comparison boolean. It does no harm when it is boolean, or when its tuple is nobody else's.
   */
  ghost predicate WrapIsHarmless(rows: seq<MemoryColumns>) {
    |rows| > 0 ==>
      var last := TimestampSends(rows)[|rows| - 1];
      IsBit(last.multiplicity) || forall i :: SameAddressPair(rows, i) ==> TimestampSends(rows)[i].tuple != last.tuple
  }

  ghost predicate DistinctTimes(ops: seq<MemoryOp>) {
    forall i, j :: 0 <= i < j < |ops| ==> ops[i].timestamp != ops[j].timestamp
  }

  /** Accesses at different times keep the last comparison apart from the others. */
  lemma {:induction false} DistinctIsHarmless(rows: seq<MemoryColumns>)
    requires WritersOnly(rows) && DistinctTimes(RealOps(rows))
    ensures WrapIsHarmless(rows)
  {
    var ops := RealOps(rows);
    if |rows| > 0 {
      forall i | SameAddressPair(rows, i) ensures TimestampSends(rows)[i].tuple != TimestampSends(rows)[|rows| - 1].tuple {
        assert ops[0].timestamp != ops[i + 1].timestamp;
        assert WriterRow(rows[0]) && WriterRow(rows[i + 1]);
      }
    }
  }

  // The selectors.

  lemma {:induction false} PairSelector(p: int, rows: seq<MemoryColumns>, lt: seq<U32LtColumns>, i: nat)
    requires LargePrime(p) && MemoryResidues(p, rows) && MemoryEval(p, rows) && WritersOnly(rows) && |rows| < p
    requires LtTableAccepted(p, lt) && AddressBus(p, rows, lt) && i + 1 < RealCount(rows)
    ensures TimestampSends(rows)[i].multiplicity == Flag(SameAddressPair(rows, i))
  {
    hide MemoryEval, LtTableAccepted, AddressBus, MemoryResidues, AddressSends, LargePrime, Value;
    RealPair(p, rows, i);
    ComparisonHolds(p, rows, lt, i);
    SameValue(rows[i].address, rows[i + 1].address);
  }

  lemma {:induction false} PaddingSelector(p: int, rows: seq<MemoryColumns>, i: nat)
    requires LargePrime(p) && MemoryResidues(p, rows) && MemoryEval(p, rows) && RealCount(rows) <= i + 1 < |rows|
    ensures TimestampSends(rows)[i].multiplicity == 0
  {
    PaddingIsSuffix(p, rows, i + 1);
  }

  /** All comparisons but the last row's carry selectors. */
  lemma {:induction false} InnerSelectors(p: int, rows: seq<MemoryColumns>, lt: seq<U32LtColumns>)
    requires LargePrime(p) && MemoryResidues(p, rows) && MemoryEval(p, rows) && WritersOnly(rows) && |rows| < p
    requires LtTableAccepted(p, lt) && AddressBus(p, rows, lt) && |rows| > 0
    ensures Selectors(TimestampSends(rows)[..|rows| - 1])
  {
    hide MemoryEval, LtTableAccepted, AddressBus, MemoryResidues, LargePrime, TimestampSend;
    forall i | 0 <= i < |rows| - 1 ensures IsBit(TimestampSends(rows)[i].multiplicity) {
      if i + 1 < RealCount(rows) {
        PairSelector(p, rows, lt, i);
      } else {
        PaddingSelector(p, rows, i);
      }
    }
  }

  lemma {:induction false} LastTotal(front: seq<Entry<TimeTuple>>, last: Entry<TimeTuple>, t: TimeTuple)
    ensures Total(front + [last], t) == Total(front, t) + if last.tuple == t then last.multiplicity else 0
  {
    TotalAppend(front, [last], t);
    assert [last][1..] == [];
  }

  lemma {:induction false} SelectedTotal(p: int, sends: seq<Entry<TimeTuple>>, i: nat)
    requires i + 1 < |sends| < p && Selectors(sends[..|sends| - 1]) && sends[i].multiplicity == 1
    requires sends[|sends| - 1].tuple == sends[i].tuple ==> IsBit(sends[|sends| - 1].multiplicity)
    ensures 0 < Total(sends, sends[i].tuple) < p
  {
    var front, last, t := sends[..|sends| - 1], sends[|sends| - 1], sends[i].tuple;
    assert front[i] == sends[i];
    assert sends == front + [last];
    hide *;
    LastTotal(front, last, t);
    TotalCounts(front, t);
    LiveBound(front);
    LiveHas(front, i);
    assert t in multiset(Live(front));
  }

  lemma {:induction false} WrapIsSelector(rows: seq<MemoryColumns>, i: nat)
    requires WrapIsHarmless(rows) && SameAddressPair(rows, i)
    ensures var sends := TimestampSends(rows);
            sends[|sends| - 1].tuple == sends[i].tuple ==> IsBit(sends[|sends| - 1].multiplicity)
  {
    assert |TimestampSends(rows)| == |rows|;
    hide TimestampSends;
  }

  /** The tuple of a pair on one address is sent between one and |rows| times. */
  lemma {:induction false} PairTotal(p: int, rows: seq<MemoryColumns>, lt: seq<U32LtColumns>, i: nat)
    requires LargePrime(p) && MemoryResidues(p, rows) && MemoryEval(p, rows) && WritersOnly(rows) && |rows| < p
    requires LtTableAccepted(p, lt) && AddressBus(p, rows, lt) && WrapIsHarmless(rows) && SameAddressPair(rows, i)
    ensures 0 < Total(TimestampSends(rows), TimestampSends(rows)[i].tuple) < p
  {
    hide *;
    PairInside(rows, i);
    PairSelector(p, rows, lt, i);
    InnerSelectors(p, rows, lt);
    WrapIsSelector(rows, i);
    SelectedTotal(p, TimestampSends(rows), i);
  }

  lemma {:induction false} PairInside(rows: seq<MemoryColumns>, i: nat)
    requires SameAddressPair(rows, i)
    ensures i + 1 < RealCount(rows) <= |rows| == |TimestampSends(rows)| && Flag(SameAddressPair(rows, i)) == 1
  {
  }

  /** A comparison of two accesses to one address is answered. */
  lemma {:induction false} PairAnswered(p: int, rows: seq<MemoryColumns>, lt: seq<U32LtColumns>, times: seq<TimestampLtColumns>, i: nat)
    returns (k: nat)
    requires LargePrime(p) && MemoryResidues(p, rows) && MemoryEval(p, rows) && WritersOnly(rows) && |rows| < p
    requires LtTableAccepted(p, lt) && AddressBus(p, rows, lt) && TimestampBus(p, rows, times)
    requires WrapIsHarmless(rows) && SameAddressPair(rows, i)
    ensures i < |rows| && k < |times| && Answers(rows, times, i, k)
  {
    hide *;
    PairInside(rows, i);
    PairTotal(p, rows, lt, i);
    k := TupleAnswered(p, rows, times, i);
  }

  lemma {:induction false} TupleAnswered(p: int, rows: seq<MemoryColumns>, times: seq<TimestampLtColumns>, i: nat) returns (k: nat)
    requires p > 0 && TimestampBus(p, rows, times) && i < |rows|
    requires 0 < Total(TimestampSends(rows), TimestampSends(rows)[i].tuple) < p
    ensures k < |times| && Answers(rows, times, i, k)
  {
    var sends, receives := TimestampSends(rows), TimestampReceives(times);
    var t := sends[i].tuple;
    assert Zero(p, Total(sends, t) - Total(receives, t));
    hide TimestampBus, Zero, Total;
    TotalIsReceived(p, receives, t, Total(sends, t));
    k :| k < |receives| && receives[k].tuple == t && receives[k].multiplicity != 0;
  }

  /** An answering row of an accepted timestamp table has its top bit off exactly when the times ascend. */
  lemma {:induction false} AnswerOrders(p: int, rows: seq<MemoryColumns>, times: seq<TimestampLtColumns>, i: nat, k: nat)
    requires LargePrime(p) && TimeTableAccepted(p, times) && SameAddressPair(rows, i) && k < |times| && Answers(rows, times, i, k)
    ensures times[k].vBits[24] == 0 <==> rows[i].timestamp < rows[i + 1].timestamp
  {
    TimestampLtSound(p, times[k]);
    hide TimestampLtEval, TimestampLtResidues, LargePrime;
  }

  lemma {:induction false} PairTimes(rows: seq<MemoryColumns>, i: nat)
    requires WritersOnly(rows) && i + 1 < RealCount(rows)
    ensures var ops := RealOps(rows);
            && ops[i].timestamp == rows[i].timestamp && ops[i + 1].timestamp == rows[i + 1].timestamp
            && (ops[i].address == ops[i + 1].address <==> SameAddressPair(rows, i))
  {
    assert WriterRow(rows[i]) && WriterRow(rows[i + 1]);
    WrapBytes(rows[i].address);
    WrapBytes(rows[i + 1].address);
    SameValue(rows[i].address, rows[i + 1].address);
  }

  /**
   * Timestamps increase along the accesses to each address exactly when every timestamp row that
   * answers one of their comparisons has its top bit off.
   */
  lemma {:induction false} TimestampsIncreaseIff(p: int, rows: seq<MemoryColumns>, lt: seq<U32LtColumns>, times: seq<TimestampLtColumns>)
    requires LargePrime(p) && MemoryResidues(p, rows) && MemoryEval(p, rows) && WritersOnly(rows) && |rows| < p
    requires LtTableAccepted(p, lt) && AddressBus(p, rows, lt)
    requires TimeTableAccepted(p, times) && TimestampBus(p, rows, times) && WrapIsHarmless(rows)
    ensures TimestampsIncrease(RealOps(rows)) <==> AnswersAscend(rows, times)
  {
    var ops := RealOps(rows);
    assert |ops| == RealCount(rows);
    hide MemoryEval, LtTableAccepted, AddressBus, TimestampBus, TimeTableAccepted, MemoryResidues, WrapIsHarmless, RealOps, Answers,
         WritersOnly, LargePrime;
    if AnswersAscend(rows, times) {
      forall i | 0 <= i < |ops| - 1 && ops[i].address == ops[i + 1].address ensures ops[i].timestamp < ops[i + 1].timestamp {
        PairTimes(rows, i);
        var k := PairAnswered(p, rows, lt, times, i);
        AnswerOrders(p, rows, times, i, k);
      }
    }
    if TimestampsIncrease(ops) {
      forall i, k | SameAddressPair(rows, i) && 0 <= k < |times| && Answers(rows, times, i, k) ensures times[k].vBits[24] == 0 {
        PairTimes(rows, i);
        AnswerOrders(p, rows, times, i, k);
      }
    }
  }

  lemma {:induction false} OrderedAreDistinct(log: seq<MemoryOp>, ops: seq<MemoryOp>)
    requires TimeOrdered(log) && multiset(log) == multiset(ops)
    ensures DistinctTimes(ops)
  {
    forall i, j | 0 <= i < j < |ops| ensures ops[i].timestamp != ops[j].timestamp {
      if ops[i] == ops[j] {
        Twice(ops, i, j);
        Once(log, ops[i]);
      } else {
        assert ops[i] in multiset(log) && ops[j] in multiset(log);
        var a :| 0 <= a < |log| && log[a] == ops[i];
        var b :| 0 <= b < |log| && log[b] == ops[j];
      }
    }
  }

  lemma {:induction false} Twice(ops: seq<MemoryOp>, i: nat, j: nat)
    requires i < j < |ops| && ops[i] == ops[j]
    ensures multiset(ops)[ops[i]] >= 2
  {
    assert ops == ops[..j] + ([ops[j]] + ops[j + 1..]);
    assert ops[..j][i] == ops[i];
    assert ops[i] in multiset(ops[..j]);
  }

  lemma {:induction false} Once(log: seq<MemoryOp>, o: MemoryOp)
    requires TimeOrdered(log)
    ensures multiset(log)[o] <= 1
  {
    if o in log {
      var k :| 0 <= k < |log| && log[k] == o;
      assert log == log[..k] + ([o] + log[k + 1..]);
      assert o !in log[..k] && o !in log[k + 1..];
    }
  }

  /**
   * Offline memory checking for the accepted table: when the answering timestamp rows have their top
   * bits off, the log the table records replays on zeroed registers.
   */
  lemma {:induction false} AcceptedMemoryReplays(p: int, rows: seq<MemoryColumns>, lt: seq<U32LtColumns>, times: seq<TimestampLtColumns>,
                                                 log: seq<MemoryOp>)
    requires LargePrime(p) && MemoryResidues(p, rows) && MemoryEval(p, rows) && WritersOnly(rows) && |rows| < p
    requires LtTableAccepted(p, lt) && AddressBus(p, rows, lt)
    requires TimeTableAccepted(p, times) && TimestampBus(p, rows, times) && AnswersAscend(rows, times)
    requires multiset(log) == multiset(RealOps(rows)) && TimeOrdered(log)
    ensures KeyOrdered(RealOps(rows)) && Adjacent(RealOps(rows)) && Replays(log)
  {
    hide *;
    OrderedAreDistinct(log, RealOps(rows));
    DistinctIsHarmless(rows);
    TimestampsIncreaseIff(p, rows, lt, times);
    MemorySound(p, rows, lt);
    AcceptedIsKeyOrdered(p, rows, lt);
    OfflineMemoryChecking(log, RealOps(rows));
  }
}
