/** The comparison buses of the memory table balance on the entries computed from the same log. */
module MemoryBuses {
  import opened Words
  import opened PrimeField
  import opened Rv32
  import opened OfflineMemory
  import opened U32Ops
  import opened U32LessThan
  import opened Bits
  import opened TimestampLessThan
  import opened MemoryAir
  import opened MemoryTimes
  import opened MemoryTrace
  import opened Heights
  import opened Bus

  // The entries: one address comparison per neighbouring pair of a type, one timestamp comparison
  // per neighbouring pair of an address.

  function Pairs(s: seq<MemoryOp>): nat {
    if |s| == 0 then 0 else |s| - 1
  }

  predicate SameType(s: seq<MemoryOp>, i: nat)
    requires i + 1 < |s|
  {
    s[i].memoryType == s[i + 1].memoryType
  }

  predicate SameAddress(s: seq<MemoryOp>, i: nat)
    requires i + 1 < |s|
  {
    SameType(s, i) && s[i].address == s[i + 1].address
  }

  function AddressEntries(s: seq<MemoryOp>, k: nat): seq<(word, word, int)>
    requires k <= Pairs(s)
  {
    if k == 0 then []
    else AddressEntries(s, k - 1) + if SameType(s, k - 1) then [(s[k - 1].address, s[k].address, 1)] else []
  }

  function TimestampEntries(s: seq<MemoryOp>, k: nat): seq<(word, word, int)>
    requires k <= Pairs(s)
  {
    if k == 0 then []
    else TimestampEntries(s, k - 1) + if SameAddress(s, k - 1) then [(s[k - 1].timestamp, s[k].timestamp, 1)] else []
  }

  // The u32_lt bus.

  function EntryTuple(e: (word, word, int)): LtTuple {
    LtTuple(ToLimbs(e.0), ToLimbs(e.1), Flag(e.0 == e.1))
  }

  function EntryTuples(entries: seq<(word, word, int)>): seq<LtTuple> {
    seq(|entries|, i requires 0 <= i < |entries| => EntryTuple(entries[i]))
  }

  ghost predicate CountedOnce(entries: seq<(word, word, int)>) {
    forall i :: 0 <= i < |entries| ==> entries[i].2 == 1
  }

  /** The rows `u32_less_than_lookup::build_trace` makes of the entries. */
  ghost predicate BuiltLt(p: int, entries: seq<(word, word, int)>, table: seq<U32LtColumns>)
    requires IsPrime(p) && p > 256
  {
    && |entries| <= |table|
    && (forall i :: 0 <= i < |entries| ==> table[i] == U32LtRow(p, entries[i].0, entries[i].1, entries[i].2))
    && forall i :: |entries| <= i < |table| ==> table[i] == U32_LT_PADDING
  }

  lemma {:induction false} LtReceiveOf(p: int, entries: seq<(word, word, int)>, table: seq<U32LtColumns>, i: nat)
    requires IsPrime(p) && p > 256 && BuiltLt(p, entries, table) && CountedOnce(entries) && i < |table|
    ensures var e := LtReceives(table)[i];
            && (i < |entries| ==> e == Entry(EntryTuple(entries[i]), 1))
            && (i >= |entries| ==> e.multiplicity == 0)
  {
    hide InverseOf, SelectorOf, ToLimbs;
  }

  lemma {:induction false} LtReceived(p: int, entries: seq<(word, word, int)>, table: seq<U32LtColumns>, k: nat)
    requires IsPrime(p) && p > 256 && BuiltLt(p, entries, table) && CountedOnce(entries) && k <= |entries| <= |table|
    ensures Live(LtReceives(table)[..k]) == EntryTuples(entries)[..k]
  {
    hide BuiltLt, U32LtRow;
    if k > 0 {
      LtReceived(p, entries, table, k - 1);
      LtReceiveOf(p, entries, table, k - 1);
      LiveNext(LtReceives(table), k - 1);
      assert EntryTuples(entries)[..k] == EntryTuples(entries)[..k - 1] + [EntryTuples(entries)[k - 1]];
    }
  }

  lemma {:induction false} LtReceivesEntries(p: int, entries: seq<(word, word, int)>, table: seq<U32LtColumns>)
    requires IsPrime(p) && p > 256 && BuiltLt(p, entries, table) && CountedOnce(entries)
    ensures Live(LtReceives(table)) == EntryTuples(entries) && Selectors(LtReceives(table))
  {
    var receives, n := LtReceives(table), |entries|;
    forall i | 0 <= i < |table|
      ensures receives[i].multiplicity == if i < n then 1 else 0
    {
      LtReceiveOf(p, entries, table, i);
    }
    LtReceived(p, entries, table, n);
    hide BuiltLt, LtReceives;
    LivePrefix(receives, n);
    assert EntryTuples(entries)[..n] == EntryTuples(entries);
  }

  lemma {:induction false} AddressSendOf(s: seq<MemoryOp>, i: nat)
    requires i < PaddedHeight(|s|) && AllRegisters(s)
    ensures var e := AddressSends(Matrix(s))[i];
            && (i < Pairs(s) ==> e == Entry(EntryTuple((s[i].address, s[i + 1].address, 1)), 1))
            && (i >= Pairs(s) ==> e.multiplicity == 0)
  {
    if i < Pairs(s) {
      LimbsReflected(257, s[i].address, s[i + 1].address);
    }
    hide ToLimbs, PaddedHeight;
  }

  lemma {:induction false} AddressSent(s: seq<MemoryOp>, k: nat)
    requires AllRegisters(s) && k <= Pairs(s)
    ensures Live(AddressSends(Matrix(s))[..k]) == EntryTuples(AddressEntries(s, k)) && CountedOnce(AddressEntries(s, k))
  {
    if k > 0 {
      hide Matrix, AddressSends, EntryTuple, PaddedHeight;
      AddressSent(s, k - 1);
      AddressSendOf(s, k - 1);
      LiveNext(AddressSends(Matrix(s)), k - 1);
    }
  }

  lemma {:induction false} AddressSendsEntries(s: seq<MemoryOp>)
    requires AllRegisters(s)
    ensures var sends, entries := AddressSends(Matrix(s)), AddressEntries(s, Pairs(s));
            Live(sends) == EntryTuples(entries) && Selectors(sends) && CountedOnce(entries)
  {
    var sends := AddressSends(Matrix(s));
    forall i | 0 <= i < |sends|
      ensures sends[i].multiplicity == if i < Pairs(s) then 1 else 0
    {
      AddressSendOf(s, i);
    }
    AddressSent(s, Pairs(s));
    hide AddressSends, Matrix, AddressEntries, EntryTuple;
    LivePrefix(sends, Pairs(s));
  }

  /** The u32_lt bus balances between the matrix of any register log and the rows of its entries. */
  lemma {:induction false} AddressBusBalances(p: int, s: seq<MemoryOp>, table: seq<U32LtColumns>)
    requires IsPrime(p) && p > 256 && AllRegisters(s) && BuiltLt(p, AddressEntries(s, Pairs(s)), table)
    ensures AddressBus(p, Matrix(s), table)
  {
    AddressSendsEntries(s);
    hide BuiltLt, AddressSends, Matrix, AddressEntries, LtReceives, EntryTuples;
    LtReceivesEntries(p, AddressEntries(s, Pairs(s)), table);
    EqualBalances(p, AddressSends(Matrix(s)), LtReceives(table));
  }

  // The timestamp_lt bus.

  function TimeTupleOf(e: (word, word, int)): TimeTuple {
    TimeTuple(e.0, e.1, Flag(e.0 == e.1))
  }

  function TimeTuples(entries: seq<(word, word, int)>): seq<TimeTuple> {
    seq(|entries|, i requires 0 <= i < |entries| => TimeTupleOf(entries[i]))
  }

  ghost predicate Below24(entries: seq<(word, word, int)>) {
    forall i :: 0 <= i < |entries| ==> entries[i].0 < TWO24 && entries[i].1 < TWO24
  }

  /** The rows `timestamp_less_than::build_trace` makes of the entries. */
  ghost predicate BuiltTimes(p: int, entries: seq<(word, word, int)>, table: seq<TimestampLtColumns>)
    requires LargePrime(p) && Below24(entries)
  {
    && |entries| <= |table|
    && (forall i :: 0 <= i < |entries| ==> table[i] == TimestampLtRow(p, entries[i].0, entries[i].1, entries[i].2))
    && forall i :: |entries| <= i < |table| ==> table[i] == TIMESTAMP_LT_PADDING
  }

  lemma {:induction false} TimeReceiveOf(p: int, entries: seq<(word, word, int)>, table: seq<TimestampLtColumns>, i: nat)
    requires LargePrime(p) && Below24(entries) && BuiltTimes(p, entries, table) && CountedOnce(entries) && i < |table|
    ensures var e := TimestampReceives(table)[i];
            && (i < |entries| ==> e == Entry(TimeTupleOf(entries[i]), 1))
            && (i >= |entries| ==> e.multiplicity == 0)
  {
    hide ToBits, NegatedInverse;
  }

  lemma {:induction false} TimeReceived(p: int, entries: seq<(word, word, int)>, table: seq<TimestampLtColumns>, k: nat)
    requires LargePrime(p) && Below24(entries) && BuiltTimes(p, entries, table) && CountedOnce(entries)
    requires k <= |entries| <= |table|
    ensures Live(TimestampReceives(table)[..k]) == TimeTuples(entries)[..k]
  {
    hide BuiltTimes, LargePrime;
    if k > 0 {
      TimeReceived(p, entries, table, k - 1);
      TimeReceiveOf(p, entries, table, k - 1);
      LiveNext(TimestampReceives(table), k - 1);
      assert TimeTuples(entries)[..k] == TimeTuples(entries)[..k - 1] + [TimeTuples(entries)[k - 1]];
    }
  }

  lemma {:induction false} TimeReceivesEntries(p: int, entries: seq<(word, word, int)>, table: seq<TimestampLtColumns>)
    requires LargePrime(p) && Below24(entries) && BuiltTimes(p, entries, table) && CountedOnce(entries)
    ensures Live(TimestampReceives(table)) == TimeTuples(entries) && Selectors(TimestampReceives(table))
  {
    var receives, n := TimestampReceives(table), |entries|;
    forall i | 0 <= i < |table|
      ensures receives[i].multiplicity == if i < n then 1 else 0
    {
      TimeReceiveOf(p, entries, table, i);
    }
    TimeReceived(p, entries, table, n);
    hide BuiltTimes, TimestampReceives;
    LivePrefix(receives, n);
    assert TimeTuples(entries)[..n] == TimeTuples(entries);
  }

  lemma {:induction false} TimestampSendOf(s: seq<MemoryOp>, i: nat)
    requires i < PaddedHeight(|s|) && AllRegisters(s)
    ensures var e := TimestampSends(Matrix(s))[i];
            && (i < Pairs(s) ==> e == Entry(TimeTupleOf((s[i].timestamp, s[i + 1].timestamp, 1)), Flag(SameAddress(s, i))))
            && (i >= Pairs(s) ==> e.multiplicity == 0)
  {
    if i < Pairs(s) {
      LimbsReflected(257, s[i].address, s[i + 1].address);
    }
    hide ToLimbs, PaddedHeight;
  }

  lemma {:induction false} TimestampSent(s: seq<MemoryOp>, k: nat)
    requires AllRegisters(s) && k <= Pairs(s)
    ensures Live(TimestampSends(Matrix(s))[..k]) == TimeTuples(TimestampEntries(s, k)) && CountedOnce(TimestampEntries(s, k))
  {
    if k > 0 {
      hide Matrix, TimestampSends, TimeTupleOf, PaddedHeight;
      TimestampSent(s, k - 1);
      TimestampSendOf(s, k - 1);
      LiveNext(TimestampSends(Matrix(s)), k - 1);
    }
  }

  lemma {:induction false} TimestampSendsEntries(s: seq<MemoryOp>)
    requires AllRegisters(s)
    ensures var sends, entries := TimestampSends(Matrix(s)), TimestampEntries(s, Pairs(s));
            Live(sends) == TimeTuples(entries) && Selectors(sends) && CountedOnce(entries)
  {
    var sends := TimestampSends(Matrix(s));
    forall i | 0 <= i < |sends|
      ensures sends[i].multiplicity == 0 || (i < Pairs(s) && sends[i].multiplicity == 1)
    {
      TimestampSendOf(s, i);
    }
    TimestampSent(s, Pairs(s));
    hide TimestampSends, Matrix, TimestampEntries, TimeTupleOf;
    LivePrefix(sends, Pairs(s));
  }

  lemma {:induction false} EntriesBelow24(s: seq<MemoryOp>, k: nat)
    requires k <= Pairs(s) && forall i :: 0 <= i < |s| ==> s[i].timestamp < TWO24
    ensures Below24(TimestampEntries(s, k))
  {
    if k > 0 {
      EntriesBelow24(s, k - 1);
    }
  }

  /** The timestamp_lt bus balances between the matrix of any register log and the rows of its entries. */
  lemma {:induction false} TimestampBusBalances(p: int, s: seq<MemoryOp>, table: seq<TimestampLtColumns>)
    requires LargePrime(p) && AllRegisters(s) && Below24(TimestampEntries(s, Pairs(s)))
    requires BuiltTimes(p, TimestampEntries(s, Pairs(s)), table)
    ensures Balanced(p, TimestampSends(Matrix(s)), TimestampReceives(table))
  {
    TimestampSendsEntries(s);
    hide BuiltTimes, TimestampSends, Matrix, TimestampEntries, TimestampReceives, TimeTuples, Below24;
    TimeReceivesEntries(p, TimestampEntries(s, Pairs(s)), table);
    EqualBalances(p, TimestampSends(Matrix(s)), TimestampReceives(table));
  }
}
