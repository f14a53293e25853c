/** The memory tables of a run: built from the log, accepted, and balanced on every bus. */
module MemoryComplete {
  import opened Words
  import opened PrimeField
  import opened Vm
  import opened OfflineMemory
  import opened VmLog
  import opened U32Ops
  import opened ByteTables
  import opened U32LessThan
  import opened TimestampLessThan
  import opened MemoryAir
  import opened MemoryTimes
  import opened MemoryTrace
  import opened MemoryBuses
  import opened ByteCounts
  import opened Heights
  import opened Bus

  lemma {:induction false} SortedMember(s: seq<MemoryOp>, i: nat)
    requires i < |s|
    ensures SortByKey(s)[i] in s
  {
    assert SortByKey(s)[i] in multiset(SortByKey(s));
    assert SortByKey(s)[i] in multiset(s);
  }

  lemma {:induction false} SortedRegisters(log: seq<MemoryOp>)
    requires OnlyRegisters(log)
    ensures AllRegisters(SortByKey(log))
  {
    forall i | 0 <= i < |log| ensures SortByKey(log)[i].memoryType == Register {
      SortedMember(log, i);
    }
  }

  lemma {:induction false} AscendingEntries(s: seq<MemoryOp>, k: nat)
    requires KeyOrdered(s) && k <= Pairs(s)
    ensures EntriesAscend(AddressEntries(s, k))
  {
    if k > 0 {
      AscendingEntries(s, k - 1);
      assert KeyLess(s[k - 1], s[k]);
    }
  }

  /** When register 0 is the last address by key, it is the only one, and its last access is the last by time. */
  lemma {:induction false} LastAccessToZero(log: seq<MemoryOp>, s: seq<MemoryOp>)
    requires OnlyRegisters(log) && TimeOrdered(log) && KeyOrdered(s) && multiset(s) == multiset(log)
    requires |s| > 0 && s[|s| - 1].address == 0
    ensures CellAt(log, |log|, (Register, 0)) == s[|s| - 1].write
  {
    assert |s| == |multiset(s)| == |log|;
    var n := |s| - 1;
    assert s[n] in multiset(log) && log[n] in multiset(s);
    var j :| 0 <= j < |log| && log[j] == s[n];
    var i :| 0 <= i < |s| && s[i] == log[n];
    KeyReflected(s, i, n);
    TimeReflected(log, j, n);
  }

  /** The registers a faithful log leaves decide whether the matrix ends clear. */
  lemma {:induction false} FaithfulEndsClear(log: seq<MemoryOp>, regs: Registers, ts: nat)
    requires FaithfulLog(log, regs, ts) && regs[0] == 0
    ensures EndsClear(SortByKey(log))
  {
    var s := SortByKey(log);
    SortOrders(log);
    hide SortByKey, PaddedHeight;
    if |s| > 0 && s[|s| - 1].address == 0 {
      LastAccessToZero(log, s);
    }
  }

  lemma {:induction false} ZeroAtEnd(program: seq<byte>, n: nat)
    requires Execute(program, n).Stepped? && ZeroesOnly(Execute(program, n).state.trace)
    ensures LastRegisters(Execute(program, n).state.trace)[0] == 0
  {
    ZeroRegister(program, n);
    hide Execute;
  }

  lemma {:induction false} FaithfulLogAccepted(p: int, log: seq<MemoryOp>, regs: Registers, ts: nat)
    requires p > 256 && FaithfulLog(log, regs, ts) && regs[0] == 0 && |log| > 0
    ensures MemoryEval(p, Matrix(SortByKey(log)))
  {
    var s := SortByKey(log);
    SortOrders(log);
    SortedRegisters(log);
    FaithfulEndsClear(log, regs, ts);
    hide SortByKey, MemoryEval, Matrix, EndsClear, Adjacent;
    OfflineMemoryChecking(log, s);
    MatrixAccepted(p, s);
  }

  // The comparison tables.

  ghost predicate PairsCounted(entries: seq<(word, word, int)>, mults: seq<int>) {
    && |mults| == NUM_VALID_PAIRS
    && forall x, y :: 0 <= x < y < 256 ==>
         PairIndex(x, y) < NUM_VALID_PAIRS && mults[PairIndex(x, y)] == ByteCount(entries, (x, y))
  }

  /** The tables trace generation makes of the comparisons between neighbouring accesses. */
  ghost predicate BuiltTables(p: int, s: seq<MemoryOp>, lt: seq<U32LtColumns>, times: seq<TimestampLtColumns>,
                              pairs: seq<BytePair>, mults: seq<int>)
    requires LargePrime(p)
  {
    && BuiltLt(p, AddressEntries(s, Pairs(s)), lt)
    && Below24(TimestampEntries(s, Pairs(s))) && BuiltTimes(p, TimestampEntries(s, Pairs(s)), times)
    && IsPairTable(pairs) && PairsCounted(AddressEntries(s, Pairs(s)), mults)
  }

  /** Accepted comparison tables whose three buses balance with the memory table. */
  ghost predicate ComparisonsAccepted(p: int, rows: seq<MemoryColumns>, lt: seq<U32LtColumns>, times: seq<TimestampLtColumns>,
                                      pairs: seq<BytePair>, mults: seq<int>)
    requires p > 0
  {
    && LtTableAccepted(p, lt) && TimeTableAccepted(p, times)
    && AddressBus(p, rows, lt) && TimestampBus(p, rows, times)
    && Balanced(p, AllByteSends(lt), ByteReceives(pairs, mults))
  }

  lemma {:induction false} BuiltLtAccepted(p: int, entries: seq<(word, word, int)>, lt: seq<U32LtColumns>)
    requires LargePrime(p) && BuiltLt(p, entries, lt) && EntriesAscend(entries)
    ensures LtTableAccepted(p, lt)
  {
    U32LtPaddingAccepted(p);
    U32LtBuiltResidues(p, 0, 0, 0);
    hide U32LtRow, U32LtEval, U32LtResidues, U32LtLookups, LargePrime;
    forall i | 0 <= i < |lt| ensures U32LtResidues(p, lt[i]) && U32LtEval(p, lt[i]) && U32LtLookups(lt[i]) {
      if i < |entries| {
        var e := entries[i];
        U32LtAccepted(p, e.0, e.1, e.2);
        U32LtBuiltResidues(p, e.0, e.1, e.2);
        U32LtSendsTablePairs(p, e.0, e.1, e.2);
      } else {
        assert lt[i] == U32_LT_PADDING;
      }
    }
  }

  lemma {:induction false} BuiltTimesAccepted(p: int, entries: seq<(word, word, int)>, times: seq<TimestampLtColumns>)
    requires LargePrime(p) && Below24(entries) && BuiltTimes(p, entries, times)
    ensures TimeTableAccepted(p, times)
  {
    TimestampLtPaddingAccepted(p);
    TimestampLtBuiltResidues(p, 0, 0, 0);
    hide TimestampLtRow, TimestampLtEval, TimestampLtResidues, LargePrime;
    forall i | 0 <= i < |times| ensures TimestampLtResidues(p, times[i]) && TimestampLtEval(p, times[i]) {
      if i < |entries| {
        var e := entries[i];
        TimestampLtAccepted(p, e.0, e.1, e.2);
        TimestampLtBuiltResidues(p, e.0, e.1, e.2);
      } else {
        assert times[i] == TIMESTAMP_LT_PADDING;
      }
    }
  }

  lemma {:induction false} BuiltAreAccepted(p: int, s: seq<MemoryOp>, lt: seq<U32LtColumns>, times: seq<TimestampLtColumns>,
                                            pairs: seq<BytePair>, mults: seq<int>)
    requires LargePrime(p) && BuiltTables(p, s, lt, times, pairs, mults)
    requires AllRegisters(s) && EntriesAscend(AddressEntries(s, Pairs(s)))
    ensures ComparisonsAccepted(p, Matrix(s), lt, times, pairs, mults)
  {
    hide Matrix, BuiltLt, BuiltTimes, Below24, EntriesAscend, AddressEntries, TimestampEntries, IsPairTable, Balanced,
         LtTableAccepted, TimeTableAccepted, AddressBus, PairIndex, ByteCount, AllByteSends, ByteReceives;
    BuiltLtAccepted(p, AddressEntries(s, Pairs(s)), lt);
    BuiltTimesAccepted(p, TimestampEntries(s, Pairs(s)), times);
    AddressBusBalances(p, s, lt);
    TimestampBusBalances(p, s, times);
    ByteBusBalances(p, AddressEntries(s, Pairs(s)), lt, pairs, mults);
  }

  /**
   * The memory part of trace generation: from a time-ordered register log with 24-bit timestamps
   * come a matrix, the comparison tables of its entries, and the comparison multiplicities; the
   * tables are accepted and the three comparison buses between them balance.
   */
  method BuildMemoryTables(p: int, log: seq<MemoryOperation>)
    returns (rows: array<MemoryColumns>, lt: array<U32LtColumns>, times: array<TimestampLtColumns>, pairs: seq<BytePair>,
             mults: array<int>)
    requires LargePrime(p) && |log| > 0 && OnlyRegisters(ToOps(log)) && TimeOrdered(ToOps(log))
    requires TimesBelow(ToOps(log), TWO24)
    ensures rows[..] == Matrix(SortByKey(ToOps(log)))
    ensures BuiltTables(p, SortByKey(ToOps(log)), lt[..], times[..], pairs, mults[..])
    ensures ComparisonsAccepted(p, rows[..], lt[..], times[..], pairs, mults[..])
  {
    ghost var s := SortByKey(ToOps(log));
    hide SortByKey, Matrix, U32LtRow, TimestampLtRow, PaddedHeight, OnlyRegisters, TimeOrdered, ByteCount, PairIndex,
         AddressEntries, TimestampEntries, Balanced, EntriesAscend, TimesBelow, ComparisonsAccepted;
    Prepared(log);
    rows := BuildMemory(log);
    var u32Entries, timeEntries;
    u32Entries, timeEntries, mults := MemoryLookupEntries(log);
    lt := BuildU32Lt(p, u32Entries);
    times := BuildTimestampLt(p, timeEntries);
    pairs := PairTable();
    assert BuiltLt(p, u32Entries, lt[..]);
    BuiltAreAccepted(p, s, lt[..], times[..], pairs, mults[..]);
  }

  lemma {:induction false} SortedIsPrepared(log: seq<MemoryOp>)
    requires OnlyRegisters(log) && TimeOrdered(log) && TimesBelow(log, TWO24)
    ensures var s := SortByKey(log);
            && AllRegisters(s) && KeyOrdered(s) && EntriesAscend(AddressEntries(s, Pairs(s)))
            && Below24(TimestampEntries(s, Pairs(s)))
  {
    var s := SortByKey(log);
    SortOrders(log);
    SortedRegisters(log);
    AscendingEntries(s, Pairs(s));
    forall i | 0 <= i < |s| ensures s[i].timestamp < TWO24 {
      SortedMember(log, i);
    }
    EntriesBelow24(s, Pairs(s));
  }

  lemma {:induction false} Prepared(log: seq<MemoryOperation>)
    requires OnlyRegisters(ToOps(log)) && TimeOrdered(ToOps(log)) && TimesBelow(ToOps(log), TWO24)
    ensures var s := SortByKey(ToOps(log));
            && AllRegisters(s) && EntriesAscend(AddressEntries(s, Pairs(s))) && Below24(TimestampEntries(s, Pairs(s)))
  {
    SortedIsPrepared(ToOps(log));
  }

  // The built matrix records the sorted log.

  lemma {:induction false} RealRowsOf(rows: seq<MemoryColumns>, n: nat)
    requires n <= |rows| && (forall i :: 0 <= i < n ==> rows[i].isPadding == 0)
    requires n < |rows| ==> rows[n].isPadding != 0
    ensures RealCount(rows) == n
  {
    if n > 0 {
      RealRowsOf(rows[1..], n - 1);
    }
  }

  lemma {:induction false} BuiltRecords(s: seq<MemoryOp>, i: nat)
    requires i < |s|
    ensures var r := BuiltRow(s, i);
            && r.isPadding == 0 && AreBytes(r.address) && AreBytes(r.read) && AreBytes(r.write) && r.timestamp == s[i].timestamp
            && (s[i].memoryType == Register ==> WriterRow(r) && OpOf(r) == s[i])
  {
    hide ToLimbs, Value, PaddedHeight;
    ToLimbsValue(s[i].address);
    ToLimbsValue(s[i].read);
    ToLimbsValue(s[i].write);
  }

  lemma {:induction false} MatrixRecords(s: seq<MemoryOp>)
    requires AllRegisters(s)
    ensures RealOps(Matrix(s)) == s && WritersOnly(Matrix(s))
  {
    var rows := Matrix(s);
    forall i | 0 <= i < |s| ensures rows[i].isPadding == 0 && WriterRow(rows[i]) && OpOf(rows[i]) == s[i] {
      BuiltRecords(s, i);
    }
    assert |s| < |rows| ==> rows[|s|].isPadding == 1;
    hide BuiltRow, WriterRow, OpOf, PaddedHeight;
    RealRowsOf(rows, |s|);
  }

  lemma {:induction false} BuiltRowResidues(p: int, s: seq<MemoryOp>, i: nat)
    requires p > 256
    ensures var r := BuiltRow(s, i);
            Residue(p, r.isPadding) && Residue(p, r.isMemoryTypeEqual) && ReadResidues(p, r.read)
  {
    if i < |s| {
      ToLimbsValue(s[i].read);
    }
    hide ToLimbs, Value, PaddedHeight;
  }

  lemma {:induction false} MatrixResidues(p: int, s: seq<MemoryOp>)
    requires p > 256
    ensures MemoryResidues(p, Matrix(s))
  {
    hide BuiltRow;
    forall i | 0 <= i < |Matrix(s)|
      ensures var r := Matrix(s)[i]; Residue(p, r.isPadding) && Residue(p, r.isMemoryTypeEqual) && ReadResidues(p, r.read)
    {
      BuiltRowResidues(p, s, i);
    }
  }

  /** The builder leaves the flags of the last row off. */
  lemma {:induction false} MatrixWrapIsHarmless(s: seq<MemoryOp>)
    ensures WrapIsHarmless(Matrix(s))
  {
    var h := PaddedHeight(|s|);
    assert |Matrix(s)| == h && Matrix(s)[h - 1].isAddressEqual == 0;
    hide PaddedHeight, Matrix;
  }

  lemma {:induction false} KeyOrderedIncreases(s: seq<MemoryOp>)
    requires KeyOrdered(s) && AllRegisters(s)
    ensures TimestampsIncrease(s)
  {
    forall i | 0 <= i < |s| - 1 && s[i].address == s[i + 1].address ensures s[i].timestamp < s[i + 1].timestamp {
      assert KeyLess(s[i], s[i + 1]);
    }
  }

  lemma {:induction false} FewerThanTicks(log: seq<MemoryOp>, bound: nat)
    requires TimeOrdered(log) && TimesBelow(log, bound)
    ensures |log| <= bound
  {
    if |log| > 0 {
      var n := |log| - 1;
      assert TimesBelow(log[..n], log[n].timestamp);
      FewerThanTicks(log[..n], log[n].timestamp);
    }
  }

  /** On the built tables the missing assertion holds: every answering timestamp row has its top bit off. */
  lemma {:induction false} BuiltAnswersAscend(p: int, s: seq<MemoryOp>, lt: seq<U32LtColumns>, times: seq<TimestampLtColumns>,
                                              pairs: seq<BytePair>, mults: seq<int>)
    requires LargePrime(p) && AllRegisters(s) && KeyOrdered(s) && |s| <= TWO24 && MemoryEval(p, Matrix(s))
    requires ComparisonsAccepted(p, Matrix(s), lt, times, pairs, mults)
    ensures AnswersAscend(Matrix(s), times)
  {
    hide MemoryEval, LtTableAccepted, TimeTableAccepted, AddressBus, TimestampBus, Balanced, AnswersAscend, TimestampsIncrease, RealOps,
         WritersOnly, MemoryResidues, WrapIsHarmless, KeyOrdered, AllRegisters, BuiltRow, IsPrime;
    assert |Matrix(s)| == PaddedHeight(|s|) < p;
    hide Matrix;
    MatrixRecords(s);
    MatrixResidues(p, s);
    MatrixWrapIsHarmless(s);
    KeyOrderedIncreases(s);
    TimestampsIncreaseIff(p, Matrix(s), lt, times);
  }

  /**
   * Memory completeness. For every run that computes only zeroes for register 0 and stays below
   * 2^24 ticks, the built tables are accepted on every row, the three comparison buses balance, and
   * the timestamp comparisons ascend.
   */
  lemma {:induction false} RunMemoryComplete(p: int, program: seq<byte>, n: nat, lt: seq<U32LtColumns>, times: seq<TimestampLtColumns>,
                                             pairs: seq<BytePair>, mults: seq<int>)
    requires LargePrime(p) && Execute(program, n).Stepped? && ZeroesOnly(Execute(program, n).state.trace)
    requires |Ops(Execute(program, n).state)| > 0 && Execute(program, n).state.timestamp <= TWO24
    requires BuiltTables(p, SortByKey(Ops(Execute(program, n).state)), lt, times, pairs, mults)
    ensures var rows := Matrix(SortByKey(Ops(Execute(program, n).state)));
            && MemoryEval(p, rows) && MemoryResidues(p, rows) && ComparisonsAccepted(p, rows, lt, times, pairs, mults)
            && AnswersAscend(rows, times) && RealOps(rows) == SortByKey(Ops(Execute(program, n).state))
  {
    hide *;
    var s := Execute(program, n).state;
    CleanRunIsFaithful(program, n);
    FaithfulAtEnd(program, n);
    ZeroAtEnd(program, n);
    FaithfulTablesComplete(p, s, lt, times, pairs, mults);
  }

  lemma {:induction false} FaithfulTablesComplete(p: int, s: VmState, lt: seq<U32LtColumns>, times: seq<TimestampLtColumns>,
                                                  pairs: seq<BytePair>, mults: seq<int>)
    requires LargePrime(p) && Faithful(s) && LastRegisters(s.trace)[0] == 0 && |Ops(s)| > 0 && s.timestamp <= TWO24
    requires BuiltTables(p, SortByKey(Ops(s)), lt, times, pairs, mults)
    ensures var rows := Matrix(SortByKey(Ops(s)));
            && MemoryEval(p, rows) && MemoryResidues(p, rows) && ComparisonsAccepted(p, rows, lt, times, pairs, mults)
            && AnswersAscend(rows, times) && RealOps(rows) == SortByKey(Ops(s))
  {
    var log := Ops(s);
    FaithfulLogAccepted(p, log, LastRegisters(s.trace), s.timestamp);
    assert TimesBelow(log, TWO24);
    FewerThanTicks(log, TWO24);
    hide *;
    SortedIsPrepared(log);
    MatrixRecords(SortByKey(log));
    MatrixResidues(p, SortByKey(log));
    BuiltAreAccepted(p, SortByKey(log), lt, times, pairs, mults);
    BuiltAnswersAscend(p, SortByKey(log), lt, times, pairs, mults);
  }

  /** The accesses of addi x0, x0, 1. */
  const OVERWRITTEN: seq<MemoryOp> := [MemoryOp(Register, 0, 0, 0, 0), MemoryOp(Register, 0, 1, 0, 1)]

  /** The log replays, but padding follows a last access that left register 0 at 1, so its matrix is refused. */
  lemma {:induction false} OverwrittenRefused(p: int)
    requires p > 256
    ensures KeyOrdered(OVERWRITTEN) && Adjacent(OVERWRITTEN) && !MemoryEval(p, Matrix(OVERWRITTEN))
  {
    MatrixAccepted(p, OVERWRITTEN);
    assert PaddedHeight(2) == 4;
    hide MemoryEval, Matrix;
  }

  // What the tables do not enforce.

  /** Two accesses to register 1 laid out against their time order. */
  const UNORDERED: seq<MemoryOp> := [MemoryOp(Register, 1, 5, 0, 7), MemoryOp(Register, 1, 3, 7, 9)]

  /**
   * The tables do not enforce time order: they accept this arrangement, comparison tables included,
   * and every comparison bus balances, although the same accesses in time order do not replay.
   */
  lemma {:induction false} TimeOrderIsNotEnforced(p: int, lt: seq<U32LtColumns>, times: seq<TimestampLtColumns>,
                                                  pairs: seq<BytePair>, mults: seq<int>)
    requires LargePrime(p) && BuiltTables(p, UNORDERED, lt, times, pairs, mults)
    ensures MemoryEval(p, Matrix(UNORDERED)) && MemoryResidues(p, Matrix(UNORDERED)) && RealOps(Matrix(UNORDERED)) == UNORDERED
    ensures ComparisonsAccepted(p, Matrix(UNORDERED), lt, times, pairs, mults)
    ensures var log := [UNORDERED[1], UNORDERED[0]];
            TimeOrdered(log) && multiset(log) == multiset(UNORDERED) && !Replays(log)
  {
    UnorderedReordered();
    UnorderedAscends();
    hide MemoryEval, Matrix, AddressEntries, BuiltTables, ComparisonsAccepted, EntriesAscend, Replays, MemoryResidues, RealOps;
    MatrixAccepted(p, UNORDERED);
    MatrixRecords(UNORDERED);
    MatrixResidues(p, UNORDERED);
    BuiltAreAccepted(p, UNORDERED, lt, times, pairs, mults);
  }

  /** In the order of its timestamps the same log reads 7 from a register still at 0. */
  lemma {:induction false} UnorderedReordered()
    ensures var log := [UNORDERED[1], UNORDERED[0]];
            TimeOrdered(log) && multiset(log) == multiset(UNORDERED) && !Replays(log)
  {
    var log := [UNORDERED[1], UNORDERED[0]];
    assert log[0].read != CellAt(log, 0, CellOf(log[0]));
  }

  lemma {:induction false} UnorderedAscends()
    ensures Pairs(UNORDERED) == 1 && EntriesAscend(AddressEntries(UNORDERED, 1))
  {
  }

  /** Four accesses to register 1, two times each at ticks 3 and 5. */
  const REPEATED: seq<MemoryOp> := [MemoryOp(Register, 1, 3, 0, 7), MemoryOp(Register, 1, 5, 7, 7),
                                    MemoryOp(Register, 1, 3, 7, 7), MemoryOp(Register, 1, 5, 7, 7)]

  /** Their matrix with the selector of the last row set to -1. */
  function CancellingMatrix(p: int): seq<MemoryColumns> {
    Matrix(REPEATED)[3 := Matrix(REPEATED)[3].(isAddressEqual := p - 1)]
  }

  /** The one comparison that is then left to answer: 3 against 5, twice. */
  ghost function OneTimeRow(p: int): seq<TimestampLtColumns>
    requires LargePrime(p)
  {
    [TimestampLtRow(p, 3, 5, 2)]
  }

  lemma {:induction false} CancellingSends(p: int)
    ensures |Matrix(REPEATED)| == 4
    ensures TimestampSends(CancellingMatrix(p))
         == [Entry(TimeTuple(3, 5, 0), 1), Entry(TimeTuple(5, 3, 0), 1), Entry(TimeTuple(3, 5, 0), 1), Entry(TimeTuple(5, 3, 0), p - 1)]
  {
    assert PaddedHeight(4) == 4;
    assert ToLimbs(1) == [1, 0, 0, 0];
    hide ToLimbs;
  }

  lemma {:induction false} CancellingBalance(p: int)
    requires LargePrime(p)
    ensures TimestampBus(p, CancellingMatrix(p), OneTimeRow(p))
  {
    CancellingSends(p);
    var sends, receives := TimestampSends(CancellingMatrix(p)), TimestampReceives(OneTimeRow(p));
    assert receives == [Entry(TimeTuple(3, 5, 0), 2)];
    hide CancellingMatrix, OneTimeRow, TimestampSends, TimestampReceives;
    forall t ensures Zero(p, Total(sends, t) - Total(receives, t)) {
      TotalFour(sends[0], sends[1], sends[2], sends[3], t);
      assert receives[1..] == [];
      MultipleIsZero(p, 0);
      MultipleIsZero(p, 1);
    }
  }

  lemma {:induction false} CancellingEval(p: int)
    requires LargePrime(p)
    ensures |Matrix(REPEATED)| == 4 && MemoryEval(p, CancellingMatrix(p)) && MemoryResidues(p, CancellingMatrix(p))
  {
    CancellingSends(p);
    MatrixAccepted(p, REPEATED);
    MatrixResidues(p, REPEATED);
    var before, after := Matrix(REPEATED), CancellingMatrix(p);
    hide Matrix, LargePrime, PaddedHeight, WhenEqLimbs;
    assert forall i :: 0 <= i < 3 ==> before[i] == after[i];
    assert TransitionAt(p, before, 0) && TransitionAt(p, before, 1) && TransitionAt(p, before, 2);
  }

  lemma {:induction false} CancellingRow(p: int, i: nat)
    requires i < 4
    ensures |Matrix(REPEATED)| == 4
    ensures var r := CancellingMatrix(p)[i];
            r.isPadding == 0 && WriterRow(r) && OpOf(r) == REPEATED[i] && r.address == ToLimbs(1)
  {
    CancellingSends(p);
    BuiltRecords(REPEATED, i);
    assert Matrix(REPEATED)[i] == BuiltRow(REPEATED, i) && BuiltRow(REPEATED, i).address == ToLimbs(1);
    hide Matrix, BuiltRow, ToLimbs, Value, Wrap, PaddedHeight;
  }

  lemma {:induction false} CancellingOps(p: int)
    ensures |Matrix(REPEATED)| == 4 && RealOps(CancellingMatrix(p)) == REPEATED && RealCount(CancellingMatrix(p)) == 4
    ensures WritersOnly(CancellingMatrix(p)) && forall i :: 0 <= i < 3 ==> SameAddressPair(CancellingMatrix(p), i)
  {
    CancellingRow(p, 0);
    CancellingRow(p, 1);
    CancellingRow(p, 2);
    CancellingRow(p, 3);
    var rows := CancellingMatrix(p);
    assert |rows| == 4;
    hide CancellingMatrix, Matrix, OpOf, WriterRow, ToLimbs, PaddedHeight;
    RealRowsOf(rows, 4);
  }

  lemma {:induction false} OneTimeRowOn(p: int)
    requires LargePrime(p)
    ensures TimeTableAccepted(p, OneTimeRow(p)) && |OneTimeRow(p)| == 1 && OneTimeRow(p)[0].vBits[24] == 0
  {
    TimestampLtAccepted(p, 3, 5, 2);
    TimestampLtBuiltResidues(p, 3, 5, 2);
    hide TimestampLtEval, TimestampLtResidues, LargePrime, NegatedInverse;
    TimestampLtSound(p, OneTimeRow(p)[0]);
  }

  lemma {:induction false} OneTimeAnswers(p: int)
    requires LargePrime(p)
    ensures |Matrix(REPEATED)| == 4 && TimeTableAccepted(p, OneTimeRow(p)) && AnswersAscend(CancellingMatrix(p), OneTimeRow(p))
  {
    CancellingSends(p);
    OneTimeRowOn(p);
    hide Matrix, CancellingMatrix, OneTimeRow, LargePrime, Answers, SameAddressPair, TimeTableAccepted;
  }

  lemma {:induction false} CancellingWraps(p: int)
    requires LargePrime(p)
    ensures |Matrix(REPEATED)| == 4 && !WrapIsHarmless(CancellingMatrix(p))
  {
    CancellingSends(p);
    CancellingOps(p);
    assert p > 4;
    hide Matrix, CancellingMatrix, TimestampSends, LargePrime, PaddedHeight, RealOps;
    assert SameAddressPair(CancellingMatrix(p), 1);
  }

  lemma {:induction false} SameTotals(a: seq<Entry<LtTuple>>, e: LtTuple, t: LtTuple)
    requires |a| > 0 && a[|a| - 1].multiplicity == 0
    ensures Total(a[|a| - 1 := Entry(e, 0)], t) == Total(a, t)
  {
    var front, last := a[..|a| - 1], a[|a| - 1];
    assert a == front + [last] && a[|a| - 1 := Entry(e, 0)] == front + [Entry(e, 0)];
    TotalAppend(front, [last], t);
    TotalAppend(front, [Entry(e, 0)], t);
    assert [last][1..] == [] && [Entry(e, 0)][1..] == [];
  }

  lemma {:induction false} CancellingAddresses(p: int, lt: seq<U32LtColumns>)
    requires LargePrime(p) && BuiltLt(p, AddressEntries(REPEATED, 3), lt)
    ensures |Matrix(REPEATED)| == 4 && AddressBus(p, CancellingMatrix(p), lt)
  {
    CancellingSends(p);
    AddressBusBalances(p, REPEATED, lt);
    var before, after := AddressSends(Matrix(REPEATED)), AddressSends(CancellingMatrix(p));
    assert before[3].multiplicity == 0 && after == before[3 := Entry(after[3].tuple, 0)];
    hide Matrix, CancellingMatrix, AddressSends, Zero, LargePrime, BuiltLt;
    forall t ensures Zero(p, Total(after, t) - Total(LtReceives(lt), t)) {
      SameTotals(before, after[3].tuple, t);
    }
  }

  /**
   * The premise on the last row is needed: nothing makes its selector boolean, and with the selector
   * -1 it cancels a comparison that would have shown the times out of order.
   */
  lemma {:induction false} LastSelectorMatters(p: int, lt: seq<U32LtColumns>)
    requires LargePrime(p) && BuiltLt(p, AddressEntries(REPEATED, 3), lt)
    ensures |Matrix(REPEATED)| == 4
    ensures var rows, times := CancellingMatrix(p), OneTimeRow(p);
            && MemoryEval(p, rows) && MemoryResidues(p, rows) && WritersOnly(rows)
            && LtTableAccepted(p, lt) && AddressBus(p, rows, lt)
            && TimeTableAccepted(p, times) && TimestampBus(p, rows, times) && AnswersAscend(rows, times)
            && !WrapIsHarmless(rows) && RealOps(rows) == REPEATED && !TimestampsIncrease(REPEATED)
  {
    assert EntriesAscend(AddressEntries(REPEATED, 3));
    assert !TimestampsIncrease(REPEATED) by {
      assert REPEATED[1].address == REPEATED[2].address && REPEATED[1].timestamp > REPEATED[2].timestamp;
    }
    hide *;
    CancellingSends(p);
    CancellingEval(p);
    CancellingOps(p);
    CancellingBalance(p);
    CancellingWraps(p);
    CancellingAddresses(p, lt);
    OneTimeAnswers(p);
    BuiltLtAccepted(p, AddressEntries(REPEATED, 3), lt);
  }
}
