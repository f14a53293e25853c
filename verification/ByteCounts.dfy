/** The bytes_lt bus: first differences counted from the log against those the comparison rows send. */
module ByteCounts {
  import opened Words
  import opened PrimeField
  import opened Vm
  import opened OfflineMemory
  import opened U32Ops
  import opened ByteTables
  import opened U32LessThan
  import opened MemoryAir
  import opened MemoryTrace
  import opened MemoryBuses
  import opened Bus

  type BytePair = (int, int)

  /** The most significant byte in which two words differ. */
  function TopDifference(x: Limbs, y: Limbs): (k: int)
    requires x != y
    ensures 0 <= k < 4 && x[k] != y[k] && forall j :: k < j < 4 ==> x[j] == y[j]
  {
    if x[3] != y[3] then 3 else if x[2] != y[2] then 2 else if x[1] != y[1] then 1 else
    assert x[0] != y[0] by { assert x == [x[0], x[1], x[2], x[3]] && y == [y[0], y[1], y[2], y[3]]; }
    0
  }

  function Ordered(a: int, b: int): BytePair {
    if a < b then (a, b) else (b, a)
  }

  /** The pair counted for a comparison of different words: smaller byte first. */
  function DifferencePair(x: Limbs, y: Limbs): BytePair
    requires x != y
  {
    var k := TopDifference(x, y);
    Ordered(x[k], y[k])
  }

  /** Whether a comparison counts for the pair t. */
  function CountsPair(e: (word, word, int), t: BytePair): bool {
    ToLimbs(e.0) != ToLimbs(e.1) && DifferencePair(ToLimbs(e.0), ToLimbs(e.1)) == t
  }

  /** How many comparisons count for the pair t. */
  function ByteCount(entries: seq<(word, word, int)>, t: BytePair): nat {
    if |entries| == 0 then 0
    else ByteCount(entries[..|entries| - 1], t) + if CountsPair(entries[|entries| - 1], t) then 1 else 0
  }

  function Found(counts: map<BytePair, nat>, t: BytePair): nat {
    if t in counts then counts[t] else 0
  }

  predicate IsPair(t: BytePair) {
    0 <= t.0 < t.1 < 256
  }

  /** The byte loop of the counting code: stop at the first difference from the top. */
  method FindDifference(x: Limbs, y: Limbs) returns (pair: BytePair)
    requires x != y
    ensures pair == DifferencePair(x, y)
  {
    pair := (0, 0);
    for b := 4 downto 0
      invariant forall j :: b <= j < 4 ==> x[j] == y[j]
    {
      if x[b] != y[b] {
        var lo, hi := if x[b] <= y[b] then x[b] else y[b], if x[b] <= y[b] then y[b] else x[b];
        pair := (lo, hi);
        return;
      }
    }
    assert false;
  }

  lemma {:induction false} DifferencePairIsPair(x: word, y: word)
    requires ToLimbs(x) != ToLimbs(y)
    ensures IsPair(DifferencePair(ToLimbs(x), ToLimbs(y)))
  {
    ToLimbsValue(x);
    ToLimbsValue(y);
    hide ToLimbs;
    var k := TopDifference(ToLimbs(x), ToLimbs(y));
    assert IsByte(ToLimbs(x)[k]) && IsByte(ToLimbs(y)[k]);
  }

  ghost predicate CountsMatch(counts: map<BytePair, nat>, entries: seq<(word, word, int)>) {
    && (forall t :: t in counts ==> IsPair(t))
    && forall t :: Found(counts, t) == ByteCount(entries, t)
  }

  lemma {:induction false} ByteCountNext(entries: seq<(word, word, int)>, e: (word, word, int), t: BytePair)
    ensures ByteCount(entries + [e], t) == ByteCount(entries, t) + if CountsPair(e, t) then 1 else 0
  {
    assert (entries + [e])[..|entries|] == entries;
  }

  /** Counting one comparison into the map. */
  method CountComparison(counts: map<BytePair, nat>, ghost entries: seq<(word, word, int)>, x: word, y: word)
    returns (after: map<BytePair, nat>)
    requires CountsMatch(counts, entries)
    ensures CountsMatch(after, entries + [(x, y, 1)])
  {
    hide ToLimbs, DifferencePair;
    after := counts;
    if ToLimbs(x) != ToLimbs(y) {
      var pair := FindDifference(ToLimbs(x), ToLimbs(y));
      DifferencePairIsPair(x, y);
      after := counts[pair := Found(counts, pair) + 1];
    }
    forall t ensures Found(after, t) == ByteCount(entries + [(x, y, 1)], t) {
      ByteCountNext(entries, (x, y, 1), t);
    }
  }

  /** Writes the counts into the multiplicity column, each at the row of its pair. */
  method SpreadCounts(counts: map<BytePair, nat>) returns (mults: array<int>)
    requires forall t :: t in counts ==> IsPair(t)
    ensures fresh(mults) && mults.Length == NUM_VALID_PAIRS
    ensures forall x, y :: 0 <= x < y < 256 ==>
      PairIndex(x, y) < NUM_VALID_PAIRS && mults[PairIndex(x, y)] == Found(counts, (x, y))
  {
    hide PairIndex;
    forall x, y | 0 <= x < y < 256 ensures PairIndex(x, y) < NUM_VALID_PAIRS {
      PairIndexBound(x, y);
    }
    mults := new int[NUM_VALID_PAIRS](_ => 0);
    var left := counts.Keys;
    while left != {}
      invariant left <= counts.Keys
      invariant forall x, y :: 0 <= x < y < 256 ==>
        mults[PairIndex(x, y)] == if (x, y) in left then 0 else Found(counts, (x, y))
    {
      var pair :| pair in left;
      var row := PairIndex(pair.0, pair.1);
      mults[row] := counts[pair];
      forall x, y | 0 <= x < y < 256 && PairIndex(x, y) == row ensures (x, y) == pair {
        PairIndexInjective(x, y, pair.0, pair.1);
      }
      left := left - {pair};
    }
  }

  /** `memory_lookup_entries`: the comparison entries of a log and the counts of first differences. */
  method MemoryLookupEntries(log: seq<MemoryOperation>)
    returns (u32Lt: seq<(word, word, int)>, timestampLt: seq<(word, word, int)>, bytesLt: array<int>)
    ensures var s := SortByKey(ToOps(log));
            u32Lt == AddressEntries(s, Pairs(s)) && timestampLt == TimestampEntries(s, Pairs(s))
    ensures fresh(bytesLt) && bytesLt.Length == NUM_VALID_PAIRS
    ensures forall x, y :: 0 <= x < y < 256 ==>
      PairIndex(x, y) < NUM_VALID_PAIRS && bytesLt[PairIndex(x, y)] == ByteCount(u32Lt, (x, y))
  {
    hide ToLimbs, DifferencePair;
    var s := SortByKey(ToOps(log));
    var counts: map<BytePair, nat> := map[];
    u32Lt, timestampLt := [], [];
    for i := 0 to Pairs(s)
      invariant u32Lt == AddressEntries(s, i) && timestampLt == TimestampEntries(s, i)
      invariant CountsMatch(counts, u32Lt)
    {
      if s[i].memoryType == s[i + 1].memoryType {
        counts := CountComparison(counts, u32Lt, s[i].address, s[i + 1].address);
        u32Lt := u32Lt + [(s[i].address, s[i + 1].address, 1)];
        if s[i].address == s[i + 1].address {
          timestampLt := timestampLt + [(s[i].timestamp, s[i + 1].timestamp, 1)];
        }
      }
    }
    bytesLt := SpreadCounts(counts);
  }

  // The bus.

  /** The four pairs a comparison row sends, each with its selector. */
  function PairSends(r: U32LtColumns): seq<Entry<BytePair>> {
    [Entry((r.x[0], r.y[0]), r.multLts[0]), Entry((r.x[1], r.y[1]), r.multLts[1]),
     Entry((r.x[2], r.y[2]), r.multLts[2]), Entry((r.x[3], r.y[3]), r.multLts[3])]
  }

  function AllByteSends(table: seq<U32LtColumns>): seq<Entry<BytePair>> {
    if |table| == 0 then [] else AllByteSends(table[..|table| - 1]) + PairSends(table[|table| - 1])
  }

  /** The rows of the comparison table, each with its multiplicity; padding rows have 0. */
  function ByteReceives(pairs: seq<BytePair>, mults: seq<int>): seq<Entry<BytePair>> {
    seq(|pairs|, k requires 0 <= k < |pairs| => Entry(pairs[k], if k < |mults| then mults[k] else 0))
  }

  /** A row with selectors on the first difference sends the pair of that byte once. */
  lemma {:induction false} RowTotal(r: U32LtColumns, t: BytePair)
    requires forall i :: 0 <= i < 4 ==> r.multLts[i] == SelectorOf(r.x, r.y, i)
    ensures Total(PairSends(r), t)
         == if r.x == r.y then 0
            else if (r.x[TopDifference(r.x, r.y)], r.y[TopDifference(r.x, r.y)]) == t then 1 else 0
  {
    TotalFour(PairSends(r)[0], PairSends(r)[1], PairSends(r)[2], PairSends(r)[3], t);
    hide Total;
    if r.x != r.y {
      var k := TopDifference(r.x, r.y);
      forall i | 0 <= i < 4 ensures r.multLts[i] == if i == k then 1 else 0 {
        if i < k {
          assert !SameAbove(r.x, r.y, i);
        }
      }
    }
  }

  /** When x <= y the counted pair is the pair sent. */
  lemma {:induction false} AscendingPair(x: word, y: word)
    requires x < y && ToLimbs(x) != ToLimbs(y)
    ensures var xb, yb := ToLimbs(x), ToLimbs(y);
            var k := TopDifference(xb, yb); DifferencePair(xb, yb) == (xb[k], yb[k])
  {
    var xb, yb := ToLimbs(x), ToLimbs(y);
    ToLimbsValue(x);
    ToLimbsValue(y);
    hide ToLimbs;
    var k := TopDifference(xb, yb);
    if xb[k] > yb[k] {
      TopDifferenceDecides(yb, xb, k);
    }
  }

  lemma {:induction false} TopDifferenceDecides(x: Limbs, y: Limbs, k: int)
    requires AreBytes(x) && AreBytes(y) && 0 <= k < 4 && x[k] < y[k] && forall j :: k < j < 4 ==> x[j] == y[j]
    ensures Value(x) < Value(y)
  {
  }

  lemma {:induction false} BuiltRowTotal(p: int, e: (word, word, int), t: BytePair)
    requires IsPrime(p) && p > 256 && e.0 <= e.1
    ensures Total(PairSends(U32LtRow(p, e.0, e.1, e.2)), t) == if CountsPair(e, t) then 1 else 0
  {
    var r := U32LtRow(p, e.0, e.1, e.2);
    assert forall i :: 0 <= i < 4 ==> r.multLts[i] == SelectorOf(r.x, r.y, i);
    assert e.0 == e.1 ==> r.x == r.y;
    hide ToLimbs, InverseOf, SelectorOf, PairSends, Total, Ordered;
    RowTotal(r, t);
    if r.x != r.y {
      AscendingPair(e.0, e.1);
    }
  }

  ghost predicate EntriesAscend(entries: seq<(word, word, int)>) {
    forall i :: 0 <= i < |entries| ==> entries[i].0 <= entries[i].1
  }

  lemma {:induction false} SendsNext(table: seq<U32LtColumns>, k: nat, t: BytePair)
    requires k < |table|
    ensures Total(AllByteSends(table[..k + 1]), t) == Total(AllByteSends(table[..k]), t) + Total(PairSends(table[k]), t)
  {
    hide PairSends;
    assert table[..k + 1][..k] == table[..k];
    TotalAppend(AllByteSends(table[..k]), PairSends(table[k]), t);
  }

  lemma {:induction false} CountNext(entries: seq<(word, word, int)>, k: nat, t: BytePair)
    requires k < |entries|
    ensures ByteCount(entries[..k + 1], t) == ByteCount(entries[..k], t) + if CountsPair(entries[k], t) then 1 else 0
  {
    hide CountsPair;
    assert entries[..k + 1] == entries[..k] + [entries[k]];
    ByteCountNext(entries[..k], entries[k], t);
  }

  lemma {:induction false} SendsCount(p: int, entries: seq<(word, word, int)>, table: seq<U32LtColumns>, k: nat, t: BytePair)
    requires IsPrime(p) && p > 256 && EntriesAscend(entries) && BuiltLt(p, entries, table) && k <= |entries|
    ensures k <= |table| && Total(AllByteSends(table[..k]), t) == ByteCount(entries[..k], t)
  {
    if k > 0 {
      SendsCount(p, entries, table, k - 1, t);
      assert table[k - 1] == U32LtRow(p, entries[k - 1].0, entries[k - 1].1, entries[k - 1].2);
      hide U32LtRow, PairSends, CountsPair, BuiltLt, Total, ByteCount, AllByteSends;
      BuiltRowTotal(p, entries[k - 1], t);
      SendsNext(table, k - 1, t);
      CountNext(entries, k - 1, t);
    }
  }

  lemma {:induction false} PaddingSendsNothing(table: seq<U32LtColumns>, n: nat, t: BytePair)
    requires n <= |table| && forall i :: n <= i < |table| ==> table[i] == U32_LT_PADDING
    ensures Total(AllByteSends(table), t) == Total(AllByteSends(table[..n]), t)
    decreases |table|
  {
    var m := |table| - 1;
    if n <= m {
      PaddingSendsNothing(table[..m], n, t);
      assert table[..m][..n] == table[..n];
      TotalAppend(AllByteSends(table[..m]), PairSends(table[m]), t);
      TotalOfAbsent(PairSends(U32_LT_PADDING), t);
    } else {
      assert table[..n] == table;
    }
  }

  /** What `PairTable` lays out. */
  ghost predicate IsPairTable(pairs: seq<BytePair>) {
    && |pairs| == NUM_PAIR_ROWS
    && (forall k :: 0 <= k < NUM_VALID_PAIRS ==> IsPairAt(pairs[k], k))
    && forall k :: NUM_VALID_PAIRS <= k < NUM_PAIR_ROWS ==> pairs[k] == (0, 0)
  }

  lemma {:induction false} PairAt(pairs: seq<BytePair>, i: nat)
    requires IsPairTable(pairs) && i < |pairs|
    ensures i < NUM_VALID_PAIRS ==> IsPair(pairs[i]) && PairIndex(pairs[i].0, pairs[i].1) == i
  {
    hide PairIndex;
    assert i < NUM_VALID_PAIRS ==> IsPairAt(pairs[i], i);
  }

  /** The table offers a pair x < y with the multiplicity of its row, and no other pair. */
  lemma {:induction false} ReceivesCount(pairs: seq<BytePair>, mults: seq<int>, t: BytePair)
    requires IsPairTable(pairs) && |mults| == NUM_VALID_PAIRS
    ensures IsPair(t) ==> PairIndex(t.0, t.1) < NUM_VALID_PAIRS
    ensures Total(ByteReceives(pairs, mults), t) == if IsPair(t) then mults[PairIndex(t.0, t.1)] else 0
  {
    var receives := ByteReceives(pairs, mults);
    assert |pairs| == NUM_PAIR_ROWS;
    hide PairIndex, Total, IsPairTable;
    if IsPair(t) {
      PairIndexBound(t.0, t.1);
      var k := PairIndex(t.0, t.1);
      PairAt(pairs, k);
      PairIndexInjective(pairs[k].0, pairs[k].1, t.0, t.1);
      forall i | 0 <= i < |receives| && i != k && receives[i].tuple == t ensures receives[i].multiplicity == 0 {
        PairAt(pairs, i);
      }
      TotalAtOne(receives, k, t);
    } else {
      forall i | 0 <= i < |receives| && receives[i].tuple == t ensures receives[i].multiplicity == 0 {
        PairAt(pairs, i);
      }
      TotalOfAbsent(receives, t);
    }
  }

  lemma {:induction false} OnlyPairsCount(entries: seq<(word, word, int)>, t: BytePair)
    requires !IsPair(t)
    ensures ByteCount(entries, t) == 0
  {
    if |entries| > 0 {
      OnlyPairsCount(entries[..|entries| - 1], t);
      var e := entries[|entries| - 1];
      if ToLimbs(e.0) != ToLimbs(e.1) {
        DifferencePairIsPair(e.0, e.1);
      }
    }
  }

  /**
   * The bytes_lt bus balances, tuple by tuple, between the comparison rows of ascending entries and
   * the comparison table filled with the counts of the same entries.
   */
  lemma {:induction false} ByteBusBalances(p: int, entries: seq<(word, word, int)>, table: seq<U32LtColumns>, pairs: seq<BytePair>,
                        mults: seq<int>)
    requires IsPrime(p) && p > 256 && EntriesAscend(entries) && BuiltLt(p, entries, table)
    requires IsPairTable(pairs) && |mults| == NUM_VALID_PAIRS
    requires forall x, y :: 0 <= x < y < 256 ==>
      PairIndex(x, y) < NUM_VALID_PAIRS && mults[PairIndex(x, y)] == ByteCount(entries, (x, y))
    ensures Balanced(p, AllByteSends(table), ByteReceives(pairs, mults))
  {
    hide PairIndex, Total, ByteCount, BuiltLt, AllByteSends, ByteReceives, IsPairTable;
    assert |entries| <= |table| && forall i :: |entries| <= i < |table| ==> table[i] == U32_LT_PADDING by {
      BuiltLtPads(p, entries, table);
    }
    MultipleIsZero(p, 0);
    forall t ensures Zero(p, Total(AllByteSends(table), t) - Total(ByteReceives(pairs, mults), t)) {
      SendsCount(p, entries, table, |entries|, t);
      assert entries[..|entries|] == entries;
      PaddingSendsNothing(table, |entries|, t);
      ReceivesCount(pairs, mults, t);
      if !IsPair(t) {
        OnlyPairsCount(entries, t);
      }
    }
  }

  // What a balanced bytes_lt bus says of the comparison rows.

  /** The bytes_lt bus between a comparison table and the preprocessed pairs, whatever their multiplicities. */
  ghost predicate PairBus(p: int, table: seq<U32LtColumns>, pairs: seq<BytePair>, mults: seq<int>)
    requires p > 0
  {
    IsPairTable(pairs) && 4 * |table| < p && Balanced(p, AllByteSends(table), ByteReceives(pairs, mults))
  }

  lemma {:induction false} PairSelectors(p: int, table: seq<U32LtColumns>)
    requires LargePrime(p) && LtConstraints(p, table)
    ensures Selectors(AllByteSends(table)) && |AllByteSends(table)| == 4 * |table|
  {
    if |table| > 0 {
      var last := table[|table| - 1];
      PairSelectors(p, table[..|table| - 1]);
      hide EqualByte, FirstDifference;
      BoolResidue(p, last.multLts[0]);
      BoolResidue(p, last.multLts[1]);
      BoolResidue(p, last.multLts[2]);
      BoolResidue(p, last.multLts[3]);
    }
  }

  lemma {:induction false} PairIsLive(table: seq<U32LtColumns>, k: nat, i: nat)
    requires k < |table| && i < 4 && table[k].multLts[i] == 1
    ensures (table[k].x[i], table[k].y[i]) in Live(AllByteSends(table))
  {
    var n := |table| - 1;
    LiveAppend(AllByteSends(table[..n]), PairSends(table[n]));
    if k < n {
      PairIsLive(table[..n], k, i);
    } else {
      LiveHas(PairSends(table[n]), i);
    }
  }

  lemma {:induction false} OfferedIsPair(pairs: seq<BytePair>, k: nat)
    requires IsPairTable(pairs) && k < |pairs|
    ensures InLessThanTable(pairs[k].0, pairs[k].1)
  {
    PairAt(pairs, k);
    hide PairIndex;
  }

  /** The table offers exactly the pairs of bytes x < y, and the pair of zeroes. */
  lemma {:induction false} PairTableExact(pairs: seq<BytePair>, x: int, y: int)
    requires IsPairTable(pairs)
    ensures (x, y) in pairs <==> InLessThanTable(x, y)
    ensures InLessThanTable(x, y) <==> 0 <= x < y < 256 || x == y == 0
  {
    if 0 <= x < y < 256 {
      PairIndexBound(x, y);
      var k := PairIndex(x, y);
      assert k < NUM_VALID_PAIRS < |pairs|;
      PairAt(pairs, k);
      hide PairIndex, IsPairTable;
      PairIndexInjective(pairs[k].0, pairs[k].1, x, y);
    } else if x == y == 0 {
      assert pairs[NUM_VALID_PAIRS] == (0, 0);
    }
    hide PairIndex, IsPairTable;
    if (x, y) in pairs {
      var k: nat :| k < |pairs| && pairs[k] == (x, y);
      OfferedIsPair(pairs, k);
    }
  }

  /** The lookups of an accepted comparison table hold because its bus balances. */
  lemma {:induction false} PairLookupsHold(p: int, table: seq<U32LtColumns>, pairs: seq<BytePair>, mults: seq<int>)
    requires LargePrime(p) && LtConstraints(p, table) && PairBus(p, table, pairs, mults)
    ensures LtTableAccepted(p, table)
  {
    PairSelectors(p, table);
    var sends, receives := AllByteSends(table), ByteReceives(pairs, mults);
    hide U32LtEval, U32LtResidues, Balanced, AllByteSends, IsPairTable, InLessThanTable;
    forall k, i: nat | 0 <= k < |table| && i < 4 && table[k].multLts[i] == 1
      ensures InLessThanTable(table[k].x[i], table[k].y[i])
    {
      PairIsLive(table, k, i);
      LiveBound(sends);
      SentIsReceived(p, sends, receives, (table[k].x[i], table[k].y[i]));
      var j :| 0 <= j < |receives| && receives[j].tuple == (table[k].x[i], table[k].y[i]);
      OfferedIsPair(pairs, j);
    }
  }

  lemma {:induction false} BuiltLtPads(p: int, entries: seq<(word, word, int)>, table: seq<U32LtColumns>)
    requires IsPrime(p) && p > 256 && BuiltLt(p, entries, table)
    ensures |entries| <= |table| && forall i :: |entries| <= i < |table| ==> table[i] == U32_LT_PADDING
  {
  }
}
