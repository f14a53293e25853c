/** Global buses: tuples sent and received with multiplicities in the field. */
module Bus {
  import opened PrimeField

  datatype Entry<T> = Entry(tuple: T, multiplicity: int)

  function Total<T(==)>(entries: seq<Entry<T>>, t: T): int {
    if |entries| == 0 then 0
    else (if entries[0].tuple == t then entries[0].multiplicity else 0) + Total(entries[1..], t)
  }

  /** What the lookup argument establishes: for every tuple, sends and receives cancel in the field. */
  ghost predicate Balanced<T(!new)>(p: int, sends: seq<Entry<T>>, receives: seq<Entry<T>>)
    requires p > 0
  {
    forall t :: Zero(p, Total(sends, t) - Total(receives, t))
  }

  lemma {:induction false} TotalsBalance<T(!new)>(p: int, sends: seq<Entry<T>>, receives: seq<Entry<T>>)
    requires p > 0 && forall t :: Total(sends, t) == Total(receives, t)
    ensures Balanced(p, sends, receives)
  {
    MultipleIsZero(p, 0);
    hide Total;
  }

  ghost predicate Selectors<T>(entries: seq<Entry<T>>) {
    forall i :: 0 <= i < |entries| ==> entries[i].multiplicity == 0 || entries[i].multiplicity == 1
  }

  /** The tuples whose selector is on. */
  function Live<T>(entries: seq<Entry<T>>): seq<T> {
    if |entries| == 0 then []
    else (if entries[0].multiplicity == 1 then [entries[0].tuple] else []) + Live(entries[1..])
  }

  lemma {:induction false} TotalAppend<T>(a: seq<Entry<T>>, b: seq<Entry<T>>, t: T)
    ensures Total(a + b, t) == Total(a, t) + Total(b, t)
  {
    if |a| == 0 {
      assert a + b == b;
    } else {
      TotalAppend(a[1..], b, t);
      assert (a + b)[1..] == a[1..] + b;
    }
  }

  lemma {:induction false} LiveAppend<T>(a: seq<Entry<T>>, b: seq<Entry<T>>)
    ensures Live(a + b) == Live(a) + Live(b)
  {
    if |a| == 0 {
      assert a + b == b;
    } else {
      LiveAppend(a[1..], b);
      assert (a + b)[1..] == a[1..] + b;
      var first := if a[0].multiplicity == 1 then [a[0].tuple] else [];
      assert Live(a + b) == first + Live((a + b)[1..]);
      hide Live;
      assert first + (Live(a[1..]) + Live(b)) == (first + Live(a[1..])) + Live(b);
    }
  }

  /** With selectors, the total of a tuple counts its live occurrences. */
  lemma {:induction false} TotalCounts<T>(entries: seq<Entry<T>>, t: T)
    requires Selectors(entries)
    ensures Total(entries, t) == multiset(Live(entries))[t] <= |Live(entries)|
  {
    if |entries| > 0 {
      TotalCounts(entries[1..], t);
      CountAppend(if entries[0].multiplicity == 1 then [entries[0].tuple] else [], Live(entries[1..]), t);
    }
  }

  lemma {:induction false} CountAppend<T>(a: seq<T>, b: seq<T>, t: T)
    ensures multiset(a + b)[t] == multiset(a)[t] + multiset(b)[t]
  {
  }

  /** A balanced bus of selectors, fewer than p of them live, moves equal multisets of tuples. */
  lemma {:induction false} BalancedIffEqual<T(!new)>(p: int, sends: seq<Entry<T>>, receives: seq<Entry<T>>)
    requires p > 0 && Selectors(sends) && Selectors(receives)
    requires |Live(sends)| < p && |Live(receives)| < p
    ensures Balanced(p, sends, receives) <==> multiset(Live(sends)) == multiset(Live(receives))
  {
    forall t
      ensures Zero(p, Total(sends, t) - Total(receives, t))
         <==> multiset(Live(sends))[t] == multiset(Live(receives))[t]
    {
      TotalCounts(sends, t);
      TotalCounts(receives, t);
      if Zero(p, Total(sends, t) - Total(receives, t)) {
        Lift(p, Total(sends, t) - Total(receives, t));
      } else if Total(sends, t) == Total(receives, t) {
        MultipleIsZero(p, 0);
      }
    }
  }

  lemma {:induction false} TotalOfAbsent<T>(entries: seq<Entry<T>>, t: T)
    requires forall i :: 0 <= i < |entries| ==> entries[i].tuple == t ==> entries[i].multiplicity == 0
    ensures Total(entries, t) == 0
  {
    if |entries| > 0 {
      TotalOfAbsent(entries[1..], t);
    }
  }

  /** A tuple sent a number of times that is not a multiple of p is offered by some receive. */
  lemma {:induction false} TotalIsReceived<T>(p: int, receives: seq<Entry<T>>, t: T, total: int)
    requires 0 < total < p && Zero(p, total - Total(receives, t))
    ensures exists i :: 0 <= i < |receives| && receives[i].tuple == t && receives[i].multiplicity != 0
  {
    if Total(receives, t) == 0 {
      Lift(p, total);
    }
    if forall i :: 0 <= i < |receives| ==> receives[i].tuple == t ==> receives[i].multiplicity == 0 {
      TotalOfAbsent(receives, t);
    }
  }

  /** A live tuple of a balanced bus is offered by some receive, whatever its multiplicity. */
  lemma {:induction false} SentIsReceived<T(!new)>(p: int, sends: seq<Entry<T>>, receives: seq<Entry<T>>, t: T)
    requires p > 0 && Selectors(sends) && |Live(sends)| < p && Balanced(p, sends, receives)
    requires t in Live(sends)
    ensures exists i :: 0 <= i < |receives| && receives[i].tuple == t && receives[i].multiplicity != 0
  {
    TotalCounts(sends, t);
    assert t in multiset(Live(sends));
    assert Zero(p, Total(sends, t) - Total(receives, t));
    TotalIsReceived(p, receives, t, Total(sends, t));
  }

  /** Buses of selectors that move the same tuples balance in every field. */
  lemma {:induction false} EqualBalances<T(!new)>(p: int, sends: seq<Entry<T>>, receives: seq<Entry<T>>)
    requires p > 0 && Selectors(sends) && Selectors(receives) && multiset(Live(sends)) == multiset(Live(receives))
    ensures Balanced(p, sends, receives)
  {
    MultipleIsZero(p, 0);
    forall t ensures Zero(p, Total(sends, t) - Total(receives, t)) {
      TotalCounts(sends, t);
      TotalCounts(receives, t);
    }
  }

  lemma {:induction false} NoneLive<T>(entries: seq<Entry<T>>)
    requires forall i :: 0 <= i < |entries| ==> entries[i].multiplicity == 0
    ensures Live(entries) == []
  {
    if |entries| > 0 {
      NoneLive(entries[1..]);
    }
  }

  /** Entries beyond the first m are off. */
  lemma {:induction false} LivePrefix<T>(entries: seq<Entry<T>>, m: nat)
    requires m <= |entries| && forall i :: m <= i < |entries| ==> entries[i].multiplicity == 0
    ensures Live(entries) == Live(entries[..m])
  {
    assert entries == entries[..m] + entries[m..];
    LiveAppend(entries[..m], entries[m..]);
    NoneLive(entries[m..]);
  }

  lemma {:induction false} LiveNext<T>(entries: seq<Entry<T>>, k: nat)
    requires k < |entries|
    ensures Live(entries[..k + 1])
         == Live(entries[..k]) + if entries[k].multiplicity == 1 then [entries[k].tuple] else []
  {
    assert entries[..k + 1] == entries[..k] + [entries[k]];
    LiveAppend(entries[..k], [entries[k]]);
    assert [entries[k]][1..] == [];
  }

  lemma {:induction false} LiveBound<T>(entries: seq<Entry<T>>)
    ensures |Live(entries)| <= |entries|
  {
    if |entries| > 0 {
      LiveBound(entries[1..]);
    }
  }

  lemma {:induction false} LiveHas<T>(entries: seq<Entry<T>>, i: nat)
    requires i < |entries| && entries[i].multiplicity == 1
    ensures entries[i].tuple in Live(entries)
  {
    if i > 0 {
      LiveHas(entries[1..], i - 1);
    }
  }

  /** Four entries in a row. */
  lemma {:induction false} TotalFour<T>(e0: Entry<T>, e1: Entry<T>, e2: Entry<T>, e3: Entry<T>, t: T)
    ensures Total([e0, e1, e2, e3], t)
         == (if e0.tuple == t then e0.multiplicity else 0) + (if e1.tuple == t then e1.multiplicity else 0)
          + (if e2.tuple == t then e2.multiplicity else 0) + (if e3.tuple == t then e3.multiplicity else 0)
  {
    assert [e0, e1, e2, e3][1..] == [e1, e2, e3] && [e1, e2, e3][1..] == [e2, e3] && [e2, e3][1..] == [e3];
    assert [e3][1..] == [] && Total([e3], t) == if e3.tuple == t then e3.multiplicity else 0;
    assert Total([e2, e3], t) == (if e2.tuple == t then e2.multiplicity else 0) + Total([e3], t);
    assert Total([e1, e2, e3], t) == (if e1.tuple == t then e1.multiplicity else 0) + Total([e2, e3], t);
  }

  /** A tuple that only entry k carries. */
  lemma {:induction false} TotalAtOne<T>(entries: seq<Entry<T>>, k: nat, t: T)
    requires k < |entries| && entries[k].tuple == t
    requires forall i :: 0 <= i < |entries| && i != k && entries[i].tuple == t ==> entries[i].multiplicity == 0
    ensures Total(entries, t) == entries[k].multiplicity
  {
    assert entries == entries[..k] + ([entries[k]] + entries[k + 1..]);
    TotalAppend(entries[..k], [entries[k]] + entries[k + 1..], t);
    TotalOfAbsent(entries[..k], t);
    TotalOfAbsent(entries[k + 1..], t);
    assert ([entries[k]] + entries[k + 1..])[1..] == entries[k + 1..];
  }

  // Lookup tables: row k is offered as often as index k is asked for.

  function IndexSends<T>(table: seq<T>, indices: seq<nat>): seq<Entry<T>>
    requires forall i :: 0 <= i < |indices| ==> indices[i] < |table|
  {
    seq(|indices|, i requires 0 <= i < |indices| => Entry(table[indices[i]], 1))
  }

  function TableReceives<T>(table: seq<T>, counts: seq<int>): seq<Entry<T>>
    requires |counts| == |table|
  {
    seq(|table|, k requires 0 <= k < |table| => Entry(table[k], counts[k]))
  }

  /** Raising the count of one row raises the total of its tuple. */
  lemma {:induction false} RaisedCount<T>(table: seq<T>, counts: seq<int>, k: nat, t: T)
    requires |counts| == |table| && k < |table|
    ensures Total(TableReceives(table, counts[k := counts[k] + 1]), t)
         == Total(TableReceives(table, counts), t) + if table[k] == t then 1 else 0
  {
    var before, after := TableReceives(table, counts), TableReceives(table, counts[k := counts[k] + 1]);
    assert before == before[..k] + ([before[k]] + before[k + 1..]);
    assert after == before[..k] + ([after[k]] + before[k + 1..]);
    TotalAppend(before[..k], [before[k]] + before[k + 1..], t);
    TotalAppend(before[..k], [after[k]] + before[k + 1..], t);
    assert ([before[k]] + before[k + 1..])[1..] == before[k + 1..];
    assert ([after[k]] + before[k + 1..])[1..] == before[k + 1..];
  }

  function Counts(indices: seq<nat>, n: nat): seq<int> {
    seq(n, k => multiset(indices)[k])
  }

  lemma {:induction false} TableTotals<T>(table: seq<T>, indices: seq<nat>, t: T)
    requires forall i :: 0 <= i < |indices| ==> indices[i] < |table|
    ensures Total(TableReceives(table, Counts(indices, |table|)), t) == Total(IndexSends(table, indices), t)
  {
    var n := |indices|;
    if n == 0 {
      TotalOfAbsent(TableReceives(table, Counts(indices, |table|)), t);
    } else {
      var before, k := indices[..n - 1], indices[n - 1];
      TableTotals(table, before, t);
      assert indices == before + [k];
      assert Counts(indices, |table|) == Counts(before, |table|)[k := Counts(before, |table|)[k] + 1];
      RaisedCount(table, Counts(before, |table|), k, t);
      assert IndexSends(table, indices) == IndexSends(table, before) + [Entry(table[k], 1)];
      TotalAppend(IndexSends(table, before), [Entry(table[k], 1)], t);
      assert [Entry(table[k], 1)][1..] == [];
    }
  }

  /** A lookup bus balances when the table counts how often each of its rows is asked for. */
  lemma {:induction false} TableBalances<T(!new)>(p: int, table: seq<T>, indices: seq<nat>)
    requires p > 0 && forall i :: 0 <= i < |indices| ==> indices[i] < |table|
    ensures Balanced(p, IndexSends(table, indices), TableReceives(table, Counts(indices, |table|)))
  {
    MultipleIsZero(p, 0);
    forall t ensures Zero(p, Total(IndexSends(table, indices), t) - Total(TableReceives(table, Counts(indices, |table|)), t)) {
      TableTotals(table, indices, t);
    }
  }
}
