/** Offline memory checking: replaying a log in time order and checking neighbours in address order. */
module OfflineMemory {
  import opened Words
  import opened Vm

  /** One access, with the value found in the cell and the value left there. */
  datatype MemoryOp = MemoryOp(memoryType: MemoryType, address: word, timestamp: word, read: word, write: word)

  function ToOp(o: MemoryOperation): MemoryOp {
    match o
    case Read(ty, a, t, v) => MemoryOp(ty, a, t, v, v)
    case Write(ty, a, t, oldValue, newValue) => MemoryOp(ty, a, t, oldValue, newValue)
  }

  function ToOps(log: seq<MemoryOperation>): (ops: seq<MemoryOp>)
    ensures |ops| == |log|
  {
    seq(|log|, i requires 0 <= i < |log| => ToOp(log[i]))
  }

  type Cell = (MemoryType, word)

  function CellOf(o: MemoryOp): Cell {
    (o.memoryType, o.address)
  }

  /** The content of a cell after the first n operations of a log, on a zeroed memory. */
  function CellAt(log: seq<MemoryOp>, n: nat, c: Cell): word
    requires n <= |log|
  {
    if n == 0 then 0
    else if CellOf(log[n - 1]) == c then log[n - 1].write
    else CellAt(log, n - 1, c)
  }

  /** Every operation finds in its cell what the operations before it left there. */
  ghost predicate Replays(log: seq<MemoryOp>) {
    forall i :: 0 <= i < |log| ==> log[i].read == CellAt(log, i, CellOf(log[i]))
  }

  ghost predicate TimeOrdered(log: seq<MemoryOp>) {
    forall i, j :: 0 <= i < j < |log| ==> log[i].timestamp < log[j].timestamp
  }

  function TypeNumber(ty: MemoryType): int {
    if ty == Register then 0 else 1
  }

  /** The order of the sort key (memory_type, address, timestamp). */
  predicate KeyLess(a: MemoryOp, b: MemoryOp) {
    || TypeNumber(a.memoryType) < TypeNumber(b.memoryType)
    || (a.memoryType == b.memoryType && a.address < b.address)
    || (a.memoryType == b.memoryType && a.address == b.address && a.timestamp < b.timestamp)
  }

  ghost predicate KeyOrdered(s: seq<MemoryOp>) {
    forall i, j :: 0 <= i < j < |s| ==> KeyLess(s[i], s[j])
  }

  /** What the memory table checks between neighbouring rows. */
  ghost predicate Adjacent(s: seq<MemoryOp>) {
    && (|s| > 0 ==> s[0].read == 0)
    && forall i :: 0 <= i < |s| - 1 ==>
         s[i + 1].read == if CellOf(s[i]) == CellOf(s[i + 1]) then s[i].write else 0
  }

  /** q is the last access to the cell of o before o. */
  ghost predicate Precedes(ops: set<MemoryOp>, q: MemoryOp, o: MemoryOp) {
    && q in ops && CellOf(q) == CellOf(o) && q.timestamp < o.timestamp
    && forall x :: x in ops && CellOf(x) == CellOf(o) && x.timestamp < o.timestamp ==> x.timestamp <= q.timestamp
  }

  ghost predicate FirstAccess(ops: set<MemoryOp>, o: MemoryOp) {
    forall x :: x in ops && CellOf(x) == CellOf(o) ==> o.timestamp <= x.timestamp
  }

  /** Consistency without any order: each access reads what its predecessor on the cell wrote, or 0. */
  ghost predicate Linked(ops: set<MemoryOp>) {
    && (forall o :: o in ops && FirstAccess(ops, o) ==> o.read == 0)
    && (forall q, o :: o in ops && Precedes(ops, q, o) ==> o.read == q.write)
  }

  ghost function Elements(s: seq<MemoryOp>): set<MemoryOp> {
    set o | o in s
  }

  /** The index of the last access to c among the first n, or -1. */
  function LastIndex(log: seq<MemoryOp>, n: nat, c: Cell): (k: int)
    requires n <= |log|
    ensures -1 <= k < n
    ensures k >= 0 ==> CellOf(log[k]) == c
    ensures forall j :: k < j < n ==> CellOf(log[j]) != c
    ensures CellAt(log, n, c) == if k >= 0 then log[k].write else 0
  {
    if n == 0 then -1
    else if CellOf(log[n - 1]) == c then n - 1
    else LastIndex(log, n - 1, c)
  }

  lemma {:induction false} TimeReflected(log: seq<MemoryOp>, i: nat, j: nat)
    requires TimeOrdered(log) && i < |log| && j < |log|
    ensures log[i].timestamp < log[j].timestamp <==> i < j
    ensures log[i].timestamp == log[j].timestamp <==> i == j
  {
  }

  lemma {:induction false} NoPredecessorInTime(log: seq<MemoryOp>, i: nat)
    requires TimeOrdered(log) && i < |log| && LastIndex(log, i, CellOf(log[i])) < 0
    ensures FirstAccess(Elements(log), log[i])
  {
    forall x | x in Elements(log) && CellOf(x) == CellOf(log[i])
      ensures log[i].timestamp <= x.timestamp
    {
      var j :| 0 <= j < |log| && log[j] == x;
      TimeReflected(log, j, i);
    }
  }

  /** In time order, the last access to the cell before index i is the predecessor of the i-th. */
  lemma {:induction false} PredecessorInTime(log: seq<MemoryOp>, i: nat, k: nat)
    requires TimeOrdered(log) && i < |log| && k == LastIndex(log, i, CellOf(log[i]))
    ensures Precedes(Elements(log), log[k], log[i])
  {
    forall x | x in Elements(log) && CellOf(x) == CellOf(log[i]) && x.timestamp < log[i].timestamp
      ensures x.timestamp <= log[k].timestamp
    {
      var j :| 0 <= j < |log| && log[j] == x;
      TimeReflected(log, j, i);
      TimeReflected(log, k, j);
    }
    TimeReflected(log, k, i);
  }

  lemma {:induction false} UniquePredecessor(log: seq<MemoryOp>, q: MemoryOp, r: MemoryOp, o: MemoryOp)
    requires TimeOrdered(log) && Precedes(Elements(log), q, o) && Precedes(Elements(log), r, o)
    ensures q == r
  {
    var i :| 0 <= i < |log| && log[i] == q;
    var j :| 0 <= j < |log| && log[j] == r;
    TimeReflected(log, i, j);
  }

  lemma {:induction false} ReplayIffLinked(log: seq<MemoryOp>)
    requires TimeOrdered(log)
    ensures Replays(log) <==> Linked(Elements(log))
  {
    var ops := Elements(log);
    if Replays(log) {
      ReplayLinks(log);
    }
    if Linked(ops) {
      forall i | 0 <= i < |log|
        ensures log[i].read == CellAt(log, i, CellOf(log[i]))
      {
        var k := LastIndex(log, i, CellOf(log[i]));
        if k < 0 {
          NoPredecessorInTime(log, i);
        } else {
          PredecessorInTime(log, i, k);
        }
      }
    }
  }

  lemma {:induction false} ReplayLinks(log: seq<MemoryOp>)
    requires TimeOrdered(log) && Replays(log)
    ensures Linked(Elements(log))
  {
    var ops := Elements(log);
    forall o | o in ops && FirstAccess(ops, o)
      ensures o.read == 0
    {
      var i :| 0 <= i < |log| && log[i] == o;
      var k := LastIndex(log, i, CellOf(o));
      if k >= 0 {
        PredecessorInTime(log, i, k);
      }
    }
    forall q, o | o in ops && Precedes(ops, q, o)
      ensures o.read == q.write
    {
      var i :| 0 <= i < |log| && log[i] == o;
      var k := LastIndex(log, i, CellOf(o));
      if k < 0 {
        NoPredecessorInTime(log, i);
      } else {
        PredecessorInTime(log, i, k);
        UniquePredecessor(log, q, log[k], o);
      }
    }
  }

  lemma {:induction false} KeyReflected(s: seq<MemoryOp>, i: nat, j: nat)
    requires KeyOrdered(s) && i < |s| && j < |s|
    ensures KeyLess(s[i], s[j]) <==> i < j
    ensures s[i] == s[j] <==> i == j
  {
  }

  /** In key order, the access before an access is its predecessor or belongs to another cell. */
  lemma {:induction false} PredecessorInKey(s: seq<MemoryOp>, i: nat)
    requires KeyOrdered(s) && i < |s|
    ensures i == 0 || CellOf(s[i - 1]) != CellOf(s[i]) ==> FirstAccess(Elements(s), s[i])
    ensures i > 0 && CellOf(s[i - 1]) == CellOf(s[i]) ==> Precedes(Elements(s), s[i - 1], s[i])
  {
    if i > 0 {
      KeyReflected(s, i - 1, i);
    }
    forall x | x in Elements(s) && CellOf(x) == CellOf(s[i])
      ensures i == 0 || CellOf(s[i - 1]) != CellOf(s[i]) ==> s[i].timestamp <= x.timestamp
      ensures i > 0 && CellOf(s[i - 1]) == CellOf(s[i]) && x.timestamp < s[i].timestamp ==> x.timestamp <= s[i - 1].timestamp
    {
      var j :| 0 <= j < |s| && s[j] == x;
      KeyReflected(s, j, i);
      if i > 0 {
        KeyReflected(s, i - 1, j);
      }
    }
  }

  /** The two neighbouring rows before row i agree with the predecessor of its access. */
  lemma {:induction false} PredecessorIsNeighbour(s: seq<MemoryOp>, q: MemoryOp, i: nat)
    requires KeyOrdered(s) && i < |s| && Precedes(Elements(s), q, s[i])
    ensures i > 0 && q == s[i - 1]
  {
    var j :| 0 <= j < |s| && s[j] == q;
    KeyReflected(s, j, i);
    PredecessorInKey(s, i);
    KeyReflected(s, j, i - 1);
  }

  lemma {:induction false} AdjacentLinks(s: seq<MemoryOp>)
    requires KeyOrdered(s) && Adjacent(s)
    ensures Linked(Elements(s))
  {
    var ops := Elements(s);
    forall o | o in ops && FirstAccess(ops, o)
      ensures o.read == 0
    {
      var i :| 0 <= i < |s| && s[i] == o;
      PredecessorInKey(s, i);
      AdjacentAt(s, i);
    }
    forall q, o | o in ops && Precedes(ops, q, o)
      ensures o.read == q.write
    {
      var i :| 0 <= i < |s| && s[i] == o;
      PredecessorIsNeighbour(s, q, i);
      AdjacentAt(s, i);
    }
  }

  lemma {:induction false} AdjacentAt(s: seq<MemoryOp>, i: nat)
    requires Adjacent(s) && i < |s|
    ensures s[i].read == if i > 0 && CellOf(s[i - 1]) == CellOf(s[i]) then s[i - 1].write else 0
  {
    if i > 0 {
      var k := i - 1;
      assert s[k + 1].read == if CellOf(s[k]) == CellOf(s[k + 1]) then s[k].write else 0;
    }
  }

  lemma {:induction false} AdjacentIffLinked(s: seq<MemoryOp>)
    requires KeyOrdered(s)
    ensures Adjacent(s) <==> Linked(Elements(s))
  {
    if Adjacent(s) {
      AdjacentLinks(s);
    }
    if Linked(Elements(s)) {
      forall i | 0 <= i < |s|
        ensures s[i].read == if i > 0 && CellOf(s[i - 1]) == CellOf(s[i]) then s[i - 1].write else 0
      {
        PredecessorInKey(s, i);
      }
    }
  }

  lemma {:induction false} SameElements(s: seq<MemoryOp>, t: seq<MemoryOp>)
    requires multiset(s) == multiset(t)
    ensures Elements(s) == Elements(t)
  {
    forall o ensures o in s <==> o in t {
      assert o in s <==> o in multiset(s);
      assert o in t <==> o in multiset(t);
    }
  }

  /**
   * Offline memory checking. Two arrangements of the same operations, one by time and one by key:
   * the neighbour checks of the second hold exactly when the first replays on a zeroed memory.
   */
  lemma {:induction false} OfflineMemoryChecking(byTime: seq<MemoryOp>, byKey: seq<MemoryOp>)
    requires multiset(byTime) == multiset(byKey)
    requires TimeOrdered(byTime) && KeyOrdered(byKey)
    ensures Adjacent(byKey) <==> Replays(byTime)
  {
    SameElements(byTime, byKey);
    ReplayIffLinked(byTime);
    AdjacentIffLinked(byKey);
  }
}
