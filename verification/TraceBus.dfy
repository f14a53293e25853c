/** The trace bus: instruction rows pass (pc, timestamp) on, and Boundaries supplies the two ends. */
module TraceBus {
  import opened Words
  import opened PrimeField
  import opened Bus

  /** A tuple of the trace bus: four pc limbs and a timestamp, all residues. */
  datatype Point = Point(pc: Limbs, ts: int)

  /** The trace-bus side of an instruction row: received, sent, and the selector gating both. */
  datatype Hop = Hop(before: Point, after: Point, isDummy: int)

  const ORIGIN := Point([0, 0, 0, 0], 0)

  /** A row sends its timestamp advanced by the one to three ticks of its instruction. */
  ghost predicate Advances(p: int, h: Hop)
    requires p > 0
  {
    Residue(p, h.before.ts) && exists k :: 1 <= k <= 3 && h.after.ts == Later(p, h.before.ts, k)
  }

  function Later(p: int, ts: int, k: int): int
    requires p > 0
  {
    Reduce(p, ts + k)
  }

  ghost predicate AllAdvance(p: int, hops: seq<Hop>)
    requires p > 0
  {
    forall i :: 0 <= i < |hops| ==> Advances(p, hops[i])
  }

  function Befores(hops: seq<Hop>): seq<Point> {
    seq(|hops|, i requires 0 <= i < |hops| => hops[i].before)
  }

  function Afters(hops: seq<Hop>): seq<Point> {
    seq(|hops|, i requires 0 <= i < |hops| => hops[i].after)
  }

  /** Each hop starts where the one before it ended. */
  predicate Chain(hops: seq<Hop>, start: Point, end: Point) {
    if |hops| == 0 then start == end
    else hops[0].before == start && Chain(hops[1..], hops[0].after, end)
  }

  // Existence of the chain.

  function TimeSum(points: seq<Point>): int {
    if |points| == 0 then 0 else points[0].ts + TimeSum(points[1..])
  }

  lemma {:induction false} TimeSumAppend(a: seq<Point>, b: seq<Point>)
    ensures TimeSum(a + b) == TimeSum(a) + TimeSum(b)
  {
    if |a| == 0 {
      assert a + b == b;
    } else {
      TimeSumAppend(a[1..], b);
      assert (a + b)[1..] == a[1..] + b;
    }
  }

  lemma {:induction false} WithoutIndex<T>(s: seq<T>, i: nat)
    requires i < |s|
    ensures s == s[..i] + [s[i]] + s[i + 1..]
    ensures multiset(s) == multiset{s[i]} + multiset(s[..i] + s[i + 1..])
  {
    assert s == s[..i] + [s[i]] + s[i + 1..];
  }

  lemma {:induction false} Cancel<T>(x: T, a: multiset<T>, b: multiset<T>)
    requires multiset{x} + a == multiset{x} + b
    ensures a == b
  {
    assert a == multiset{x} + a - multiset{x};
    assert b == multiset{x} + b - multiset{x};
  }

  lemma {:induction false} TimeSumPermutes(a: seq<Point>, b: seq<Point>)
    requires multiset(a) == multiset(b)
    ensures TimeSum(a) == TimeSum(b)
  {
    if |a| == 0 {
      assert |b| == |multiset(b)|;
    } else {
      assert a == [a[0]] + a[1..];
      assert a[0] in multiset(b);
      var i :| 0 <= i < |b| && b[i] == a[0];
      WithoutIndex(b, i);
      Cancel(a[0], multiset(a[1..]), multiset(b[..i] + b[i + 1..]));
      TimeSumPermutes(a[1..], b[..i] + b[i + 1..]);
      TimeSumAppend(b[..i] + [b[i]], b[i + 1..]);
      TimeSumAppend(b[..i], [b[i]]);
      TimeSumAppend(b[..i], b[i + 1..]);
    }
  }

  lemma {:induction false} LaterBy(p: int, ts: int, k: int)
    requires p > 0
    ensures Zero(p, Later(p, ts, k) - ts - k)
  {
    ReduceEq(p, ts + k);
    ZeroScale(p, -1, ts + k - Later(p, ts, k));
  }

  /** Along hops, time advances by between one and three ticks per hop, modulo p. */
  lemma {:induction false} TotalAdvance(p: int, hops: seq<Hop>) returns (ticks: int)
    requires p > 0 && AllAdvance(p, hops)
    ensures |hops| <= ticks <= 3 * |hops|
    ensures Zero(p, TimeSum(Afters(hops)) - TimeSum(Befores(hops)) - ticks)
  {
    if |hops| == 0 {
      ticks := 0;
      MultipleIsZero(p, 0);
    } else {
      var rest := TotalAdvance(p, hops[1..]);
      assert Advances(p, hops[0]);
      var k :| 1 <= k <= 3 && hops[0].after.ts == Later(p, hops[0].before.ts, k);
      ticks := rest + k;
      LaterBy(p, hops[0].before.ts, k);
      assert Afters(hops)[1..] == Afters(hops[1..]) && Befores(hops)[1..] == Befores(hops[1..]);
      ZeroAdd(p, TimeSum(Afters(hops[1..])) - TimeSum(Befores(hops[1..])) - rest,
              hops[0].after.ts - hops[0].before.ts - k);
    }
  }

  /** Hops cannot feed each other in a circle: time would have to advance by a multiple of p. */
  lemma {:induction false} NoCircle(p: int, hops: seq<Hop>)
    requires p > 0 && AllAdvance(p, hops) && 3 * |hops| < p
    requires multiset(Afters(hops)) == multiset(Befores(hops))
    ensures |hops| == 0
  {
    var ticks := TotalAdvance(p, hops);
    TimeSumPermutes(Afters(hops), Befores(hops));
    assert TimeSum(Afters(hops)) - TimeSum(Befores(hops)) - ticks == -ticks;
    Lift(p, -ticks);
  }

  /** What a balanced bus leaves: sends with the start are receives with the end. */
  ghost predicate Conserves(hops: seq<Hop>, start: Point, end: Point) {
    multiset{start} + multiset(Afters(hops)) == multiset(Befores(hops)) + multiset{end}
  }

  lemma {:induction false} HopsWithout(hops: seq<Hop>, i: nat)
    requires i < |hops|
    ensures var rest := hops[..i] + hops[i + 1..];
            && multiset(Befores(hops)) == multiset{hops[i].before} + multiset(Befores(rest))
            && multiset(Afters(hops)) == multiset{hops[i].after} + multiset(Afters(rest))
  {
    var rest := hops[..i] + hops[i + 1..];
    WithoutIndex(Befores(hops), i);
    WithoutIndex(Afters(hops), i);
    assert Befores(rest) == Befores(hops)[..i] + Befores(hops)[i + 1..];
    assert Afters(rest) == Afters(hops)[..i] + Afters(hops)[i + 1..];
  }

  lemma {:induction false} ConservesWithout(hops: seq<Hop>, i: nat, start: Point, end: Point)
    requires i < |hops| && hops[i].before == start && Conserves(hops, start, end)
    ensures Conserves(hops[..i] + hops[i + 1..], hops[i].after, end)
  {
    HopsWithout(hops, i);
    var rest := hops[..i] + hops[i + 1..];
    Cancel(start, multiset{hops[i].after} + multiset(Afters(rest)), multiset(Befores(rest)) + multiset{end});
  }

  lemma {:induction false} NoNextHop(p: int, hops: seq<Hop>, start: Point, end: Point)
    requires p > 0 && AllAdvance(p, hops) && 3 * |hops| < p && Conserves(hops, start, end)
    requires start !in Befores(hops)
    ensures |hops| == 0 && start == end
  {
    assert start in multiset{start} + multiset(Afters(hops));
    assert start in multiset(Befores(hops)) <==> start in Befores(hops);
    Cancel(start, multiset(Afters(hops)), multiset(Befores(hops)));
    NoCircle(p, hops);
  }

  /** The rows of a balanced trace bus are one chain from start to end that uses every row once. */
  lemma {:induction false} OneChain(p: int, hops: seq<Hop>, start: Point, end: Point) returns (order: seq<Hop>)
    requires p > 0 && AllAdvance(p, hops) && 3 * |hops| < p && Conserves(hops, start, end)
    ensures Chain(order, start, end) && multiset(order) == multiset(hops)
    decreases |hops|
  {
    if start in Befores(hops) {
      var i :| 0 <= i < |hops| && Befores(hops)[i] == start;
      var rest := hops[..i] + hops[i + 1..];
      ConservesWithout(hops, i, start, end);
      assert forall j :: 0 <= j < |rest| ==> rest[j] == if j < i then hops[j] else hops[j + 1];
      var tail := OneChain(p, rest, hops[i].after, end);
      WithoutIndex(hops, i);
      order := [hops[i]] + tail;
    } else {
      NoNextHop(p, hops, start, end);
      order := [];
    }
  }

  // Uniqueness of the chain.

  ghost predicate StrictlyLater(order: seq<Hop>, from: int) {
    && (forall i :: 0 <= i < |order| ==> from <= order[i].before.ts)
    && forall i, j :: 0 <= i < j < |order| ==> order[i].before.ts < order[j].before.ts
  }

  lemma {:induction false} HopAdvances(p: int, h: Hop)
    requires p > 0 && Advances(p, h) && h.before.ts + 3 < p
    ensures h.before.ts < h.after.ts <= h.before.ts + 3
  {
    var k :| 1 <= k <= 3 && h.after.ts == Later(p, h.before.ts, k);
  }

  /** Along a chain shorter than the field, the timestamps of the rows increase as integers. */
  lemma {:induction false} ChainAscends(p: int, order: seq<Hop>, start: Point, end: Point)
    requires p > 0 && AllAdvance(p, order) && Chain(order, start, end)
    requires 0 <= start.ts && start.ts + 3 * |order| < p
    ensures StrictlyLater(order, start.ts) && start.ts + |order| <= end.ts <= start.ts + 3 * |order|
  {
    if |order| > 0 {
      HopAdvances(p, order[0]);
      var rest := order[1..];
      ChainAscends(p, rest, order[0].after, end);
      assert forall i :: 0 < i < |order| ==> order[i] == rest[i - 1];
    }
  }

  lemma {:induction false} SameHead(a: seq<Hop>, b: seq<Hop>, from: int)
    requires StrictlyLater(a, from) && StrictlyLater(b, from) && multiset(a) == multiset(b) && |a| > 0
    ensures |b| > 0 && a[0] == b[0]
  {
    assert a[0] in multiset(b);
    var i :| 0 <= i < |b| && b[i] == a[0];
    assert b[0] in multiset(a);
    var j :| 0 <= j < |a| && a[j] == b[0];
  }

  lemma {:induction false} AscendingUnique(a: seq<Hop>, b: seq<Hop>, from: int)
    requires StrictlyLater(a, from) && StrictlyLater(b, from) && multiset(a) == multiset(b)
    ensures a == b
  {
    if |a| == 0 {
      assert |b| == |multiset(b)|;
    } else {
      SameHead(a, b, from);
      assert a == [a[0]] + a[1..] && b == [a[0]] + b[1..];
      Cancel(a[0], multiset(a[1..]), multiset(b[1..]));
      AscendingUnique(a[1..], b[1..], from);
    }
  }

  /** The rows can be arranged as a chain in one way only. */
  lemma {:induction false} ChainUnique(p: int, a: seq<Hop>, b: seq<Hop>, start: Point, end: Point)
    requires p > 0 && AllAdvance(p, a) && AllAdvance(p, b) && 0 <= start.ts && start.ts + 3 * |a| < p
    requires Chain(a, start, end) && Chain(b, start, end) && multiset(a) == multiset(b)
    ensures a == b
  {
    assert |a| == |multiset(a)| && |b| == |multiset(b)|;
    ChainAscends(p, a, start, end);
    ChainAscends(p, b, start, end);
    AscendingUnique(a, b, start.ts);
  }

  // A chain conserves.

  lemma {:induction false} ChainConserves(order: seq<Hop>, start: Point, end: Point)
    requires Chain(order, start, end)
    ensures Conserves(order, start, end)
  {
    if |order| == 0 {
    } else {
      ChainConserves(order[1..], order[0].after, end);
      assert Befores(order) == [start] + Befores(order[1..]);
      assert Afters(order) == [order[0].after] + Afters(order[1..]);
    }
  }

  lemma {:induction false} PermutedHops(a: seq<Hop>, b: seq<Hop>)
    requires multiset(a) == multiset(b)
    ensures multiset(Befores(a)) == multiset(Befores(b)) && multiset(Afters(a)) == multiset(Afters(b))
  {
    if |a| == 0 {
      assert |b| == |multiset(b)|;
    } else {
      assert a[0] in multiset(b);
      var i :| 0 <= i < |b| && b[i] == a[0];
      var rest := b[..i] + b[i + 1..];
      WithoutIndex(b, i);
      assert a == [a[0]] + a[1..];
      Cancel(a[0], multiset(a[1..]), multiset(rest));
      PermutedHops(a[1..], rest);
      HopsWithout(a, 0);
      HopsWithout(b, i);
      assert a[..0] + a[1..] == a[1..];
    }
  }

  // Boundaries: four rows of five columns; row 0 sends the origin, row 3 receives the final point.

  const BOUNDARY_COLUMNS := 5

  function BoundaryPoint(data: seq<int>, row: nat): Point
    requires row < 4 && |data| == 4 * BOUNDARY_COLUMNS
  {
    var i := BOUNDARY_COLUMNS * row;
    Point([data[i], data[i + 1], data[i + 2], data[i + 3]], data[i + 4])
  }

  function IsFirst(row: nat): int { if row == 0 then 1 else 0 }

  function IsLast(row: nat): int { if row == 3 then 1 else 0 }

  predicate BoundaryRow(p: int, isFirst: int, at: Point)
    requires p > 0
  {
    && Zero(p, isFirst * at.pc[0]) && Zero(p, isFirst * at.pc[1])
    && Zero(p, isFirst * at.pc[2]) && Zero(p, isFirst * at.pc[3]) && Zero(p, isFirst * at.ts)
  }

  predicate BoundariesEval(p: int, data: seq<int>)
    requires p > 0 && |data| == 4 * BOUNDARY_COLUMNS
  {
    forall row: nat :: row < 4 ==> BoundaryRow(p, IsFirst(row), BoundaryPoint(data, row))
  }

  lemma {:induction false} BoundaryRowAccepted(p: int, isFirst: int, at: Point)
    requires p > 0 && (isFirst == 0 || at == ORIGIN)
    ensures BoundaryRow(p, isFirst, at)
  {
    MultipleIsZero(p, 0);
  }

  lemma {:induction false} OriginAccepted(data: seq<int>)
    requires |data| == 4 * BOUNDARY_COLUMNS && BoundaryPoint(data, 0) == ORIGIN
    ensures forall p :: p > 0 ==> BoundariesEval(p, data)
  {
    hide BoundaryRow, BoundaryPoint;
    forall p | p > 0
      ensures BoundariesEval(p, data)
    {
      forall row: nat | row < 4
        ensures BoundaryRow(p, IsFirst(row), BoundaryPoint(data, row))
      {
        BoundaryRowAccepted(p, IsFirst(row), BoundaryPoint(data, row));
      }
    }
  }

  function BoundarySends(): seq<Entry<Point>> {
    seq(4, row requires 0 <= row < 4 => Entry(ORIGIN, IsFirst(row)))
  }

  function BoundaryReceives(data: seq<int>): seq<Entry<Point>>
    requires |data| == 4 * BOUNDARY_COLUMNS
  {
    seq(4, row requires 0 <= row < 4 => Entry(BoundaryPoint(data, row), IsLast(row)))
  }

  /** `boundaries::air::build_trace` */
  method BuildBoundaries(finalPc: Limbs, finalTimestamp: int) returns (data: array<int>)
    ensures fresh(data) && data.Length == 20 == 4 * BOUNDARY_COLUMNS
    ensures data[15..] == finalPc + [finalTimestamp] && forall j :: 0 <= j < 15 ==> data[j] == 0
    ensures BoundaryPoint(data[..], 0) == ORIGIN && BoundaryPoint(data[..], 3) == Point(finalPc, finalTimestamp)
    ensures forall p :: p > 0 ==> BoundariesEval(p, data[..])
  {
    data := new int[4 * BOUNDARY_COLUMNS](_ => 0);
    var row3Start := 3 * BOUNDARY_COLUMNS;
    for i := 0 to 4
      invariant forall j :: 0 <= j < row3Start ==> data[j] == 0
      invariant forall j :: 0 <= j < i ==> data[row3Start + j] == finalPc[j]
    {
      data[row3Start + i] := finalPc[i];
    }
    data[row3Start + 4] := finalTimestamp;
    assert data[15..] == finalPc + [finalTimestamp];
    OriginAccepted(data[..]);
  }

  // The bus of a whole proof.

  function HopSends(hops: seq<Hop>): seq<Entry<Point>> {
    seq(|hops|, i requires 0 <= i < |hops| => Entry(hops[i].after, hops[i].isDummy))
  }

  function HopReceives(hops: seq<Hop>): seq<Entry<Point>> {
    seq(|hops|, i requires 0 <= i < |hops| => Entry(hops[i].before, hops[i].isDummy))
  }

  /** Padding rows carry the selector 0. */
  function LiveHops(hops: seq<Hop>): seq<Hop> {
    if |hops| == 0 then []
    else (if hops[0].isDummy == 1 then [hops[0]] else []) + LiveHops(hops[1..])
  }

  ghost predicate TraceBusBalances(p: int, hops: seq<Hop>, data: seq<int>)
    requires p > 0 && |data| == 4 * BOUNDARY_COLUMNS
  {
    Balanced(p, BoundarySends() + HopSends(hops), HopReceives(hops) + BoundaryReceives(data))
  }

  ghost predicate HopSelectors(hops: seq<Hop>) {
    forall i :: 0 <= i < |hops| ==> hops[i].isDummy == 0 || hops[i].isDummy == 1
  }

  lemma {:induction false} LiveHopEntries(hops: seq<Hop>)
    ensures Live(HopSends(hops)) == Afters(LiveHops(hops)) && Live(HopReceives(hops)) == Befores(LiveHops(hops))
  {
    if |hops| > 0 {
      LiveHopEntries(hops[1..]);
      var live := if hops[0].isDummy == 1 then [hops[0]] else [];
      var rest := LiveHops(hops[1..]);
      assert HopSends(hops)[1..] == HopSends(hops[1..]) && HopReceives(hops)[1..] == HopReceives(hops[1..]);
      assert Live(HopSends(hops)) == Afters(live) + Live(HopSends(hops[1..]));
      assert Live(HopReceives(hops)) == Befores(live) + Live(HopReceives(hops[1..]));
      assert LiveHops(hops) == live + rest;
      hide Live, LiveHops, HopSends, HopReceives;
      assert Afters(live + rest) == Afters(live) + Afters(rest);
      assert Befores(live + rest) == Befores(live) + Befores(rest);
    }
  }

  lemma {:induction false} LiveFour(e: seq<Entry<Point>>, k: nat)
    requires |e| == 4 && k < 4 && forall i :: 0 <= i < 4 ==> e[i].multiplicity == if i == k then 1 else 0
    ensures Live(e) == [e[k].tuple]
  {
    var e1, e2, e3 := e[1..], e[1..][1..], e[1..][1..][1..];
    assert Live(e3[1..]) == [];
    assert Live(e3) == (if k == 3 then [e[3].tuple] else []);
    assert Live(e2) == (if k == 2 then [e[2].tuple] else []) + Live(e3);
    assert Live(e1) == (if k == 1 then [e[1].tuple] else []) + Live(e2);
  }

  lemma {:induction false} LiveBoundaries(data: seq<int>)
    requires |data| == 4 * BOUNDARY_COLUMNS
    ensures Live(BoundarySends()) == [ORIGIN] && Live(BoundaryReceives(data)) == [BoundaryPoint(data, 3)]
  {
    LiveFour(BoundarySends(), 0);
    LiveFour(BoundaryReceives(data), 3);
  }

  lemma {:induction false} BalanceIsConservation(p: int, hops: seq<Hop>, data: seq<int>)
    requires |data| == 4 * BOUNDARY_COLUMNS && HopSelectors(hops) && |LiveHops(hops)| + 1 < p
    ensures TraceBusBalances(p, hops, data) <==> Conserves(LiveHops(hops), ORIGIN, BoundaryPoint(data, 3))
  {
    var sends, receives := BoundarySends() + HopSends(hops), HopReceives(hops) + BoundaryReceives(data);
    LiveAppend(BoundarySends(), HopSends(hops));
    LiveAppend(HopReceives(hops), BoundaryReceives(data));
    LiveHopEntries(hops);
    LiveBoundaries(data);
    SelectorsOnBus(hops, data);
    hide Live, BoundarySends, BoundaryReceives, HopSends, HopReceives, Selectors, BoundaryPoint, LiveHops;
    BalancedIffEqual(p, sends, receives);
  }

  lemma {:induction false} SelectorsOnBus(hops: seq<Hop>, data: seq<int>)
    requires |data| == 4 * BOUNDARY_COLUMNS && HopSelectors(hops)
    ensures Selectors(BoundarySends() + HopSends(hops)) && Selectors(HopReceives(hops) + BoundaryReceives(data))
  {
    hide BoundaryPoint;
  }

  /** The live rows, each used once, form one execution from (0, 0) to the final point. */
  ghost predicate OneExecution(hops: seq<Hop>, end: Point) {
    exists order :: IsExecution(order, hops, end)
  }

  ghost predicate IsExecution(order: seq<Hop>, hops: seq<Hop>, end: Point) {
    multiset(order) == multiset(LiveHops(hops)) && Chain(order, ORIGIN, end)
  }

  /** The trace bus balances exactly when the rows are one execution ending in the final point. */
  lemma {:induction false} TraceBusIsOneExecution(p: int, hops: seq<Hop>, data: seq<int>)
    requires |data| == 4 * BOUNDARY_COLUMNS && HopSelectors(hops)
    requires p > 2 && 3 * |LiveHops(hops)| < p && AllAdvance(p, LiveHops(hops))
    ensures TraceBusBalances(p, hops, data) <==> OneExecution(hops, BoundaryPoint(data, 3))
  {
    var live, end := LiveHops(hops), BoundaryPoint(data, 3);
    BalanceIsConservation(p, hops, data);
    if TraceBusBalances(p, hops, data) {
      var order := OneChain(p, live, ORIGIN, end);
      assert IsExecution(order, hops, end);
    }
    if OneExecution(hops, end) {
      var order :| IsExecution(order, hops, end);
      ChainConserves(order, ORIGIN, end);
      PermutedHops(order, live);
    }
  }

  lemma {:induction false} SubsetAdvances(p: int, a: seq<Hop>, b: seq<Hop>)
    requires p > 0 && AllAdvance(p, b) && multiset(a) == multiset(b)
    ensures AllAdvance(p, a)
  {
    forall i | 0 <= i < |a| ensures Advances(p, a[i]) {
      assert a[i] in multiset(b);
    }
  }

  /** That execution is unique, and its rows carry strictly increasing timestamps. */
  lemma {:induction false} ExecutionUnique(p: int, hops: seq<Hop>, end: Point, a: seq<Hop>, b: seq<Hop>)
    requires p > 2 && 3 * |LiveHops(hops)| < p && AllAdvance(p, LiveHops(hops))
    requires IsExecution(a, hops, end) && IsExecution(b, hops, end)
    ensures a == b && StrictlyLater(a, 0) && |a| <= end.ts <= 3 * |a|
  {
    assert |a| == |multiset(a)| == |LiveHops(hops)|;
    SubsetAdvances(p, a, LiveHops(hops));
    SubsetAdvances(p, b, LiveHops(hops));
    ChainUnique(p, a, b, ORIGIN, end);
    ChainAscends(p, a, ORIGIN, end);
  }
}
