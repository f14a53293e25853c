/** The built memory matrix, and exactly when the memory table accepts it. */
module MemoryTrace {
  import opened Words
  import opened PrimeField
  import opened Rv32
  import opened Vm
  import opened OfflineMemory
  import opened U32Ops
  import opened MemoryAir
  import opened Heights

  // Sorting by (memory_type, address, timestamp), stably.

  function Insert(s: seq<MemoryOp>, o: MemoryOp): (r: seq<MemoryOp>)
    ensures multiset(r) == multiset(s) + multiset{o}
  {
    if |s| == 0 then [o]
    else if KeyLess(o, s[0]) then [o] + s
    else
      assert s == [s[0]] + s[1..];
      [s[0]] + Insert(s[1..], o)
  }

  function SortByKey(s: seq<MemoryOp>): (r: seq<MemoryOp>)
    ensures multiset(r) == multiset(s) && |r| == |s|
  {
    if |s| == 0 then [] else
    var n := |s| - 1;
    assert s == s[..n] + [s[n]];
    var r := Insert(SortByKey(s[..n]), s[n]);
    assert |r| == |multiset(r)| == |multiset(s)|;
    r
  }

  ghost predicate Comparable(s: seq<MemoryOp>, o: MemoryOp) {
    forall i :: 0 <= i < |s| ==> KeyLess(s[i], o) || KeyLess(o, s[i])
  }

  lemma {:induction false} InsertKeepsOrder(s: seq<MemoryOp>, o: MemoryOp)
    requires KeyOrdered(s) && Comparable(s, o)
    ensures KeyOrdered(Insert(s, o))
  {
    if |s| > 0 && !KeyLess(o, s[0]) {
      var rest, r := s[1..], Insert(s[1..], o);
      InsertKeepsOrder(rest, o);
      forall j | 0 <= j < |r| ensures KeyLess(s[0], r[j]) {
        assert r[j] in multiset(r);
        assert r[j] in multiset(rest) || r[j] == o;
      }
    }
  }

  /** Operations of distinct timestamps come out in strict key order. */
  lemma {:induction false} SortOrders(log: seq<MemoryOp>)
    requires TimeOrdered(log)
    ensures KeyOrdered(SortByKey(log))
    ensures var r := SortByKey(log); forall i, j :: 0 <= i < j < |r| && r[j].memoryType == Register ==> r[i].memoryType == Register
  {
    if |log| > 0 {
      var n := |log| - 1;
      var sorted := SortByKey(log[..n]);
      SortOrders(log[..n]);
      forall i | 0 <= i < |sorted| ensures KeyLess(sorted[i], log[n]) || KeyLess(log[n], sorted[i]) {
        assert sorted[i] in multiset(sorted);
        assert sorted[i] in log[..n];
      }
      InsertKeepsOrder(sorted, log[n]);
    }
  }

  // The matrix.

  const PADDING_ROW := MemoryColumns(0, [0, 0, 0, 0], 0, [0, 0, 0, 0], [0, 0, 0, 0], 0, 0, 0, 1)

  function RealRow(o: MemoryOp): MemoryColumns {
    MemoryColumns(TypeNumber(o.memoryType), ToLimbs(o.address), o.timestamp, ToLimbs(o.read), ToLimbs(o.write), 0, 0, 0, 0)
  }

  function BaseRow(s: seq<MemoryOp>, i: nat): MemoryColumns {
    if i < |s| then RealRow(s[i]) else PADDING_ROW
  }

  function WithFlags(local: MemoryColumns, next: MemoryColumns): MemoryColumns {
    local.(isMemoryTypeEqual := Flag(local.memoryType == next.memoryType),
           isAddressEqual := Flag(local.address == next.address),
           isTimestampEqual := Flag(local.timestamp == next.timestamp))
  }

  /** Row i: the flags compare it with the next row; the last row has none. */
  function BuiltRow(s: seq<MemoryOp>, i: nat): MemoryColumns {
    if i + 1 < PaddedHeight(|s|) then WithFlags(BaseRow(s, i), BaseRow(s, i + 1)) else BaseRow(s, i)
  }

  function Matrix(s: seq<MemoryOp>): seq<MemoryColumns> {
    seq(PaddedHeight(|s|), i requires 0 <= i => BuiltRow(s, i))
  }

  /** `memory::trace::build_trace` */
  method BuildMemory(log: seq<MemoryOperation>) returns (rows: array<MemoryColumns>)
    requires |log| > 0
    ensures fresh(rows) && rows[..] == Matrix(SortByKey(ToOps(log)))
  {
    hide BaseRow, BuiltRow, PaddedHeight;
    var ops := SortByKey(ToOps(log));
    var numRows := PaddedHeight(|ops|);
    rows := new MemoryColumns[numRows](_ => PADDING_ROW.(isPadding := 0));
    FillRows(ops, rows);
    SetFlags(ops, rows);
  }

  /** Writes the operations, then marks the rows after them. */
  method FillRows(ops: seq<MemoryOp>, rows: array<MemoryColumns>)
    requires |ops| <= rows.Length && forall j :: 0 <= j < rows.Length ==> rows[j] == PADDING_ROW.(isPadding := 0)
    modifies rows
    ensures forall j :: 0 <= j < rows.Length ==> rows[j] == BaseRow(ops, j)
  {
    hide RealRow;
    for i := 0 to |ops|
      invariant forall j :: 0 <= j < i ==> rows[j] == BaseRow(ops, j)
      invariant forall j :: i <= j < rows.Length ==> rows[j] == PADDING_ROW.(isPadding := 0)
    {
      rows[i] := RealRow(ops[i]);
    }
    for i := |ops| to rows.Length
      invariant forall j :: 0 <= j < i ==> rows[j] == BaseRow(ops, j)
      invariant forall j :: i <= j < rows.Length ==> rows[j] == PADDING_ROW.(isPadding := 0)
    {
      rows[i] := rows[i].(isPadding := 1);
    }
  }

  /** Sets the equality flags of every row but the last. */
  method SetFlags(ops: seq<MemoryOp>, rows: array<MemoryColumns>)
    requires rows.Length == PaddedHeight(|ops|) && forall j :: 0 <= j < rows.Length ==> rows[j] == BaseRow(ops, j)
    modifies rows
    ensures forall j :: 0 <= j < rows.Length ==> rows[j] == BuiltRow(ops, j)
  {
    hide BaseRow, WithFlags;
    for i := 0 to rows.Length - 1
      invariant forall j :: 0 <= j < i ==> rows[j] == BuiltRow(ops, j)
      invariant forall j :: i <= j < rows.Length ==> rows[j] == BaseRow(ops, j)
    {
      rows[i] := WithFlags(rows[i], rows[i + 1]);
    }
  }

  // Acceptance, transition by transition.

  lemma {:induction false} LimbsReflected(p: int, a: word, b: word)
    requires p > 256
    ensures WhenEqLimbs(p, 1, ToLimbs(a), ToLimbs(b)) <==> a == b
    ensures ToLimbs(a) == ToLimbs(b) <==> a == b
  {
    ToLimbsValue(a);
    ToLimbsValue(b);
    hide ToLimbs;
    MultipleIsZero(p, 0);
    if WhenEqLimbs(p, 1, ToLimbs(a), ToLimbs(b)) {
      LimbsForced(p, ToLimbs(a), ToLimbs(b));
    }
  }

  lemma {:induction false} WhenOff(p: int, a: Limbs, b: Limbs)
    requires p > 0
    ensures WhenEqLimbs(p, 0, a, b)
  {
    MultipleIsZero(p, 0);
  }

  /** What a transition comes to when its rows hold words and the flags compare them. */
  lemma {:induction false} TransitionReflected(p: int, local: MemoryColumns, next: MemoryColumns, x: word, y: word, w: word, r: word)
    requires p > 256 && local.memoryType == next.memoryType == 0 && IsBit(local.isPadding)
    requires local.isMemoryTypeEqual == 1 && (local.isPadding == 1 ==> next.isPadding == 1)
    requires local.isAddressEqual == Flag(x == y) && local.write == ToLimbs(w) && next.read == ToLimbs(r)
    ensures Transition(p, local, next) <==> r == if x == y then w else 0
  {
    MultipleIsZero(p, 0);
    ZeroWord();
    LimbsReflected(p, r, w);
    LimbsReflected(p, r, 0);
    WhenOff(p, next.read, ZERO_LIMBS);
    WhenOff(p, next.read, local.write);
    hide ToLimbs, WhenEqLimbs;
  }

  ghost predicate AllRegisters(s: seq<MemoryOp>) {
    forall i :: 0 <= i < |s| ==> s[i].memoryType == Register
  }

  function AddressAt(s: seq<MemoryOp>, i: nat): word { if i < |s| then s[i].address else 0 }

  function ReadAt(s: seq<MemoryOp>, i: nat): word { if i < |s| then s[i].read else 0 }

  function WriteAt(s: seq<MemoryOp>, i: nat): word { if i < |s| then s[i].write else 0 }

  lemma {:induction false} BuiltTransition(p: int, s: seq<MemoryOp>, i: nat)
    requires p > 256 && AllRegisters(s) && i + 1 < PaddedHeight(|s|)
    ensures Transition(p, BuiltRow(s, i), BuiltRow(s, i + 1))
       <==> ReadAt(s, i + 1) == if AddressAt(s, i) == AddressAt(s, i + 1) then WriteAt(s, i) else 0
  {
    hide ToLimbs, Transition, PaddedHeight;
    ZeroWord();
    LimbsReflected(p, AddressAt(s, i), AddressAt(s, i + 1));
    TransitionReflected(p, BuiltRow(s, i), BuiltRow(s, i + 1),
                        AddressAt(s, i), AddressAt(s, i + 1), WriteAt(s, i), ReadAt(s, i + 1));
  }

  /** Rows of zeros after a last access to register 0 are taken for accesses to it. */
  predicate EndsClear(s: seq<MemoryOp>) {
    |s| > 0 && PaddedHeight(|s|) > |s| && s[|s| - 1].address == 0 ==> s[|s| - 1].write == 0
  }

  lemma {:induction false} BuiltRowConstraints(p: int, s: seq<MemoryOp>, i: nat)
    requires p > 0
    ensures RowConstraints(p, BuiltRow(s, i))
  {
    hide ToLimbs, PaddedHeight;
    MultipleIsZero(p, 0);
  }

  lemma {:induction false} FirstRowReflected(p: int, s: seq<MemoryOp>)
    requires p > 256 && |s| > 0
    ensures WhenEqLimbs(p, 1, BuiltRow(s, 0).read, ZERO_LIMBS) <==> s[0].read == 0
  {
    ZeroWord();
    hide ToLimbs, WhenEqLimbs, PaddedHeight;
    LimbsReflected(p, s[0].read, 0);
  }

  /** Access i + 1, or the zeros of padding, continues access i. */
  predicate Continues(s: seq<MemoryOp>, i: nat) {
    ReadAt(s, i + 1) == if AddressAt(s, i) == AddressAt(s, i + 1) then WriteAt(s, i) else 0
  }

  ghost predicate StepsContinue(s: seq<MemoryOp>, h: nat) {
    forall i: nat :: 0 <= i < h - 1 ==> Continues(s, i)
  }

  lemma {:induction false} EvalIffStepsContinue(p: int, s: seq<MemoryOp>)
    requires p > 256 && AllRegisters(s) && |s| > 0
    ensures MemoryEval(p, Matrix(s)) <==> s[0].read == 0 && StepsContinue(s, PaddedHeight(|s|))
  {
    var rows, h := Matrix(s), PaddedHeight(|s|);
    FirstRowReflected(p, s);
    hide PaddedHeight, BuiltRow, RowConstraints, Transition, WhenEqLimbs, Continues;
    forall i | 0 <= i < h ensures RowConstraints(p, rows[i]) {
      BuiltRowConstraints(p, s, i);
    }
    forall i: nat | 0 <= i < h - 1
      ensures TransitionAt(p, rows, i) <==> Continues(s, i)
    {
      TransitionIsContinues(p, s, i);
    }
    assert |rows| == h && rows[0] == BuiltRow(s, 0);
    hide *;
    EvalIffSteps(p, s, rows);
  }

  lemma {:induction false} EvalIffSteps(p: int, s: seq<MemoryOp>, rows: seq<MemoryColumns>)
    requires p > 0 && |s| > 0 && |rows| > 0
    requires WhenEqLimbs(p, 1, rows[0].read, ZERO_LIMBS) <==> s[0].read == 0
    requires forall i :: 0 <= i < |rows| ==> RowConstraints(p, rows[i])
    requires forall i: nat :: 0 <= i < |rows| - 1 ==> (TransitionAt(p, rows, i) <==> Continues(s, i))
    ensures MemoryEval(p, rows) <==> s[0].read == 0 && StepsContinue(s, |rows|)
  {
    hide RowConstraints, TransitionAt, WhenEqLimbs, Continues;
    if MemoryEval(p, rows) {
      forall i: nat | 0 <= i < |rows| - 1 ensures Continues(s, i) {
        assert TransitionAt(p, rows, i);
      }
    }
  }

  lemma {:induction false} TransitionIsContinues(p: int, s: seq<MemoryOp>, i: nat)
    requires p > 256 && AllRegisters(s) && i + 1 < PaddedHeight(|s|)
    ensures Transition(p, BuiltRow(s, i), BuiltRow(s, i + 1)) <==> Continues(s, i)
  {
    hide BuiltRow, Transition;
    BuiltTransition(p, s, i);
  }

  lemma {:induction false} StepsContinueIff(s: seq<MemoryOp>, h: nat)
    requires AllRegisters(s) && 0 < |s| <= h
    ensures s[0].read == 0 && StepsContinue(s, h)
       <==> Adjacent(s) && (h > |s| && s[|s| - 1].address == 0 ==> s[|s| - 1].write == 0)
  {
    var n := |s| - 1;
    if s[0].read == 0 && StepsContinue(s, h) {
      forall i | 0 <= i < n
        ensures s[i + 1].read == if CellOf(s[i]) == CellOf(s[i + 1]) then s[i].write else 0
      {
        assert Continues(s, i);
      }
      if h > |s| {
        assert Continues(s, n);
      }
    }
    if Adjacent(s) && (h > |s| && s[n].address == 0 ==> s[n].write == 0) {
      forall i: nat | 0 <= i < h - 1 ensures Continues(s, i) {
        if i < n {
          AdjacentAt(s, i + 1);
        }
      }
    }
  }

  /**
   * The built matrix meets every constraint, padding transitions included, exactly when the sorted
   * register accesses pass the neighbour checks and padding does not follow a last access that left
   * register 0 non-zero.
   */
  lemma {:induction false} MatrixAccepted(p: int, s: seq<MemoryOp>)
    requires p > 256 && AllRegisters(s) && |s| > 0
    ensures MemoryEval(p, Matrix(s)) <==> Adjacent(s) && EndsClear(s)
  {
    EvalIffStepsContinue(p, s);
    StepsContinueIff(s, PaddedHeight(|s|));
  }
}
