/** Comparison of two 32-bit words by the most significant byte in which they differ. */
module U32LessThan {
  import opened Words
  import opened PrimeField
  import opened Rv32
  import opened U32Ops
  import opened Heights

  datatype U32LtColumns = U32LtColumns(
    x: Limbs, y: Limbs, inverses: Limbs, isEquals: Limbs, isEqual: int, multLts: Limbs, mult: int)

  /** The sum of the selectors above byte i. */
  function Seen(multLts: Limbs, i: int): int
    requires 0 <= i < 4
    decreases 4 - i
  {
    if i == 3 then 0 else Seen(multLts, i + 1) + multLts[i + 1]
  }

  predicate EqualByte(p: int, x: int, y: int, inverse: int, isEqual: int)
    requires p > 0
  {
    Eq(p, inverse * (y - x) + 1, isEqual) && Zero(p, (y - x) * isEqual)
  }

  /** The selector of byte i is on when no byte above is selected and the byte differs. */
  predicate FirstDifference(p: int, multLts: Limbs, isEquals: Limbs, i: int)
    requires p > 0 && 0 <= i < 4
  {
    && Zero(p, Seen(multLts, i) * multLts[i])
    && Zero(p, (1 - Seen(multLts, i)) * (multLts[i] - (1 - isEquals[i])))
  }

  function MultSum(m: Limbs): int {
    m[0] + m[1] + m[2] + m[3]
  }

  ghost predicate U32LtEval(p: int, r: U32LtColumns)
    requires p > 0
  {
    && (forall i :: 0 <= i < 4 ==> EqualByte(p, r.x[i], r.y[i], r.inverses[i], r.isEquals[i]))
    && (forall i :: 0 <= i < 4 ==> Bool(p, r.multLts[i]))
    && Bool(p, MultSum(r.multLts))
    && (forall i :: 0 <= i < 4 ==> FirstDifference(p, r.multLts, r.isEquals, i))
    && Eq(p, r.isEqual, 1 - MultSum(r.multLts))
  }

  ghost predicate U32LtResidues(p: int, r: U32LtColumns) {
    Residue(p, r.isEqual) && forall i :: 0 <= i < 4 ==> Residue(p, r.isEquals[i]) && Residue(p, r.multLts[i])
  }

  /** A pair the comparison table offers; its padding rows hold (0, 0). */
  predicate InLessThanTable(x: int, y: int) {
    (IsByte(x) && IsByte(y) && x < y) || (x == 0 && y == 0)
  }

  /** The pairs a row sends to `bytes_lt` are in the table. */
  predicate U32LtLookups(r: U32LtColumns) {
    forall i :: 0 <= i < 4 && r.multLts[i] == 1 ==> InLessThanTable(r.x[i], r.y[i])
  }

  lemma {:induction false} IsEqualForced(p: int, x: int, y: int, inverse: int, isEqual: int)
    requires LargePrime(p) && IsByte(x) && IsByte(y) && Residue(p, isEqual) && EqualByte(p, x, y, inverse, isEqual)
    ensures isEqual == Flag(x == y)
  {
    IsZeroGadget(p, y - x, inverse, isEqual);
  }

  /** The selector picks the most significant byte in which x and y differ, if there is one. */
  predicate SelectsDifference(x: Limbs, y: Limbs, m: Limbs) {
    && m[3] == Flag(x[3] != y[3])
    && m[2] == Flag(x[3] == y[3] && x[2] != y[2])
    && m[1] == Flag(x[3] == y[3] && x[2] == y[2] && x[1] != y[1])
    && m[0] == Flag(x[3] == y[3] && x[2] == y[2] && x[1] == y[1] && x[0] != y[0])
  }

  lemma {:induction false} SelectorForced(p: int, multLts: Limbs, isEquals: Limbs, i: nat)
    requires p > 4 && i < 4 && FirstDifference(p, multLts, isEquals, i)
    requires IsBit(multLts[i]) && IsBit(isEquals[i]) && IsBit(Seen(multLts, i))
    ensures multLts[i] == if Seen(multLts, i) == 1 then 0 else 1 - isEquals[i]
  {
    hide Seen;
    if Seen(multLts, i) == 1 {
      Lift(p, 1 * multLts[i]);
    } else {
      Lift(p, 1 * (multLts[i] - (1 - isEquals[i])));
    }
  }

  lemma {:induction false} SelectorsForced(p: int, x: Limbs, y: Limbs, multLts: Limbs, isEquals: Limbs)
    requires p > 4
    requires forall i :: 0 <= i < 4 ==> FirstDifference(p, multLts, isEquals, i)
    requires forall i :: 0 <= i < 4 ==> IsBit(multLts[i]) && isEquals[i] == Flag(x[i] == y[i])
    ensures SelectsDifference(x, y, multLts)
  {
    hide FirstDifference;
    SelectorForced(p, multLts, isEquals, 3);
    SelectorForced(p, multLts, isEquals, 2);
    SelectorForced(p, multLts, isEquals, 1);
    SelectorForced(p, multLts, isEquals, 0);
  }

  /** Bytes compare as the most significant difference does. */
  lemma {:induction false} DifferenceOrders(x: Limbs, y: Limbs, m: Limbs)
    requires AreBytes(x) && AreBytes(y) && SelectsDifference(x, y, m)
    requires forall i :: 0 <= i < 4 && m[i] == 1 ==> InLessThanTable(x[i], y[i])
    ensures MultSum(m) == Flag(x != y) && (x != y ==> Value(x) < Value(y))
  {
    if x[3] == y[3] && x[2] == y[2] && x[1] == y[1] && x[0] == y[0] {
      assert x == y;
    } else if x[3] != y[3] {
      assert m[3] == 1;
    } else if x[2] != y[2] {
      assert m[2] == 1;
    } else if x[1] != y[1] {
      assert m[1] == 1;
    } else {
      assert m[0] == 1;
    }
  }

  lemma {:induction false} ColumnsForced(p: int, r: U32LtColumns)
    requires LargePrime(p) && U32LtResidues(p, r) && U32LtEval(p, r) && AreBytes(r.x) && AreBytes(r.y)
    ensures SelectsDifference(r.x, r.y, r.multLts)
  {
    forall i | 0 <= i < 4
      ensures r.isEquals[i] == Flag(r.x[i] == r.y[i]) && IsBit(r.multLts[i])
    {
      assert IsByte(r.x[i]) && IsByte(r.y[i]);
      assert EqualByte(p, r.x[i], r.y[i], r.inverses[i], r.isEquals[i]);
      IsEqualForced(p, r.x[i], r.y[i], r.inverses[i], r.isEquals[i]);
      BoolResidue(p, r.multLts[i]);
    }
    SelectorsForced(p, r.x, r.y, r.multLts, r.isEquals);
  }

  /** An accepted comparison row over bytes holds x <= y, and its flag says whether they are equal. */
  lemma {:induction false} U32LtSound(p: int, r: U32LtColumns)
    requires LargePrime(p) && U32LtResidues(p, r) && U32LtEval(p, r) && U32LtLookups(r)
    requires AreBytes(r.x) && AreBytes(r.y)
    ensures Value(r.x) <= Value(r.y) && r.isEqual == Flag(Value(r.x) == Value(r.y))
  {
    ColumnsForced(p, r);
    assert Eq(p, r.isEqual, 1 - MultSum(r.multLts));
    hide U32LtEval, SelectsDifference, MultSum;
    DifferenceOrders(r.x, r.y, r.multLts);
    Lift(p, r.isEqual - (1 - MultSum(r.multLts)));
    hide Value;
    assert r.x == r.y ==> Value(r.x) == Value(r.y);
  }

  // The constraint loop and the trace builder.

  /** The constraint loop over the selectors, most significant byte first. */
  method CheckFirstDifference(p: int, multLts: Limbs, isEquals: Limbs) returns (accepted: bool)
    requires p > 0
    ensures accepted <==> forall i :: 0 <= i < 4 ==> FirstDifference(p, multLts, isEquals, i)
  {
    accepted := true;
    var alreadySeen := 0;
    for i := 4 downto 0
      invariant i < 4 ==> alreadySeen == Seen(multLts, i) + multLts[i]
      invariant i == 4 ==> alreadySeen == 0
      invariant accepted <==> forall j :: i <= j < 4 ==> FirstDifference(p, multLts, isEquals, j)
    {
      assert alreadySeen == Seen(multLts, i);
      var checked := Zero(p, alreadySeen * multLts[i])
                     && Zero(p, (1 - alreadySeen) * (multLts[i] - (1 - isEquals[i])));
      assert checked == FirstDifference(p, multLts, isEquals, i);
      accepted := accepted && checked;
      alreadySeen := alreadySeen + multLts[i];
    }
  }

  function SameAbove(x: Limbs, y: Limbs, i: int): bool
    requires 0 <= i < 4
  {
    forall j :: i < j < 4 ==> x[j] == y[j]
  }

  function SelectorOf(x: Limbs, y: Limbs, i: int): int
    requires 0 <= i < 4
  {
    Flag(SameAbove(x, y, i) && x[i] != y[i])
  }

  function InverseOf(p: int, x: Limbs, y: Limbs, i: int): int
    requires IsPrime(p) && p > 256 && AreBytes(x) && AreBytes(y) && 0 <= i < 4
  {
    assert IsByte(x[i]) && IsByte(y[i]);
    NegatedInverse(p, y[i] - x[i])
  }

  /** The row of a comparison, from its definition. */
  ghost function U32LtRow(p: int, x: word, y: word, mult: int): U32LtColumns
    requires IsPrime(p) && p > 256
  {
    ToLimbsValue(x);
    ToLimbsValue(y);
    var xb, yb := ToLimbs(x), ToLimbs(y);
    U32LtColumns(xb, yb,
                 [InverseOf(p, xb, yb, 0), InverseOf(p, xb, yb, 1), InverseOf(p, xb, yb, 2), InverseOf(p, xb, yb, 3)],
                 [Flag(xb[0] == yb[0]), Flag(xb[1] == yb[1]), Flag(xb[2] == yb[2]), Flag(xb[3] == yb[3])],
                 Flag(x == y),
                 [SelectorOf(xb, yb, 0), SelectorOf(xb, yb, 1), SelectorOf(xb, yb, 2), SelectorOf(xb, yb, 3)],
                 mult)
  }

  const U32_LT_PADDING := U32LtColumns([0, 0, 0, 0], [0, 0, 0, 0], [0, 0, 0, 0], [1, 1, 1, 1], 1, [0, 0, 0, 0], 0)

  /** The selector loop of the trace builder. */
  method FillSelectors(x: Limbs, y: Limbs) returns (multLts: Limbs)
    ensures forall i :: 0 <= i < 4 ==> multLts[i] == SelectorOf(x, y, i)
  {
    multLts := [0, 0, 0, 0];
    var found := false;
    for i := 4 downto 0
      invariant found <==> exists j :: i <= j < 4 && x[j] != y[j]
      invariant forall j :: i <= j < 4 ==> multLts[j] == SelectorOf(x, y, j)
      invariant forall j :: 0 <= j < i ==> multLts[j] == 0
    {
      if !found && x[i] != y[i] {
        multLts := multLts[i := 1];
        found := true;
      }
    }
  }

  method FillBytes(p: int, x: Limbs, y: Limbs) returns (inverses: Limbs, isEquals: Limbs)
    requires IsPrime(p) && p > 256 && AreBytes(x) && AreBytes(y)
    ensures forall i :: 0 <= i < 4 ==> inverses[i] == InverseOf(p, x, y, i) && isEquals[i] == Flag(x[i] == y[i])
  {
    inverses, isEquals := [0, 0, 0, 0], [0, 0, 0, 0];
    for i := 0 to 4
      invariant forall j :: 0 <= j < i ==> inverses[j] == InverseOf(p, x, y, j) && isEquals[j] == Flag(x[j] == y[j])
    {
      assert IsByte(x[i]) && IsByte(y[i]);
      if x[i] == y[i] {
        inverses, isEquals := inverses[i := 0], isEquals[i := 1];
      } else {
        inverses, isEquals := inverses[i := NegatedInverse(p, y[i] - x[i])], isEquals[i := 0];
      }
    }
  }

  method FillU32Lt(p: int, x: word, y: word, mult: int) returns (row: U32LtColumns)
    requires IsPrime(p) && p > 256
    ensures row == U32LtRow(p, x, y, mult)
  {
    ToLimbsValue(x);
    ToLimbsValue(y);
    hide ToLimbs, InverseOf, SelectorOf;
    var xb, yb := ToLimbs(x), ToLimbs(y);
    var inverses, isEquals := FillBytes(p, xb, yb);
    var multLts := FillSelectors(xb, yb);
    row := U32LtColumns(xb, yb, inverses, isEquals, if x == y then 1 else 0, multLts, mult);
  }

  /** `u32_less_than_lookup::build_trace`: a row per entry, then padding rows. */
  method BuildU32Lt(p: int, entries: seq<(word, word, int)>) returns (rows: array<U32LtColumns>)
    requires IsPrime(p) && p > 256
    ensures fresh(rows) && rows.Length == PaddedHeight(|entries|)
    ensures forall i :: 0 <= i < |entries| ==> rows[i] == U32LtRow(p, entries[i].0, entries[i].1, entries[i].2)
    ensures forall i :: |entries| <= i < rows.Length ==> rows[i] == U32_LT_PADDING
  {
    hide U32LtRow;
    rows := new U32LtColumns[PaddedHeight(|entries|)](_ => U32_LT_PADDING.(isEquals := [0, 0, 0, 0], isEqual := 0));
    for i := 0 to |entries|
      invariant forall j :: 0 <= j < i ==> rows[j] == U32LtRow(p, entries[j].0, entries[j].1, entries[j].2)
      invariant forall j :: i <= j < rows.Length ==> rows[j] == U32_LT_PADDING.(isEquals := [0, 0, 0, 0], isEqual := 0)
    {
      rows[i] := FillU32Lt(p, entries[i].0, entries[i].1, entries[i].2);
    }
    for i := |entries| to rows.Length
      invariant forall j :: 0 <= j < |entries| ==> rows[j] == U32LtRow(p, entries[j].0, entries[j].1, entries[j].2)
      invariant forall j :: |entries| <= j < i ==> rows[j] == U32_LT_PADDING
      invariant forall j :: i <= j < rows.Length ==> rows[j] == U32_LT_PADDING.(isEquals := [0, 0, 0, 0], isEqual := 0)
    {
      rows[i] := rows[i].(isEquals := [1, 1, 1, 1], isEqual := 1);
    }
  }

  // The built rows are accepted.

  lemma {:induction false} EqualByteAccepted(p: int, x: Limbs, y: Limbs, i: int)
    requires IsPrime(p) && p > 256 && AreBytes(x) && AreBytes(y) && 0 <= i < 4
    ensures EqualByte(p, x[i], y[i], InverseOf(p, x, y, i), Flag(x[i] == y[i]))
  {
    assert IsByte(x[i]) && IsByte(y[i]);
    IsZeroWitness(p, y[i] - x[i], Flag(x[i] == y[i]));
  }

  /** Of the four selectors at most the first differing one is on. */
  lemma {:induction false} SeenMeans(x: Limbs, y: Limbs, m: Limbs, i: int)
    requires 0 <= i < 4 && forall j :: 0 <= j < 4 ==> m[j] == SelectorOf(x, y, j)
    ensures Seen(m, i) == Flag(!SameAbove(x, y, i))
    decreases 4 - i
  {
    if i < 3 {
      SeenMeans(x, y, m, i + 1);
    }
  }

  lemma {:induction false} FirstDifferenceAccepted(p: int, x: Limbs, y: Limbs, m: Limbs, isEquals: Limbs, i: int)
    requires p > 0 && 0 <= i < 4
    requires forall j :: 0 <= j < 4 ==> m[j] == SelectorOf(x, y, j) && isEquals[j] == Flag(x[j] == y[j])
    ensures FirstDifference(p, m, isEquals, i)
  {
    SeenMeans(x, y, m, i);
    MultipleIsZero(p, 0);
    hide Seen, SameAbove;
  }

  lemma {:induction false} SelectorsSum(x: Limbs, y: Limbs, m: Limbs)
    requires forall j :: 0 <= j < 4 ==> m[j] == SelectorOf(x, y, j)
    ensures MultSum(m) == Flag(x != y)
  {
    SeenMeans(x, y, m, 0);
    assert Seen(m, 0) == m[1] + m[2] + m[3] by {
      assert Seen(m, 2) == m[3] && Seen(m, 1) == Seen(m, 2) + m[2];
    }
    assert x == y <==> SameAbove(x, y, 0) && x[0] == y[0];
  }

  /** The comparison row of x and y meets every constraint. */
  lemma {:induction false} U32LtAccepted(p: int, x: word, y: word, mult: int)
    requires IsPrime(p) && p > 256
    ensures U32LtEval(p, U32LtRow(p, x, y, mult))
  {
    var r := U32LtRow(p, x, y, mult);
    ToLimbsValue(x);
    ToLimbsValue(y);
    hide ToLimbs, InverseOf, SelectorOf, Value;
    forall i | 0 <= i < 4
      ensures EqualByte(p, r.x[i], r.y[i], r.inverses[i], r.isEquals[i])
    {
      EqualByteAccepted(p, r.x, r.y, i);
    }
    RestAccepted(p, x, y, mult);
  }

  lemma {:induction false} RestAccepted(p: int, x: word, y: word, mult: int)
    requires IsPrime(p) && p > 256
    ensures var r := U32LtRow(p, x, y, mult);
            && (forall i :: 0 <= i < 4 ==> Bool(p, r.multLts[i]) && FirstDifference(p, r.multLts, r.isEquals, i))
            && Bool(p, MultSum(r.multLts)) && Eq(p, r.isEqual, 1 - MultSum(r.multLts))
  {
    var r := U32LtRow(p, x, y, mult);
    ToLimbsValue(x);
    ToLimbsValue(y);
    hide ToLimbs, InverseOf, SameAbove, Value, Bool, Eq, MultSum, FirstDifference;
    SelectorsSum(r.x, r.y, r.multLts);
    BitIsBool(p, MultSum(r.multLts));
    EqualsEq(p, r.isEqual, 1 - MultSum(r.multLts));
    forall i | 0 <= i < 4
      ensures Bool(p, r.multLts[i]) && FirstDifference(p, r.multLts, r.isEquals, i)
    {
      BitIsBool(p, r.multLts[i]);
      FirstDifferenceAccepted(p, r.x, r.y, r.multLts, r.isEquals, i);
    }
  }

  lemma {:induction false} U32LtPaddingAccepted(p: int)
    requires p > 0
    ensures U32LtEval(p, U32_LT_PADDING) && U32LtLookups(U32_LT_PADDING)
  {
    MultipleIsZero(p, 0);
  }

  /** The pair a comparison row sends is in the table exactly when x <= y. */
  lemma {:induction false} U32LtSendsTablePairs(p: int, x: word, y: word, mult: int)
    requires IsPrime(p) && p > 256
    ensures U32LtLookups(U32LtRow(p, x, y, mult)) <==> x <= y
  {
    var r := U32LtRow(p, x, y, mult);
    ToLimbsValue(x);
    ToLimbsValue(y);
    hide ToLimbs, InverseOf;
    assert SelectsDifference(r.x, r.y, r.multLts);
    assert SelectsDifference(r.y, r.x, r.multLts);
    if U32LtLookups(r) {
      DifferenceOrders(r.x, r.y, r.multLts);
    }
    if x <= y {
      if !U32LtLookups(r) {
        DifferenceOrders(r.y, r.x, r.multLts);
      }
    }
  }

  lemma {:induction false} U32LtBuiltResidues(p: int, x: word, y: word, mult: int)
    requires IsPrime(p) && p > 256
    ensures U32LtResidues(p, U32LtRow(p, x, y, mult)) && U32LtResidues(p, U32_LT_PADDING)
  {
    hide ToLimbs, InverseOf;
  }
}
