/** The program table: one byte per row, its address counted up limb by limb. */
module ProgramRom {
  import opened Words
  import opened PrimeField
  import opened U32Ops
  import opened Bus

  datatype ProgramColumns = ProgramColumns(
    address: Limbs, value: int, mult: int, incCarries: Limbs, isReal: int)

  predicate RomRow(p: int, r: ProgramColumns)
    requires p > 0
  {
    && Zero(p, r.incCarries[3]) && Zero(p, r.address[3])
    && Bool(p, r.isReal) && Zero(p, r.mult * (1 - r.isReal))
  }

  ghost predicate RomTransition(p: int, local: ProgramColumns, next: ProgramColumns)
    requires p > 0
  {
    && U32Inc(p, local.address, next.address, local.incCarries)
    && Zero(p, (1 - local.isReal) * next.isReal)
  }

  predicate ZeroAddress(p: int, address: Limbs)
    requires p > 0
  {
    Zero(p, address[0]) && Zero(p, address[1]) && Zero(p, address[2]) && Zero(p, address[3])
  }

  ghost predicate RomEval(p: int, rows: seq<ProgramColumns>)
    requires p > 0
  {
    && (|rows| > 0 ==> ZeroAddress(p, rows[0].address))
    && (forall i :: 0 <= i < |rows| ==> RomRow(p, rows[i]))
    && forall i :: 0 <= i < |rows| - 1 ==> RomStepsAt(p, rows, i)
  }

  ghost predicate RomStepsAt(p: int, rows: seq<ProgramColumns>, i: nat)
    requires p > 0 && i < |rows| - 1
  {
    RomTransition(p, rows[i], rows[i + 1])
  }

  /** A tuple of the program_image bus: an address in one field element, and a byte. */
  datatype ImageTuple = ImageTuple(address: int, value: int)

  function ImageReceives(p: int, rows: seq<ProgramColumns>): seq<Entry<ImageTuple>>
    requires p > 0
  {
    seq(|rows|, i requires 0 <= i < |rows| =>
      Entry(ImageTuple(Reduce(p, Value(rows[i].address)), rows[i].value), rows[i].isReal))
  }

  /** A tuple of the program bus: four address limbs and a byte. */
  datatype FetchTuple = FetchTuple(address: Limbs, value: int)

  function FetchReceives(rows: seq<ProgramColumns>): seq<Entry<FetchTuple>> {
    seq(|rows|, i requires 0 <= i < |rows| => Entry(FetchTuple(rows[i].address, rows[i].value), rows[i].mult))
  }

  // The address chain.

  lemma {:induction false} ScaledZero(p: int, k: int, a: int, b: int)
    requires p > 0 && Eq(p, a, b)
    ensures Eq(p, k * a, k * b)
  {
    ZeroScale(p, k, a - b);
    assert k * (a - b) == k * a - k * b;
  }

  lemma {:induction false} SumZero(p: int, a: int, b: int, c: int, d: int)
    requires p > 0 && Eq(p, a, b) && Eq(p, c, d)
    ensures Eq(p, a + c, b + d)
  {
    ZeroAdd(p, a - b, c - d);
  }

  /** The weighted sum of the four limb equations of an increment. */
  lemma {:induction false} IncSums(p: int, x: Limbs, y: Limbs, c: Limbs)
    requires p > 0 && forall i :: 0 <= i < 4 ==> AddLimb(p, x, ZERO_LIMBS, y, 1, c, i)
    ensures Eq(p, Value(y) + TWO32 * c[3], Value(x) + 1)
  {
    assert AddLimb(p, x, ZERO_LIMBS, y, 1, c, 0) && AddLimb(p, x, ZERO_LIMBS, y, 1, c, 1);
    assert AddLimb(p, x, ZERO_LIMBS, y, 1, c, 2) && AddLimb(p, x, ZERO_LIMBS, y, 1, c, 3);
    hide AddLimb;
    FourLimbs(p, x, y, c);
  }

  lemma {:induction false} FourLimbs(p: int, x: Limbs, y: Limbs, c: Limbs)
    requires p > 0
    requires AddLimb(p, x, ZERO_LIMBS, y, 1, c, 0) && AddLimb(p, x, ZERO_LIMBS, y, 1, c, 1)
    requires AddLimb(p, x, ZERO_LIMBS, y, 1, c, 2) && AddLimb(p, x, ZERO_LIMBS, y, 1, c, 3)
    ensures Eq(p, Value(y) + TWO32 * c[3], Value(x) + 1)
  {
    LimbEquation(p, x, y, c, 0);
    LimbEquation(p, x, y, c, 1);
    LimbEquation(p, x, y, c, 2);
    LimbEquation(p, x, y, c, 3);
    hide AddLimb, Eq;
    var l0, r0 := y[0] + 256 * c[0], x[0] + 1;
    var l1, r1 := 256 * (y[1] + 256 * c[1]), 256 * (x[1] + c[0]);
    var l2, r2 := 65536 * (y[2] + 256 * c[2]), 65536 * (x[2] + c[1]);
    var l3, r3 := 16777216 * (y[3] + 256 * c[3]), 16777216 * (x[3] + c[2]);
    ScaledZero(p, 256, y[1] + 256 * c[1], x[1] + c[0]);
    ScaledZero(p, 65536, y[2] + 256 * c[2], x[2] + c[1]);
    ScaledZero(p, 16777216, y[3] + 256 * c[3], x[3] + c[2]);
    SumZero(p, l0, r0, l1, r1);
    SumZero(p, l0 + l1, r0 + r1, l2, r2);
    SumZero(p, l0 + l1 + l2, r0 + r1 + r2, l3, r3);
    CancelCarries(p, x, y, c);
  }

  lemma {:induction false} LimbEquation(p: int, x: Limbs, y: Limbs, c: Limbs, i: nat)
    requires p > 0 && i < 4 && AddLimb(p, x, ZERO_LIMBS, y, 1, c, i)
    ensures Eq(p, y[i] + 256 * c[i], x[i] + if i == 0 then 1 else c[i - 1])
  {
  }

  lemma {:induction false} CancelCarries(p: int, x: Limbs, y: Limbs, c: Limbs)
    requires p > 0
    requires Eq(p, y[0] + 256 * c[0] + 256 * (y[1] + 256 * c[1]) + 65536 * (y[2] + 256 * c[2]) + 16777216 * (y[3] + 256 * c[3]),
                x[0] + 1 + 256 * (x[1] + c[0]) + 65536 * (x[2] + c[1]) + 16777216 * (x[3] + c[2]))
    ensures Eq(p, Value(y) + TWO32 * c[3], Value(x) + 1)
  {
  }

  /** The packed address of row i is i as a field element, whatever the limbs are. */
  lemma {:induction false} AddressIsIndex(p: int, rows: seq<ProgramColumns>, i: nat)
    requires p > 0 && RomEval(p, rows) && i < |rows|
    ensures Eq(p, Value(rows[i].address), i)
  {
    if i == 0 {
      var a := rows[0].address;
      EqSum(p, a);
    } else {
      AddressIsIndex(p, rows, i - 1);
      var k := i - 1;
      assert RomStepsAt(p, rows, k) && RomRow(p, rows[k]);
      var x, y, c := rows[k].address, rows[i].address, rows[k].incCarries;
      IncSums(p, x, y, c);
      hide RomEval, RomTransition, Value;
      ZeroScale(p, TWO32, c[3]);
      ZeroAdd(p, Value(y) + TWO32 * c[3] - (Value(x) + 1), TWO32 * c[3]);
      ZeroAdd(p, Value(y) - (Value(x) + 1), Value(x) - k);
    }
  }

  lemma {:induction false} EqSum(p: int, a: Limbs)
    requires p > 0 && ZeroAddress(p, a)
    ensures Eq(p, Value(a), 0)
  {
    ZeroScale(p, 256, a[1]);
    ZeroScale(p, 65536, a[2]);
    ZeroScale(p, 16777216, a[3]);
    ZeroAdd(p, a[0], 256 * a[1]);
    ZeroAdd(p, a[0] + 256 * a[1], 65536 * a[2]);
    ZeroAdd(p, a[0] + 256 * a[1] + 65536 * a[2], 16777216 * a[3]);
  }

  // Real rows.

  ghost predicate RomResidues(p: int, rows: seq<ProgramColumns>) {
    forall i :: 0 <= i < |rows| ==> Residue(p, rows[i].isReal) && Residue(p, rows[i].mult)
  }

  function RealRows(rows: seq<ProgramColumns>): (n: nat)
    ensures n <= |rows|
    ensures forall i :: 0 <= i < n ==> rows[i].isReal == 1
    ensures n < |rows| ==> rows[n].isReal != 1
  {
    if |rows| == 0 || rows[0].isReal != 1 then 0 else 1 + RealRows(rows[1..])
  }

  lemma {:induction false} FallsForced(p: int, a: int, b: int)
    requires p > 1 && a == 0 && Residue(p, b) && Zero(p, (1 - a) * b)
    ensures b == 0
  {
    Lift(p, b);
  }

  /** Padding rows follow the real rows, and nothing is fetched from them. */
  lemma {:induction false} RomPadding(p: int, rows: seq<ProgramColumns>, i: nat)
    requires IsPrime(p) && RomResidues(p, rows) && RomEval(p, rows) && RealRows(rows) <= i < |rows|
    ensures rows[i].isReal == 0 && rows[i].mult == 0
    decreases i
  {
    assert RomRow(p, rows[i]);
    BoolResidue(p, rows[i].isReal);
    if i > RealRows(rows) {
      var k := i - 1;
      RomPadding(p, rows, k);
      assert RomStepsAt(p, rows, k);
      hide RomEval, U32Inc;
      FallsForced(p, rows[k].isReal, rows[k + 1].isReal);
    }
    NoFetch(p, rows[i].mult, rows[i].isReal);
  }

  lemma {:induction false} NoFetch(p: int, mult: int, isReal: int)
    requires p > 1 && Residue(p, mult) && isReal == 0 && Zero(p, mult * (1 - isReal))
    ensures mult == 0
  {
    Lift(p, mult);
  }

  /** The bytes the table commits to. */
  function RomBytes(rows: seq<ProgramColumns>): seq<int> {
    seq(RealRows(rows), i requires 0 <= i < RealRows(rows) => rows[i].value)
  }

  /** The tuples of a byte string: byte k at address k. */
  function Image(bytes: seq<int>): seq<ImageTuple> {
    seq(|bytes|, k requires 0 <= k < |bytes| => ImageTuple(k, bytes[k]))
  }

  lemma {:induction false} ReducedIndex(p: int, x: int, i: nat)
    requires i < p && Eq(p, x, i)
    ensures Reduce(p, x) == i
  {
    ReduceEq(p, x);
    ZeroAdd(p, x - Reduce(p, x), x - i);
    Lift(p, i - Reduce(p, x));
  }

  lemma {:induction false} ReceiveAt(p: int, rows: seq<ProgramColumns>, i: nat)
    requires IsPrime(p) && RomResidues(p, rows) && RomEval(p, rows) && |rows| <= p && i < |rows|
    ensures ImageReceives(p, rows)[i] == Entry(ImageTuple(i, rows[i].value), if i < RealRows(rows) then 1 else 0)
  {
    AddressIsIndex(p, rows, i);
    if i >= RealRows(rows) {
      RomPadding(p, rows, i);
    }
    hide RomEval, RomResidues, Value;
    ReducedIndex(p, Value(rows[i].address), i);
  }

  lemma {:induction false} LiveReceives(p: int, rows: seq<ProgramColumns>, n: nat)
    requires IsPrime(p) && RomResidues(p, rows) && RomEval(p, rows) && |rows| <= p && n <= RealRows(rows)
    ensures Live(ImageReceives(p, rows)[..n]) == Image(RomBytes(rows))[..n]
  {
    if n > 0 {
      LiveReceives(p, rows, n - 1);
      ReceiveAt(p, rows, n - 1);
      hide RomEval, RomResidues, ImageReceives;
      LiveNext(ImageReceives(p, rows), n - 1);
      assert Image(RomBytes(rows))[..n] == Image(RomBytes(rows))[..n - 1] + [Image(RomBytes(rows))[n - 1]];
    }
  }

  /** The table offers byte k of the program at address k, once each, and nothing else. */
  lemma {:induction false} RomOffersImage(p: int, rows: seq<ProgramColumns>)
    requires IsPrime(p) && RomResidues(p, rows) && RomEval(p, rows) && |rows| <= p
    ensures Live(ImageReceives(p, rows)) == Image(RomBytes(rows)) && Selectors(ImageReceives(p, rows))
  {
    var receives, n := ImageReceives(p, rows), RealRows(rows);
    forall i | 0 <= i < |rows| ensures receives[i].multiplicity == if i < n then 1 else 0 {
      ReceiveAt(p, rows, i);
    }
    LiveReceives(p, rows, n);
    hide RomEval, RomResidues, ImageReceives;
    LivePrefix(receives, n);
    assert Image(RomBytes(rows))[..n] == Image(RomBytes(rows));
  }
}
