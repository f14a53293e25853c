/** The carries and borrows the trace builders compute, and that they satisfy the limb constraints. */
module U32Witness {
  import opened Words
  import opened Bits
  import opened PrimeField
  import opened U32Ops

  /** Carry out of limb i of x + y + first. */
  function Carry(x: Limbs, y: Limbs, first: int, i: nat): int
    requires i < 4
  {
    (x[i] + y[i] + if i == 0 then first else Carry(x, y, first, i - 1)) / 256
  }

  function CarriesOf(x: Limbs, y: Limbs, first: int): Limbs {
    [Carry(x, y, first, 0), Carry(x, y, first, 1), Carry(x, y, first, 2), Carry(x, y, first, 3)]
  }

  function SumLimb(x: Limbs, y: Limbs, first: int, i: nat): int
    requires i < 4
  {
    (x[i] + y[i] + CarryIn(first, CarriesOf(x, y, first), i)) % 256
  }

  function SumLimbs(x: Limbs, y: Limbs, first: int): Limbs {
    [SumLimb(x, y, first, 0), SumLimb(x, y, first, 1), SumLimb(x, y, first, 2), SumLimb(x, y, first, 3)]
  }

  lemma {:induction false} CarryIsBool(x: Limbs, y: Limbs, first: int, i: nat)
    requires i < 4 && AreBytes(x) && AreBytes(y) && (0 <= first <= 1 || (0 <= first <= 4 && y == ZERO_LIMBS))
    ensures Carry(x, y, first, i) == 0 || Carry(x, y, first, i) == 1
  {
    if i > 0 {
      CarryIsBool(x, y, first, i - 1);
    }
  }

  lemma {:induction false} SumLimbExact(x: Limbs, y: Limbs, first: int, i: nat)
    requires i < 4
    ensures var carries := CarriesOf(x, y, first);
            SumLimbs(x, y, first)[i] + CarryOut(carries, i) * 256 == x[i] + y[i] + CarryIn(first, carries, i)
  {
    var carries := CarriesOf(x, y, first);
    assert carries[i] == (x[i] + y[i] + CarryIn(first, carries, i)) / 256;
  }

  /** The limb sums are the limbs of the wrapped sum, and the top carry is its overflow. */
  lemma {:induction false} SumLimbsMean(x: word, y: word, first: int)
    requires 0 <= first <= 1 || (0 <= first <= 4 && y == 0)
    ensures SumLimbs(ToLimbs(x), ToLimbs(y), first) == ToLimbs(Wrap(x + y + first))
    ensures AreBits(CarriesOf(ToLimbs(x), ToLimbs(y), first))
    ensures x + y + first < TWO32 ==> Carry(ToLimbs(x), ToLimbs(y), first, 3) == 0
  {
    hide ToLimbs, Wrap;
    var xb, yb := ToLimbs(x), ToLimbs(y);
    ToLimbsValue(x);
    ToLimbsValue(y);
    var sum, carries := SumLimbs(xb, yb, first), CarriesOf(xb, yb, first);
    SumsTelescope(xb, yb, first);
    ValueToLimbs(sum);
    WrapIs(x + y + first, carries[3], Value(sum));
  }

  lemma {:induction false} SumsTelescope(x: Limbs, y: Limbs, first: int)
    requires AreBytes(x) && AreBytes(y) && (0 <= first <= 1 || (0 <= first <= 4 && y == ZERO_LIMBS))
    ensures AreBits(CarriesOf(x, y, first)) && AreBytes(SumLimbs(x, y, first))
    ensures Value(SumLimbs(x, y, first)) + TWO32 * Carry(x, y, first, 3) == Value(x) + Value(y) + first
  {
    forall i | 0 <= i < 4
      ensures Carry(x, y, first, i) == 0 || Carry(x, y, first, i) == 1
    {
      CarryIsBool(x, y, first, i);
    }
    forall i | 0 <= i < 4
      ensures var carries := CarriesOf(x, y, first);
              SumLimbs(x, y, first)[i] + CarryOut(carries, i) * 256 == x[i] + y[i] + CarryIn(first, carries, i)
    {
      SumLimbExact(x, y, first, i);
    }
    AddTelescopes(x, y, SumLimbs(x, y, first), first, CarriesOf(x, y, first));
  }

  lemma {:induction false} AddLimbWitness(p: int, x: Limbs, y: Limbs, first: int, carries: seq<int>, i: nat)
    requires p > 0 && i < 4 && |carries| >= 3
    requires forall j :: 0 <= j < 4 ==> CarryOut(carries, j) == Carry(x, y, first, j)
    ensures AddLimb(p, x, y, SumLimbs(x, y, first), first, carries, i)
  {
    SumLimbExact(x, y, first, i);
    assert i > 0 ==> carries[i - 1] == CarryOut(carries, i - 1);
    assert CarryIn(first, carries, i) == CarryIn(first, CarriesOf(x, y, first), i);
    MultipleIsZero(p, 0);
  }

  lemma {:induction false} Witness(p: int, x: Limbs, y: Limbs, sum: Limbs, first: int, carries: seq<int>)
    requires p > 1 && |carries| >= 3 && AreBits(carries) && sum == SumLimbs(x, y, first)
    requires forall j :: 0 <= j < 4 ==> CarryOut(carries, j) == Carry(x, y, first, j)
    ensures BoolColumns(p, carries)
    ensures forall i :: 0 <= i < 4 ==> AddLimb(p, x, y, sum, first, carries, i)
  {
    BoolsAccepted(p, carries);
    forall i | 0 <= i < 4
      ensures AddLimb(p, x, y, sum, first, carries, i)
    {
      AddLimbWitness(p, x, y, first, carries, i);
    }
  }

  lemma {:induction false} FirstThree(x: Limbs, y: Limbs, first: int)
    requires AreBits(CarriesOf(x, y, first)) && Carry(x, y, first, 3) == 0
    ensures var carries := CarriesOf(x, y, first)[..3];
            AreBits(carries) && forall j :: 0 <= j < 4 ==> CarryOut(carries, j) == Carry(x, y, first, j)
  {
  }

  // When the limbs of a sum are bytes.

  /** An accepted sum of bytes has byte limbs exactly when its carry columns are the carries. */
  lemma {:induction false} CarriesDecideBytes(p: int, x: Limbs, y: Limbs, sum: Limbs, first: int, carries: seq<int>)
    requires p > MIN_FIELD && |carries| >= 3 && AreBits(carries) && AreBytes(x) && AreBytes(y)
    requires 0 <= first <= 1 || (0 <= first <= 4 && y == ZERO_LIMBS)
    requires forall i :: 0 <= i < 4 ==> Residue(p, sum[i]) && AddLimb(p, x, y, sum, first, carries, i)
    ensures AreBytes(sum) <==> forall i :: 0 <= i < 4 ==> CarryOut(carries, i) == Carry(x, y, first, i)
  {
    if AreBytes(sum) {
      ByteCarry(p, x, y, sum, first, carries, 0);
      ByteCarry(p, x, y, sum, first, carries, 1);
      ByteCarry(p, x, y, sum, first, carries, 2);
      ByteCarry(p, x, y, sum, first, carries, 3);
    } else if forall i :: 0 <= i < 4 ==> CarryOut(carries, i) == Carry(x, y, first, i) {
      CarryByte(p, x, y, sum, first, carries, 0);
      CarryByte(p, x, y, sum, first, carries, 1);
      CarryByte(p, x, y, sum, first, carries, 2);
      CarryByte(p, x, y, sum, first, carries, 3);
    }
  }

  lemma {:induction false} ByteCarry(p: int, x: Limbs, y: Limbs, sum: Limbs, first: int, carries: seq<int>, i: nat)
    requires p > MIN_FIELD && i < 4 && |carries| >= 3 && AreBits(carries) && AreBytes(x) && AreBytes(y) && AreBytes(sum)
    requires 0 <= first <= 4 && AddLimb(p, x, y, sum, first, carries, i)
    requires i > 0 ==> CarryOut(carries, i - 1) == Carry(x, y, first, i - 1)
    ensures CarryOut(carries, i) == Carry(x, y, first, i)
  {
    AddLimbExact(p, x, y, sum, first, carries, i);
  }

  lemma {:induction false} CarryByte(p: int, x: Limbs, y: Limbs, sum: Limbs, first: int, carries: seq<int>, i: nat)
    requires p > MIN_FIELD && i < 4 && |carries| >= 3 && AreBytes(x) && AreBytes(y)
    requires 0 <= first <= 1 || (0 <= first <= 4 && y == ZERO_LIMBS)
    requires Residue(p, sum[i]) && AddLimb(p, x, y, sum, first, carries, i)
    requires CarryOut(carries, i) == Carry(x, y, first, i) && (i > 0 ==> CarryOut(carries, i - 1) == Carry(x, y, first, i - 1))
    ensures IsByte(sum[i])
  {
    var total := x[i] + y[i] + CarryIn(first, carries, i);
    assert total - 256 * Carry(x, y, first, i) == total % 256;
    Lift(p, sum[i] - total % 256);
  }

  lemma {:induction false} AddWitness(p: int, x: word, y: word)
    requires p > 1
    ensures U32Add(p, ToLimbs(x), ToLimbs(y), ToLimbs(Wrap(x + y)), CarriesOf(ToLimbs(x), ToLimbs(y), 0))
  {
    SumLimbsMean(x, y, 0);
    Witness(p, ToLimbs(x), ToLimbs(y), ToLimbs(Wrap(x + y)), 0, CarriesOf(ToLimbs(x), ToLimbs(y), 0));
  }

  /** `pc_plus4_carries` */
  function PcPlus4Carries(pc: word): Carries3 {
    CarriesOf(ToLimbs(pc), ZERO_LIMBS, 4)[..3]
  }

  lemma {:induction false} PlusFourWitness(p: int, pc: word)
    requires p > 1 && pc + 4 < TWO32
    ensures U32PlusFour(p, ToLimbs(pc), ToLimbs(pc + 4), PcPlus4Carries(pc))
  {
    ZeroWord();
    hide ToLimbs, Carry, SumLimbs;
    SumLimbsMean(pc, 0, 4);
    FirstThree(ToLimbs(pc), ZERO_LIMBS, 4);
    Witness(p, ToLimbs(pc), ZERO_LIMBS, ToLimbs(pc + 4), 4, PcPlus4Carries(pc));
  }

  lemma {:induction false} IncWitness(p: int, x: word)
    requires p > 1
    ensures U32Inc(p, ToLimbs(x), ToLimbs(Wrap(x + 1)), CarriesOf(ToLimbs(x), ZERO_LIMBS, 1))
  {
    ZeroWord();
    hide ToLimbs, Carry, SumLimbs;
    SumLimbsMean(x, 0, 1);
    Witness(p, ToLimbs(x), ZERO_LIMBS, ToLimbs(Wrap(x + 1)), 1, CarriesOf(ToLimbs(x), ZERO_LIMBS, 1));
  }

  /** The carry loop of the JAL trace builder. */
  method U32AddCarries(x: word, y: word) returns (carries: Limbs)
    ensures carries == CarriesOf(ToLimbs(x), ToLimbs(y), 0)
  {
    var xb, yb := ToLimbs(x), ToLimbs(y);
    var acc: seq<int> := [];
    var carry := 0;
    for i := 0 to 4
      invariant |acc| == i
      invariant carry == if i == 0 then 0 else Carry(xb, yb, 0, i - 1)
      invariant forall j :: 0 <= j < i ==> acc[j] == Carry(xb, yb, 0, j)
    {
      var sum := xb[i] + yb[i] + carry;
      carry := sum / 256;
      acc := acc + [carry];
    }
    carries := acc;
  }

  /** Borrow out of limb i of x - y. */
  function Borrow(x: Limbs, y: Limbs, i: nat): int
    requires i < 4
  {
    if x[i] < y[i] + (if i == 0 then 0 else Borrow(x, y, i - 1)) then 1 else 0
  }

  function BorrowsOf(x: Limbs, y: Limbs): Limbs {
    [Borrow(x, y, 0), Borrow(x, y, 1), Borrow(x, y, 2), Borrow(x, y, 3)]
  }

  function DiffLimb(x: Limbs, y: Limbs, i: nat): int
    requires i < 4
  {
    x[i] - y[i] - CarryIn(0, BorrowsOf(x, y), i) + 256 * Borrow(x, y, i)
  }

  function DiffLimbs(x: Limbs, y: Limbs): Limbs {
    [DiffLimb(x, y, 0), DiffLimb(x, y, 1), DiffLimb(x, y, 2), DiffLimb(x, y, 3)]
  }

  lemma {:induction false} DiffLimbsMean(x: word, y: word)
    ensures DiffLimbs(ToLimbs(x), ToLimbs(y)) == ToLimbs(Wrap(x - y))
    ensures Borrow(ToLimbs(x), ToLimbs(y), 3) == if x < y then 1 else 0
  {
    hide ToLimbs, Wrap;
    var xb, yb := ToLimbs(x), ToLimbs(y);
    ToLimbsValue(x);
    ToLimbsValue(y);
    var diff, borrows := DiffLimbs(xb, yb), BorrowsOf(xb, yb);
    assert forall i :: 0 <= i < 4 ==> borrows[i] == Borrow(xb, yb, i);
    SubTelescopes(xb, yb, diff, borrows);
    ValueToLimbs(diff);
    WrapIs(x - y, -borrows[3], Value(diff));
  }

  lemma {:induction false} SubWitness(p: int, x: word, y: word)
    requires p > 1
    ensures U32Sub(p, ToLimbs(x), ToLimbs(y), ToLimbs(Wrap(x - y)), BorrowsOf(ToLimbs(x), ToLimbs(y)))
  {
    hide ToLimbs, Wrap;
    var xb, yb := ToLimbs(x), ToLimbs(y);
    DiffLimbsMean(x, y);
    var borrows := BorrowsOf(xb, yb);
    BoolsAccepted(p, borrows);
    MultipleIsZero(p, 0);
    forall i | 0 <= i < 4
      ensures Eq(p, xb[i] + borrows[i] * 256, yb[i] + CarryIn(0, borrows, i) + ToLimbs(Wrap(x - y))[i])
    {
      assert DiffLimbs(xb, yb)[i] == DiffLimb(xb, yb, i) && borrows[i] == Borrow(xb, yb, i);
    }
  }

  /** The borrow loop of the SLT trace builder: subtract, and borrow when the limb goes negative. */
  method SltBorrows(rs1: word, rs2: word) returns (diff: Limbs, borrows: Limbs)
    ensures borrows == BorrowsOf(ToLimbs(rs1), ToLimbs(rs2))
    ensures diff == ToLimbs(Wrap(rs1 - rs2))
  {
    hide ToLimbs, Wrap;
    var a, b := ToLimbs(rs1), ToLimbs(rs2);
    var d: seq<int>, w: seq<int> := [], [];
    var borrowIn := 0;
    for i := 0 to 4
      invariant |d| == |w| == i
      invariant borrowIn == if i == 0 then 0 else Borrow(a, b, i - 1)
      invariant forall j :: 0 <= j < i ==> w[j] == Borrow(a, b, j) && d[j] == DiffLimb(a, b, j)
    {
      var sub := a[i] - b[i] - borrowIn;
      assert borrowIn == CarryIn(0, BorrowsOf(a, b), i);
      if sub < 0 {
        d, w := d + [sub + 256], w + [1];
      } else {
        d, w := d + [sub], w + [0];
      }
      borrowIn := w[i];
    }
    diff, borrows := d, w;
    assert diff == DiffLimbs(a, b);
    DiffLimbsMean(rs1, rs2);
  }

  /** The borrow loop of the SUB trace builder: compare the limb with its subtrahend and borrow. */
  method SubBorrows(x: word, y: word) returns (borrows: Limbs)
    ensures borrows == BorrowsOf(ToLimbs(x), ToLimbs(y))
  {
    var xb, yb := ToLimbs(x), ToLimbs(y);
    var w: seq<int> := [];
    var borrow := 0;
    for i := 0 to 4
      invariant |w| == i
      invariant borrow == if i == 0 then 0 else Borrow(xb, yb, i - 1)
      invariant forall j :: 0 <= j < i ==> w[j] == Borrow(xb, yb, j)
    {
      var lhs, rhs := xb[i], yb[i] + borrow;
      borrow := if lhs < rhs then 1 else 0;
      w := w + [borrow];
    }
    borrows := w;
  }
}
