/** The preprocessed lookup tables for byte shifts and byte comparison. */
module ByteTables {
  import opened Division
  import opened Words

  datatype ShiftRow = ShiftRow(byteVal: int, bitShamt: int, shifted: int, carry: int)

  function SllRow(b: byte, s: nat): ShiftRow
    requires s < 8
  {
    ShiftRow(b, s, (b * Pow2(s)) % 256, if s == 0 then 0 else b / Pow2(8 - s))
  }

  function SrlRow(b: byte, s: nat): ShiftRow
    requires s < 8
  {
    ShiftRow(b, s, b / Pow2(s), if s == 0 then 0 else (b * Pow2(8 - s)) % 256)
  }

  /** A tuple the `byte_sll` table offers. */
  predicate InSllTable(r: ShiftRow) {
    IsByte(r.byteVal) && 0 <= r.bitShamt < 8 && r == SllRow(r.byteVal, r.bitShamt)
  }

  /** A tuple the `byte_srl` table offers. */
  predicate InSrlTable(r: ShiftRow) {
    IsByte(r.byteVal) && 0 <= r.bitShamt < 8 && r == SrlRow(r.byteVal, r.bitShamt)
  }

  /** The table of byte left shifts: row b * 8 + s holds byte b and amount s. */
  method ShiftLeftTable() returns (rows: seq<ShiftRow>)
    ensures |rows| == 2048
    ensures forall k :: 0 <= k < 2048 ==> rows[k] == SllRow(k / 8, k % 8)
  {
    hide SllRow;
    rows := [];
    for b := 0 to 256
      invariant |rows| == b * 8
      invariant forall k :: 0 <= k < |rows| ==> rows[k] == SllRow(k / 8, k % 8)
    {
      for s := 0 to 8
        invariant |rows| == b * 8 + s
        invariant forall k :: 0 <= k < |rows| ==> rows[k] == SllRow(k / 8, k % 8)
      {
        rows := rows + [SllRow(b, s)];
      }
    }
  }

  /** The table of byte right shifts: row b * 8 + s holds byte b and amount s. */
  method ShiftRightTable() returns (rows: seq<ShiftRow>)
    ensures |rows| == 2048
    ensures forall k :: 0 <= k < 2048 ==> rows[k] == SrlRow(k / 8, k % 8)
  {
    hide SrlRow;
    rows := [];
    for b := 0 to 256
      invariant |rows| == b * 8
      invariant forall k :: 0 <= k < |rows| ==> rows[k] == SrlRow(k / 8, k % 8)
    {
      for s := 0 to 8
        invariant |rows| == b * 8 + s
        invariant forall k :: 0 <= k < |rows| ==> rows[k] == SrlRow(k / 8, k % 8)
      {
        rows := rows + [SrlRow(b, s)];
      }
    }
  }

  lemma {:induction false} PowersMultiply(s: nat)
    requires s <= 8
    ensures Pow2(s) * Pow2(8 - s) == 256
  {
    Pow2Sum(s, 8 - s);
    assert Pow2(4) == 16 && Pow2(8) == 256;
  }

  lemma {:induction false} SplitProduct(b: byte, m: nat, n: nat)
    requires m > 0 && n > 0 && m * n == 256
    ensures (b * m) % 256 + 256 * (b / n) == m * b
    ensures 0 <= b / n < m && (b * m) % 256 + m <= 256
  {
    var q, r := b / n, b % n;
    QuotientBounds(b, n);
    assert b == q * n + r;
    calc {
      b * m;
      (q * n + r) * m;
      q * (m * n) + r * m;
      q * 256 + r * m;
    }
    ProductOrder(m, r, n - 1);
    assert m * (n - 1) == 256 - m;
    RemainderUnique(256, q, r * m);
    if m <= q {
      ProductOrder(n, m, q);
    }
  }

  /** A left shift row splits the product b * 2^s into a high and a low byte. */
  lemma {:induction false} SllRowSplits(r: ShiftRow)
    requires InSllTable(r)
    ensures r.shifted + 256 * r.carry == Pow2(r.bitShamt) * r.byteVal
    ensures 0 <= r.shifted && r.shifted + Pow2(r.bitShamt) <= 256 && 0 <= r.carry < Pow2(r.bitShamt)
  {
    PowersMultiply(r.bitShamt);
    if r.bitShamt > 0 {
      SplitProduct(r.byteVal, Pow2(r.bitShamt), Pow2(8 - r.bitShamt));
    }
  }

  /** A right shift row splits the product b * 2^(8-s) into a high and a low byte. */
  lemma {:induction false} SrlRowSplits(r: ShiftRow)
    requires InSrlTable(r)
    ensures r.carry + 256 * r.shifted == Pow2(8 - r.bitShamt) * r.byteVal
    ensures 0 <= r.carry && r.carry + Pow2(8 - r.bitShamt) <= 256 && 0 <= r.shifted < Pow2(8 - r.bitShamt)
  {
    PowersMultiply(r.bitShamt);
    if r.bitShamt > 0 {
      SplitProduct(r.byteVal, Pow2(8 - r.bitShamt), Pow2(r.bitShamt));
    }
  }

  // Pairs of bytes x < y.

  function Triangle(y: nat): nat {
    y * (y - 1) / 2
  }

  lemma {:induction false} TriangleNext(y: nat)
    ensures Triangle(y + 1) == Triangle(y) + y
  {
    assert (y + 1) * y == y * (y - 1) + 2 * y;
  }

  /** The row of the pair (x, y) in the comparison table. */
  function PairIndex(x: nat, y: nat): nat {
    Triangle(y) + x
  }

  lemma {:induction false} TriangleGrows(y: nat, z: nat)
    requires y < z
    ensures Triangle(y) + y <= Triangle(z)
    decreases z
  {
    TriangleNext(z - 1);
    if y < z - 1 {
      TriangleGrows(y, z - 1);
    }
  }

  lemma {:induction false} PairIndexInjective(x: nat, y: nat, u: nat, v: nat)
    requires x < y && u < v && PairIndex(x, y) == PairIndex(u, v)
    ensures x == u && y == v
  {
    hide Triangle;
    if y < v {
      TriangleGrows(y, v);
    } else if v < y {
      TriangleGrows(v, y);
    }
  }

  lemma {:induction false} PairIndexBound(x: nat, y: nat)
    requires x < y < 256
    ensures PairIndex(x, y) < 32640
  {
    TriangleGrows(y, 256);
  }

  const NUM_VALID_PAIRS := 32640
  const NUM_PAIR_ROWS := 32768

  /** The comparison table: pair (x, y) with x < y at its index, then rows (0, 0). */
  method PairTable() returns (rows: seq<(int, int)>)
    ensures |rows| == NUM_PAIR_ROWS
    ensures forall x, y :: 0 <= x < y < 256 ==> PairIndex(x, y) < NUM_VALID_PAIRS && rows[PairIndex(x, y)] == (x, y)
    ensures forall k :: 0 <= k < NUM_VALID_PAIRS ==> IsPairAt(rows[k], k)
    ensures forall k :: NUM_VALID_PAIRS <= k < NUM_PAIR_ROWS ==> rows[k] == (0, 0)
  {
    TriangleEnds();
    rows := PairRows();
    forall x, y | 0 <= x < y < 256
      ensures PairIndex(x, y) < NUM_VALID_PAIRS && rows[PairIndex(x, y)] == (x, y)
    {
      PairIndexBound(x, y);
      var pair := rows[PairIndex(x, y)];
      PairIndexInjective(x, y, pair.0, pair.1);
    }
    while |rows| < NUM_PAIR_ROWS
      invariant NUM_VALID_PAIRS <= |rows| <= NUM_PAIR_ROWS
      invariant forall x, y :: 0 <= x < y < 256 ==> PairIndex(x, y) < NUM_VALID_PAIRS && rows[PairIndex(x, y)] == (x, y)
      invariant forall k :: 0 <= k < NUM_VALID_PAIRS ==> IsPairAt(rows[k], k)
      invariant forall k :: NUM_VALID_PAIRS <= k < |rows| ==> rows[k] == (0, 0)
    {
      rows := rows + [(0, 0)];
    }
  }

  lemma {:induction false} TriangleEnds()
    ensures Triangle(0) == 0 && Triangle(256) == NUM_VALID_PAIRS
  {
  }

  predicate IsPairAt(pair: (int, int), k: nat) {
    0 <= pair.0 < pair.1 < 256 && PairIndex(pair.0, pair.1) == k
  }

  method PairRows() returns (rows: seq<(int, int)>)
    ensures |rows| == NUM_VALID_PAIRS
    ensures forall k :: 0 <= k < |rows| ==> IsPairAt(rows[k], k)
  {
    TriangleEnds();
    hide Triangle;
    rows := [];
    for y := 0 to 256
      invariant |rows| == Triangle(y)
      invariant forall k :: 0 <= k < |rows| ==> IsPairAt(rows[k], k)
    {
      for x := 0 to y
        invariant |rows| == PairIndex(x, y)
        invariant forall k :: 0 <= k < |rows| ==> IsPairAt(rows[k], k)
      {
        rows := rows + [(x, y)];
      }
      TriangleNext(y);
    }
  }
}
