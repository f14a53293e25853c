/** The program-hash table: accepted tables expose the digest of exactly the bytes they absorb. */
module ProgramHash {
  import opened PrimeField
  import opened Bus
  import opened Sponge
  import opened ProgramRom

  type Row24 = s: seq<int> | |s| == 24
    witness [0, 0, 0, 0, 0, 0, 0, 0, 0, 0, 0, 0, 0, 0, 0, 0, 0, 0, 0, 0, 0, 0, 0, 0]

  datatype HashColumns = HashColumns(
    state: State, bytes: Row24, baseAddr: int, isActive: Row24, flag: int, cumActive: int,
    permIn: State, permOut: State)

  // Constraints of one row.

  predicate ActiveConstraints(p: int, flag: int, active: Row24)
    requires p > 0
  {
    && (forall i :: 0 <= i < 24 ==> Bool(p, active[i]))
    && (forall i :: 0 <= i < 23 ==> Zero(p, active[i + 1] * (1 - active[i])))
    && (forall i :: 0 <= i < 24 ==> Zero(p, (1 - flag) * active[i]))
    && Eq(p, active[0], flag)
  }

  predicate InactiveAreZero(p: int, active: Row24, bytes: Row24)
    requires p > 0
  {
    forall i :: 0 <= i < 24 ==> Zero(p, (1 - active[i]) * bytes[i])
  }

  predicate StateConstraints(p: int, flag: int, state: State, permOut: State)
    requires p > 0
  {
    forall i :: 0 <= i < 16 ==> Zero(p, (1 - flag) * state[i]) && Zero(p, flag * (state[i] - permOut[i]))
  }

  predicate HashRow(p: int, r: HashColumns)
    requires p > 0
  {
    && Bool(p, r.flag) && ActiveConstraints(p, r.flag, r.isActive)
    && InactiveAreZero(p, r.isActive, r.bytes) && StateConstraints(p, r.flag, r.state, r.permOut)
  }

  /** Lane g of the packed columns. */
  function PackedColumns(bytes: Row24, g: nat): int
    requires g < 8
  {
    bytes[3 * g] + bytes[3 * g + 1] * 256 + bytes[3 * g + 2] * 65536
  }

  predicate AbsorbConstraints(p: int, flag: int, permIn: State, nextState: State, bytes: Row24)
    requires p > 0
  {
    && (forall g :: 0 <= g < 8 ==> Zero(p, flag * (permIn[g] - nextState[g] - PackedColumns(bytes, g))))
    && (forall g :: 8 <= g < 16 ==> Zero(p, flag * (permIn[g] - nextState[g])))
  }

  /** `row_sum` */
  function SumTo(active: seq<int>, n: nat): int
    requires n <= |active|
  {
    if n == 0 then 0 else SumTo(active, n - 1) + active[n - 1]
  }

  /** The accumulation loop of `row_sum` and `next_row_sum`. */
  method SumRow(active: Row24) returns (rowSum: int)
    ensures rowSum == SumTo(active, 24)
  {
    rowSum := 0;
    for i := 0 to 24
      invariant rowSum == SumTo(active, i)
    {
      rowSum := rowSum + active[i];
    }
  }

  predicate HashTransition(p: int, local: HashColumns, next: HashColumns)
    requires p > 0
  {
    && Zero(p, next.flag * (1 - local.flag))
    && Zero(p, local.flag * next.flag * (1 - local.isActive[23]))
    && Eq(p, next.baseAddr, local.baseAddr + 24)
    && Eq(p, next.cumActive, local.cumActive + SumTo(next.isActive, 24))
  }

  predicate FirstRow(p: int, r: HashColumns, digest: seq<int>)
    requires p > 0 && |digest| == 8
  {
    && Zero(p, r.baseAddr) && Eq(p, r.cumActive, SumTo(r.isActive, 24))
    && forall i :: 0 <= i < 8 ==> Eq(p, r.state[i], digest[i])
  }

  predicate LastRow(p: int, r: HashColumns, length: int)
    requires p > 0
  {
    Zero(p, r.flag) && Eq(p, r.cumActive, length)
  }

  /** The row after row i, around the end. */
  function After(rows: seq<HashColumns>, i: nat): HashColumns
    requires i < |rows|
  {
    if i + 1 < |rows| then rows[i + 1] else rows[0]
  }

  ghost predicate HashEval(p: int, rows: seq<HashColumns>, digest: seq<int>, length: int)
    requires p > 0 && |rows| > 0 && |digest| == 8
  {
    && FirstRow(p, rows[0], digest) && LastRow(p, rows[|rows| - 1], length)
    && (forall i :: 0 <= i < |rows| ==> HashRow(p, rows[i]))
    && (forall i :: 0 <= i < |rows| ==> AbsorbsAt(p, rows, i))
    && forall i :: 0 <= i < |rows| - 1 ==> StepsAt(p, rows, i)
  }

  predicate AbsorbsAt(p: int, rows: seq<HashColumns>, i: nat)
    requires p > 0 && i < |rows|
  {
    AbsorbConstraints(p, rows[i].flag, rows[i].permIn, After(rows, i).state, rows[i].bytes)
  }

  predicate StepsAt(p: int, rows: seq<HashColumns>, i: nat)
    requires p > 0 && i < |rows| - 1
  {
    HashTransition(p, rows[i], rows[i + 1])
  }

  ghost predicate HashResidues(p: int, rows: seq<HashColumns>) {
    forall i :: 0 <= i < |rows| ==> RowResidues(p, rows[i])
  }

  ghost predicate RowResidues(p: int, r: HashColumns) {
    && Residue(p, r.flag) && Residue(p, r.cumActive)
    && (forall j :: 0 <= j < 24 ==> Residue(p, r.bytes[j]) && Residue(p, r.isActive[j]))
    && (forall j :: 0 <= j < 16 ==> Residue(p, r.state[j]) && Residue(p, r.permIn[j]) && Residue(p, r.permOut[j]))
  }

  /** What the permutation table guarantees of a real row. */
  ghost predicate Permuted(perm: State -> State, rows: seq<HashColumns>) {
    forall i :: 0 <= i < |rows| && rows[i].flag == 1 ==> rows[i].permOut == perm(rows[i].permIn)
  }

  // One row.

  function ActiveCount(active: seq<int>): (n: nat)
    ensures n <= |active|
    ensures forall j :: 0 <= j < n ==> active[j] == 1
    ensures n < |active| ==> active[n] != 1
  {
    if |active| == 0 || active[0] != 1 then 0 else 1 + ActiveCount(active[1..])
  }

  /** The active columns are a prefix, empty exactly on padding rows. */
  ghost predicate ActiveIsPrefix(flag: int, active: Row24) {
    && (forall j :: 0 <= j < 24 ==> active[j] == if j < ActiveCount(active) then 1 else 0)
    && (flag == 1 ==> ActiveCount(active) > 0) && (flag == 0 ==> ActiveCount(active) == 0)
  }

  lemma {:induction false} ProductForced(p: int, a: int, b: int)
    requires p > 1 && Residue(p, b) && a == 0 && Zero(p, b * (1 - a))
    ensures b == 0
  {
    Lift(p, b);
  }

  lemma {:induction false} ActiveTail(p: int, flag: int, active: Row24, j: nat)
    requires IsPrime(p) && ActiveConstraints(p, flag, active) && Residue(p, flag)
    requires forall i :: 0 <= i < 24 ==> Residue(p, active[i])
    requires ActiveCount(active) <= j < 24
    ensures active[j] == 0
    decreases j
  {
    assert Bool(p, active[j]);
    BoolResidue(p, active[j]);
    if j > ActiveCount(active) {
      ActiveTail(p, flag, active, j - 1);
      var k := j - 1;
      assert Zero(p, active[k + 1] * (1 - active[k]));
      ProductForced(p, active[k], active[k + 1]);
    }
  }

  lemma {:induction false} ActiveForced(p: int, flag: int, active: Row24)
    requires IsPrime(p) && ActiveConstraints(p, flag, active) && Residue(p, flag)
    requires forall i :: 0 <= i < 24 ==> Residue(p, active[i])
    ensures ActiveIsPrefix(flag, active)
  {
    forall j | ActiveCount(active) <= j < 24 ensures active[j] == 0 {
      ActiveTail(p, flag, active, j);
    }
    hide ActiveCount;
    Lift(p, active[0] - flag);
  }

  /** The bytes a row absorbs. */
  function Chunk(r: HashColumns): seq<int> {
    r.bytes[..ActiveCount(r.isActive)]
  }

  lemma {:induction false} InactiveForced(p: int, active: Row24, bytes: Row24, j: nat)
    requires p > 1 && InactiveAreZero(p, active, bytes) && j < 24 && active[j] == 0 && Residue(p, bytes[j])
    ensures bytes[j] == 0
  {
    Lift(p, 1 * bytes[j]);
  }

  lemma {:induction false} ChunkBytes(p: int, r: HashColumns)
    requires p > 1 && RowResidues(p, r) && InactiveAreZero(p, r.isActive, r.bytes) && ActiveIsPrefix(r.flag, r.isActive)
    ensures forall j :: 0 <= j < 24 ==> ByteAt(Chunk(r), j) == r.bytes[j]
  {
    hide InactiveAreZero;
    forall j | 0 <= j < 24 ensures ByteAt(Chunk(r), j) == r.bytes[j] {
      if j >= ActiveCount(r.isActive) {
        InactiveForced(p, r.isActive, r.bytes, j);
      }
    }
  }

  lemma {:induction false} LaneOfColumns(bytes: Row24, chunk: seq<int>, g: nat)
    requires g < 8 && forall j :: 0 <= j < 24 ==> ByteAt(chunk, j) == bytes[j]
    ensures Lane(chunk, g) == PackedColumns(bytes, g)
  {
    hide ByteAt;
    var j := 3 * g;
    assert ByteAt(chunk, j) == bytes[j] && ByteAt(chunk, j + 1) == bytes[j + 1] && ByteAt(chunk, j + 2) == bytes[j + 2];
  }

  lemma {:induction false} ReduceUnique(p: int, r: int, x: int)
    requires p > 0 && Residue(p, r) && Zero(p, 1 * (r - x))
    ensures r == Reduce(p, x)
  {
    ReduceEq(p, x);
    ZeroAdd(p, r - x, x - Reduce(p, x));
    Lift(p, r - Reduce(p, x));
  }

  /** A real row feeds the permutation the state below it with its chunk absorbed. */
  lemma {:induction false} AbsorbForced(p: int, r: HashColumns, next: HashColumns)
    requires p > 1 && RowResidues(p, r) && RowResidues(p, next) && r.flag == 1
    requires AbsorbConstraints(p, r.flag, r.permIn, next.state, r.bytes)
    requires forall j :: 0 <= j < 24 ==> ByteAt(Chunk(r), j) == r.bytes[j]
    ensures r.permIn == Absorb(p, next.state, Chunk(r))
  {
    hide Lane, Chunk, PackedColumns;
    forall g | 0 <= g < 16
      ensures r.permIn[g] == if g < 8 then Reduce(p, next.state[g] + Lane(Chunk(r), g)) else next.state[g]
    {
      if g < 8 {
        LaneOfColumns(r.bytes, Chunk(r), g);
        assert 1 * (r.permIn[g] - next.state[g] - PackedColumns(r.bytes, g))
            == 1 * (r.permIn[g] - (next.state[g] + PackedColumns(r.bytes, g)));
        ReduceUnique(p, r.permIn[g], next.state[g] + PackedColumns(r.bytes, g));
      } else {
        Lift(p, 1 * (r.permIn[g] - next.state[g]));
      }
    }
  }

  lemma {:induction false} StateForced(p: int, r: HashColumns)
    requires p > 1 && RowResidues(p, r) && StateConstraints(p, r.flag, r.state, r.permOut)
    ensures r.flag == 1 ==> r.state == r.permOut
    ensures r.flag == 0 ==> r.state == INIT
  {
    forall i | 0 <= i < 16
      ensures r.flag == 1 ==> r.state[i] == r.permOut[i]
      ensures r.flag == 0 ==> r.state[i] == 0
    {
      assert Zero(p, (1 - r.flag) * r.state[i]) && Zero(p, r.flag * (r.state[i] - r.permOut[i]));
      if r.flag == 1 {
        Lift(p, 1 * (r.state[i] - r.permOut[i]));
      } else if r.flag == 0 {
        Lift(p, 1 * r.state[i]);
      }
    }
  }

  // The table.

  function RealHashRows(rows: seq<HashColumns>): (n: nat)
    ensures n <= |rows|
    ensures forall i :: 0 <= i < n ==> rows[i].flag == 1
    ensures n < |rows| ==> rows[n].flag != 1
  {
    if |rows| == 0 || rows[0].flag != 1 then 0 else 1 + RealHashRows(rows[1..])
  }

  /** What the constraints of row i alone force. */
  ghost predicate RowForced(r: HashColumns) {
    && (r.flag == 0 || r.flag == 1) && ActiveIsPrefix(r.flag, r.isActive)
    && (r.flag == 1 ==> r.state == r.permOut) && (r.flag == 0 ==> r.state == INIT)
    && forall j :: 0 <= j < 24 ==> ByteAt(Chunk(r), j) == r.bytes[j]
  }

  lemma {:induction false} RowIsForced(p: int, r: HashColumns)
    requires IsPrime(p) && RowResidues(p, r) && HashRow(p, r)
    ensures RowForced(r)
  {
    BoolResidue(p, r.flag);
    ActiveForced(p, r.flag, r.isActive);
    ChunkBytes(p, r);
    StateForced(p, r);
  }

  /** An accepted table: its columns are residues and meet every constraint. */
  ghost predicate Accepted(p: int, rows: seq<HashColumns>, digest: seq<int>, length: int) {
    && IsPrime(p) && |rows| > 0 && |digest| == 8 && Residue(p, length)
    && (forall i :: 0 <= i < 8 ==> Residue(p, digest[i]))
    && HashResidues(p, rows) && HashEval(p, rows, digest, length)
  }

  lemma {:induction false} RowAt(p: int, rows: seq<HashColumns>, digest: seq<int>, length: int, i: nat)
    requires Accepted(p, rows, digest, length) && i < |rows|
    ensures RowForced(rows[i]) && RowResidues(p, rows[i])
    ensures AbsorbConstraints(p, rows[i].flag, rows[i].permIn, After(rows, i).state, rows[i].bytes)
  {
    hide RowForced, AbsorbConstraints;
    assert HashRow(p, rows[i]) && RowResidues(p, rows[i]) && AbsorbsAt(p, rows, i);
    RowIsForced(p, rows[i]);
  }

  lemma {:induction false} TransitionAt(p: int, rows: seq<HashColumns>, digest: seq<int>, length: int, i: nat)
    requires Accepted(p, rows, digest, length) && i + 1 < |rows|
    ensures HashTransition(p, rows[i], rows[i + 1])
  {
    hide HashTransition;
    assert StepsAt(p, rows, i);
  }

  lemma {:induction false} AcceptedField(p: int, rows: seq<HashColumns>, digest: seq<int>, length: int)
    requires Accepted(p, rows, digest, length)
    ensures IsPrime(p) && p > 1
  {
  }

  /** The conjuncts of a transition, one lemma for its users. */
  lemma {:induction false} TransitionParts(p: int, local: HashColumns, next: HashColumns)
    requires p > 0 && HashTransition(p, local, next)
    ensures Zero(p, next.flag * (1 - local.flag))
    ensures Eq(p, next.baseAddr, local.baseAddr + 24)
    ensures Eq(p, next.cumActive, local.cumActive + SumTo(next.isActive, 24))
  {
    hide Zero, Eq, SumTo;
  }

  lemma {:induction false} FlagFalls(p: int, a: int, b: int)
    requires p > 1 && Residue(p, b) && a == 0 && Zero(p, b * (1 - a))
    ensures b == 0
  {
    Lift(p, b);
  }

  lemma {:induction false} FlagBit(p: int, rows: seq<HashColumns>, digest: seq<int>, length: int, i: nat)
    requires Accepted(p, rows, digest, length) && i < |rows|
    ensures rows[i].flag == 0 || rows[i].flag == 1
  {
    hide Accepted, AbsorbConstraints, RowResidues;
    RowAt(p, rows, digest, length, i);
  }

  lemma {:induction false} FlagStep(p: int, rows: seq<HashColumns>, digest: seq<int>, length: int, i: nat)
    requires Accepted(p, rows, digest, length) && i + 1 < |rows| && rows[i].flag == 0
    ensures rows[i + 1].flag == 0
  {
    hide Accepted, AbsorbConstraints, RowForced, HashTransition, IsPrime, Zero;
    AcceptedField(p, rows, digest, length);
    TransitionAt(p, rows, digest, length, i);
    RowAt(p, rows, digest, length, i + 1);
    TransitionParts(p, rows[i], rows[i + 1]);
    FlagFalls(p, rows[i].flag, rows[i + 1].flag);
  }

  /** The rows after the real ones are padding. */
  lemma {:induction false} HashPadding(p: int, rows: seq<HashColumns>, digest: seq<int>, length: int, i: nat)
    requires Accepted(p, rows, digest, length) && RealHashRows(rows) <= i < |rows|
    ensures rows[i].flag == 0
    decreases i
  {
    hide Accepted;
    if i > RealHashRows(rows) {
      HashPadding(p, rows, digest, length, i - 1);
      FlagStep(p, rows, digest, length, i - 1);
    } else {
      FlagBit(p, rows, digest, length, i);
    }
  }

  /** The last row is padding. */
  lemma {:induction false} LastIsPadding(p: int, rows: seq<HashColumns>, digest: seq<int>, length: int)
    requires Accepted(p, rows, digest, length)
    ensures RealHashRows(rows) < |rows|
  {
    var last := rows[|rows| - 1];
    assert LastRow(p, last, length) && RowResidues(p, last);
    hide Accepted;
    Lift(p, last.flag);
  }

  lemma {:induction false} FullForced(p: int, active23: int)
    requires IsPrime(p) && Residue(p, active23) && Zero(p, 1 * 1 * (1 - active23))
    ensures active23 == 1
  {
    Lift(p, 1 - active23);
  }

  /** Every real row but the last one absorbs 24 bytes. */
  lemma {:induction false} FullRow(p: int, rows: seq<HashColumns>, digest: seq<int>, length: int, i: nat)
    requires Accepted(p, rows, digest, length) && i + 1 < RealHashRows(rows)
    ensures |Chunk(rows[i])| == 24
  {
    assert IsPrime(p);
    TransitionAt(p, rows, digest, length, i);
    RowAt(p, rows, digest, length, i);
    hide Accepted;
    FullForced(p, rows[i].isActive[23]);
    assert ActiveCount(rows[i].isActive) == 24;
  }

  /** The bytes absorbed by the real rows from row i on. */
  function AbsorbedFrom(rows: seq<HashColumns>, i: nat): seq<int>
    requires i <= RealHashRows(rows)
    decreases |rows| - i
  {
    if i == RealHashRows(rows) then [] else Chunk(rows[i]) + AbsorbedFrom(rows, i + 1)
  }

  /** All real rows are full but the last, which absorbs something. */
  ghost predicate Chunked(rows: seq<HashColumns>) {
    && (forall i :: 0 <= i < RealHashRows(rows) - 1 ==> |Chunk(rows[i])| == 24)
    && forall i :: 0 <= i < RealHashRows(rows) ==> 0 < |Chunk(rows[i])| <= 24
  }

  lemma {:induction false} IsChunked(p: int, rows: seq<HashColumns>, digest: seq<int>, length: int)
    requires Accepted(p, rows, digest, length)
    ensures Chunked(rows)
  {
    hide Accepted;
    forall i | 0 <= i < RealHashRows(rows) - 1 ensures |Chunk(rows[i])| == 24 {
      FullRow(p, rows, digest, length, i);
    }
    forall i | 0 <= i < RealHashRows(rows) ensures 0 < |Chunk(rows[i])| <= 24 {
      RowAt(p, rows, digest, length, i);
      hide RowResidues, AbsorbConstraints, ByteAt;
    }
  }

  /** The chunks of the absorbed bytes are the chunks of the rows. */
  lemma {:induction false} ChunksAreRows(rows: seq<HashColumns>, i: nat)
    requires Chunked(rows) && i < RealHashRows(rows)
    ensures |AbsorbedFrom(rows, i)| > 0 && FirstChunk(AbsorbedFrom(rows, i)) == Chunk(rows[i])
    ensures LaterChunks(AbsorbedFrom(rows, i)) == AbsorbedFrom(rows, i + 1)
  {
    hide Chunk;
    var rest := AbsorbedFrom(rows, i + 1);
    if i + 1 < RealHashRows(rows) {
      assert rest == Chunk(rows[i + 1]) + AbsorbedFrom(rows, i + 2);
    }
  }

  lemma {:induction false} RealRowHashes(p: int, rows: seq<HashColumns>, perm: State -> State, digest: seq<int>, length: int, i: nat)
    requires Accepted(p, rows, digest, length) && Permuted(perm, rows) && i < RealHashRows(rows) && i + 1 < |rows|
    ensures p > 0 && rows[i].state == perm(Absorb(p, rows[i + 1].state, Chunk(rows[i])))
  {
    assert IsPrime(p);
    RowAt(p, rows, digest, length, i);
    RowAt(p, rows, digest, length, i + 1);
    hide Accepted, RowResidues, AbsorbConstraints, Absorb, Chunk, ByteAt;
    AbsorbForced(p, rows[i], rows[i + 1]);
  }

  lemma {:induction false} StateAtBottom(p: int, rows: seq<HashColumns>, perm: State -> State, digest: seq<int>, length: int)
    requires Accepted(p, rows, digest, length) && RealHashRows(rows) < |rows|
    ensures p > 0 && rows[RealHashRows(rows)].state == Digested(p, perm, AbsorbedFrom(rows, RealHashRows(rows)))
  {
    assert IsPrime(p);
    HashPadding(p, rows, digest, length, RealHashRows(rows));
    RowAt(p, rows, digest, length, RealHashRows(rows));
    hide Accepted, RealHashRows;
  }

  /** The state of row i is the sponge state after the bytes from row i on. */
  lemma {:induction false} StateIsDigested(p: int, rows: seq<HashColumns>, perm: State -> State, digest: seq<int>, length: int, i: nat)
    requires Accepted(p, rows, digest, length) && Permuted(perm, rows) && Chunked(rows) && i <= RealHashRows(rows) < |rows|
    ensures p > 0 && rows[i].state == Digested(p, perm, AbsorbedFrom(rows, i))
    decreases |rows| - i
  {
    hide Accepted, Permuted, Chunked, Absorb, AbsorbedFrom, FirstChunk, LaterChunks, RealHashRows, Chunk;
    if i == RealHashRows(rows) {
      StateAtBottom(p, rows, perm, digest, length);
    } else {
      StateIsDigested(p, rows, perm, digest, length, i + 1);
      RealRowHashes(p, rows, perm, digest, length, i);
      ChunksAreRows(rows, i);
    }
  }

  // The absorbed bytes, their addresses and their number.

  /** Absorbed byte k is column k % 24 of row k / 24. */
  ghost predicate ByteOfRow(rows: seq<HashColumns>, i: nat, absorbed: seq<int>, k: nat)
    requires k < |absorbed|
  {
    i + k / 24 < RealHashRows(rows) && k % 24 < |Chunk(rows[i + k / 24])| && absorbed[k] == rows[i + k / 24].bytes[k % 24]
  }

  lemma {:induction false} AbsorbedAt(rows: seq<HashColumns>, i: nat, k: nat)
    requires Chunked(rows) && i <= RealHashRows(rows) && k < |AbsorbedFrom(rows, i)|
    ensures ByteOfRow(rows, i, AbsorbedFrom(rows, i), k)
    decreases |rows| - i
  {
    var first := Chunk(rows[i]);
    hide RealHashRows;
    if k < |first| {
      assert k / 24 == 0 && k % 24 == k;
    } else {
      assert |first| == 24;
      AbsorbedAt(rows, i + 1, k - 24);
      assert k / 24 == (k - 24) / 24 + 1 && k % 24 == (k - 24) % 24;
    }
  }

  lemma {:induction false} AbsorbedLength(rows: seq<HashColumns>, i: nat)
    requires Chunked(rows) && i < RealHashRows(rows)
    ensures |AbsorbedFrom(rows, i)| == 24 * (RealHashRows(rows) - 1 - i) + |Chunk(rows[RealHashRows(rows) - 1])|
    decreases |rows| - i
  {
    hide RealHashRows, Chunk;
    if i + 1 < RealHashRows(rows) {
      AbsorbedLength(rows, i + 1);
    } else {
      assert AbsorbedFrom(rows, i + 1) == [];
    }
  }

  /** A column is active exactly when its position is among the absorbed bytes. */
  lemma {:induction false} ActiveAt(rows: seq<HashColumns>, r: nat, j: nat)
    requires Chunked(rows) && r < RealHashRows(rows) && j < 24
    ensures j < |Chunk(rows[r])| <==> 24 * r + j < |AbsorbedFrom(rows, 0)|
  {
    AbsorbedLength(rows, 0);
    hide AbsorbedFrom, Chunk, RealHashRows;
  }

  /** Send k of the table: column k % 24 of row k / 24, at address base_addr + k % 24. */
  function ImageSend(p: int, r: HashColumns, j: nat): Entry<ImageTuple>
    requires p > 0 && j < 24
  {
    Entry(ImageTuple(Reduce(p, r.baseAddr + j), r.bytes[j]), r.isActive[j])
  }

  function ImageSends(p: int, rows: seq<HashColumns>): seq<Entry<ImageTuple>>
    requires p > 0
  {
    seq(24 * |rows|, k requires 0 <= k < 24 * |rows| => ImageSend(p, rows[k / 24], k % 24))
  }

  lemma {:induction false} BaseStep(p: int, a: int, b: int, r: int)
    requires p > 0 && Eq(p, b, a + 24) && Eq(p, a, 24 * r)
    ensures Eq(p, b, 24 * (r + 1))
  {
    ZeroAdd(p, b - (a + 24), a - 24 * r);
  }

  lemma {:induction false} FirstParts(p: int, rows: seq<HashColumns>, digest: seq<int>, length: int)
    requires Accepted(p, rows, digest, length)
    ensures Zero(p, rows[0].baseAddr) && Eq(p, rows[0].cumActive, SumTo(rows[0].isActive, 24))
    ensures forall i :: 0 <= i < 8 ==> Eq(p, rows[0].state[i], digest[i])
  {
    hide Zero, Eq, SumTo;
    assert FirstRow(p, rows[0], digest);
  }

  lemma {:induction false} BaseAddress(p: int, rows: seq<HashColumns>, digest: seq<int>, length: int, r: nat)
    requires Accepted(p, rows, digest, length) && r < |rows|
    ensures p > 0 && Eq(p, rows[r].baseAddr, 24 * r)
  {
    hide Accepted, HashTransition, IsPrime, Zero, SumTo;
    AcceptedField(p, rows, digest, length);
    if r == 0 {
      FirstParts(p, rows, digest, length);
      assert rows[r].baseAddr - 24 * r == rows[0].baseAddr;
    } else {
      hide Eq;
      BaseAddress(p, rows, digest, length, r - 1);
      TransitionAt(p, rows, digest, length, r - 1);
      TransitionParts(p, rows[r - 1], rows[r]);
      BaseStep(p, rows[r - 1].baseAddr, rows[r].baseAddr, r - 1);
    }
  }

  lemma {:induction false} SendAddress(p: int, base: int, r: nat, j: nat)
    requires p > 0 && Eq(p, base, 24 * r) && 24 * r + j < p
    ensures Reduce(p, base + j) == 24 * r + j
  {
    ReducedIndex(p, base + j, 24 * r + j);
  }

  /** The absorbed bytes of a table. */
  function Absorbed(rows: seq<HashColumns>): seq<int> {
    AbsorbedFrom(rows, 0)
  }

  /** Whether column j of row r is active, and that it then is an absorbed byte. */
  lemma {:induction false} SendIsAbsorbed(p: int, rows: seq<HashColumns>, digest: seq<int>, length: int, k: nat)
    requires Accepted(p, rows, digest, length) && Chunked(rows) && k < 24 * |rows|
    ensures rows[k / 24].isActive[k % 24] == if k < |Absorbed(rows)| then 1 else 0
    ensures k < |Absorbed(rows)| ==> rows[k / 24].bytes[k % 24] == Absorbed(rows)[k]
  {
    var r, j := k / 24, k % 24;
    hide Accepted, AbsorbConstraints, RowResidues, ByteAt, AbsorbedFrom, RealHashRows, Chunked;
    RowAt(p, rows, digest, length, r);
    if r >= RealHashRows(rows) {
      HashPadding(p, rows, digest, length, r);
      AbsorbedBound(rows);
    } else {
      ActiveAt(rows, r, j);
    }
    if k < |Absorbed(rows)| {
      AbsorbedAt(rows, 0, k);
    }
  }

  lemma {:induction false} SendOf(p: int, rows: seq<HashColumns>, digest: seq<int>, length: int, k: nat)
    requires Accepted(p, rows, digest, length) && Chunked(rows) && 24 * |rows| <= p && k < 24 * |rows|
    ensures p > 0
    ensures ImageSends(p, rows)[k].multiplicity == if k < |Absorbed(rows)| then 1 else 0
    ensures k < |Absorbed(rows)| ==> ImageSends(p, rows)[k].tuple == ImageTuple(k, Absorbed(rows)[k])
  {
    hide Accepted, Chunked, Absorbed, IsPrime, Eq, Reduce;
    AcceptedField(p, rows, digest, length);
    SendIsAbsorbed(p, rows, digest, length, k);
    BaseAddress(p, rows, digest, length, k / 24);
    SendAddress(p, rows[k / 24].baseAddr, k / 24, k % 24);
  }

  lemma {:induction false} AbsorbedBound(rows: seq<HashColumns>)
    requires Chunked(rows)
    ensures |Absorbed(rows)| <= 24 * RealHashRows(rows)
  {
    if RealHashRows(rows) > 0 {
      AbsorbedLength(rows, 0);
    }
  }

  lemma {:induction false} LiveSends(p: int, rows: seq<HashColumns>, digest: seq<int>, length: int, n: nat)
    requires Accepted(p, rows, digest, length) && Chunked(rows) && 24 * |rows| <= p
    requires n <= |Absorbed(rows)| <= 24 * |rows|
    ensures p > 0 && Live(ImageSends(p, rows)[..n]) == Image(Absorbed(rows))[..n]
  {
    hide Accepted, Chunked, Absorbed, IsPrime, ImageSends;
    AcceptedField(p, rows, digest, length);
    if n > 0 {
      LiveSends(p, rows, digest, length, n - 1);
      SendOf(p, rows, digest, length, n - 1);
      SendsLength(p, rows);
      LiveNext(ImageSends(p, rows), n - 1);
      assert Image(Absorbed(rows))[..n] == Image(Absorbed(rows))[..n - 1] + [Image(Absorbed(rows))[n - 1]];
    }
  }

  lemma {:induction false} SendsLength(p: int, rows: seq<HashColumns>)
    requires p > 0
    ensures |ImageSends(p, rows)| == 24 * |rows|
  {
  }

  /** An accepted table sends byte k it absorbs at address k, once each, and nothing else. */
  lemma {:induction false} HashSendsImage(p: int, rows: seq<HashColumns>, digest: seq<int>, length: int)
    requires Accepted(p, rows, digest, length) && Chunked(rows) && 24 * |rows| <= p
    ensures p > 0 && Live(ImageSends(p, rows)) == Image(Absorbed(rows)) && Selectors(ImageSends(p, rows))
    ensures |Absorbed(rows)| <= 24 * |rows|
  {
    assert IsPrime(p);
    var sends, n := ImageSends(p, rows), |Absorbed(rows)|;
    AbsorbedBound(rows);
    hide Accepted, Chunked, Absorbed, IsPrime;
    forall k | 0 <= k < |sends| ensures sends[k].multiplicity == if k < n then 1 else 0 {
      SendOf(p, rows, digest, length, k);
    }
    LiveSends(p, rows, digest, length, n);
    hide ImageSends;
    LivePrefix(sends, n);
    assert Image(Absorbed(rows))[..n] == Image(Absorbed(rows));
  }

  // The counter.

  lemma {:induction false} SumOfPrefix(active: Row24, c: nat, n: nat)
    requires c <= 24 && n <= 24 && forall j :: 0 <= j < 24 ==> active[j] == if j < c then 1 else 0
    ensures SumTo(active, n) == if n < c then n else c
  {
    if n > 0 {
      SumOfPrefix(active, c, n - 1);
    }
  }

  lemma {:induction false} RowSum(p: int, rows: seq<HashColumns>, digest: seq<int>, length: int, i: nat)
    requires Accepted(p, rows, digest, length) && i < |rows|
    ensures SumTo(rows[i].isActive, 24) == |Chunk(rows[i])|
    ensures i >= RealHashRows(rows) ==> |Chunk(rows[i])| == 0
  {
    hide Accepted, AbsorbConstraints, RowResidues, SumTo, ByteAt, RealHashRows;
    RowAt(p, rows, digest, length, i);
    SumOfPrefix(rows[i].isActive, ActiveCount(rows[i].isActive), 24);
    if i >= RealHashRows(rows) {
      HashPadding(p, rows, digest, length, i);
    }
  }

  /** The bytes still to be absorbed from row i on. */
  function Remaining(rows: seq<HashColumns>, i: nat): nat {
    if i <= RealHashRows(rows) then |AbsorbedFrom(rows, i)| else 0
  }

  lemma {:induction false} RemainingStep(rows: seq<HashColumns>, i: nat)
    requires i < |rows| && (i >= RealHashRows(rows) ==> |Chunk(rows[i])| == 0)
    ensures Remaining(rows, i) == |Chunk(rows[i])| + Remaining(rows, i + 1)
  {
    hide Chunk, RealHashRows;
  }

  lemma {:induction false} CounterStep(p: int, a: int, b: int, s: int, rest: int, l: int)
    requires p > 0 && Eq(p, b, a + s) && Eq(p, a + (s + rest), l)
    ensures Eq(p, b + rest, l)
  {
    ZeroAdd(p, b - (a + s), a + (s + rest) - l);
  }

  /** The running counter and the bytes still to come add up to all absorbed bytes. */
  lemma {:induction false} CounterAt(p: int, rows: seq<HashColumns>, digest: seq<int>, length: int, i: nat)
    requires Accepted(p, rows, digest, length) && i < |rows|
    ensures p > 0 && Eq(p, rows[i].cumActive + Remaining(rows, i + 1), |Absorbed(rows)|)
  {
    hide Accepted, IsPrime, Eq, SumTo, HashTransition, Chunk, Remaining;
    AcceptedField(p, rows, digest, length);
    RowSum(p, rows, digest, length, i);
    RemainingStep(rows, i);
    if i == 0 {
      FirstParts(p, rows, digest, length);
      RemainingAll(rows);
      FirstCounter(p, rows[0].cumActive, |Chunk(rows[0])|, Remaining(rows, 1), |Absorbed(rows)|);
    } else {
      CounterAt(p, rows, digest, length, i - 1);
      TransitionAt(p, rows, digest, length, i - 1);
      TransitionParts(p, rows[i - 1], rows[i]);
      CounterStep(p, rows[i - 1].cumActive, rows[i].cumActive, |Chunk(rows[i])|, Remaining(rows, i + 1), |Absorbed(rows)|);
    }
  }

  lemma {:induction false} RemainingAll(rows: seq<HashColumns>)
    ensures Remaining(rows, 0) == |Absorbed(rows)|
  {
  }

  lemma {:induction false} FirstCounter(p: int, a: int, s: int, rest: int, l: int)
    requires p > 0 && Eq(p, a, s) && s + rest == l
    ensures Eq(p, a + rest, l)
  {
  }

  lemma {:induction false} LastParts(p: int, rows: seq<HashColumns>, digest: seq<int>, length: int)
    requires Accepted(p, rows, digest, length)
    ensures Eq(p, rows[|rows| - 1].cumActive, length) && Residue(p, length)
    ensures forall i :: 0 <= i < 8 ==> Residue(p, digest[i])
    ensures RealHashRows(rows) < |rows|
  {
    hide Zero, Eq, HashRow, RowResidues;
    assert LastRow(p, rows[|rows| - 1], length);
    LastIsPadding(p, rows, digest, length);
  }

  lemma {:induction false} ResiduesEqual(p: int, a: int, b: int)
    requires p > 0 && Residue(p, a) && Residue(p, b) && Eq(p, a, b)
    ensures a == b
  {
    Lift(p, a - b);
  }

  /** The exposed length is the number of absorbed bytes. */
  lemma {:induction false} LengthForced(p: int, rows: seq<HashColumns>, digest: seq<int>, length: int)
    requires Accepted(p, rows, digest, length) && Chunked(rows) && 24 * |rows| <= p
    ensures length == |Absorbed(rows)|
  {
    hide Accepted, IsPrime, Eq, Absorbed, Chunked;
    AcceptedField(p, rows, digest, length);
    LastParts(p, rows, digest, length);
    CounterAt(p, rows, digest, length, |rows| - 1);
    AbsorbedBound(rows);
    NothingRemains(rows);
    LengthFromCounter(p, rows[|rows| - 1].cumActive, length, |Absorbed(rows)|);
  }

  lemma {:induction false} NothingRemains(rows: seq<HashColumns>)
    requires RealHashRows(rows) < |rows|
    ensures Remaining(rows, |rows|) == 0
  {
  }

  lemma {:induction false} LengthFromCounter(p: int, a: int, length: int, l: nat)
    requires p > 0 && Eq(p, a, length) && Eq(p, a + 0, l) && Residue(p, length) && l < p
    ensures length == l
  {
    ZeroAdd(p, a - length, a - l);
    Lift(p, l - length);
  }

  /** The exposed digest is the digest of the absorbed bytes. */
  lemma {:induction false} DigestForced(p: int, rows: seq<HashColumns>, perm: State -> State, digest: seq<int>, length: int)
    requires Accepted(p, rows, digest, length) && Permuted(perm, rows) && Chunked(rows)
    ensures p > 0 && digest == Digest(p, perm, Absorbed(rows))
  {
    hide Accepted, IsPrime, Eq, Permuted, Chunked, RowForced, AbsorbConstraints, Digested, AbsorbedFrom;
    AcceptedField(p, rows, digest, length);
    LastParts(p, rows, digest, length);
    FirstParts(p, rows, digest, length);
    DigestLength(p, rows, digest, length);
    RowAt(p, rows, digest, length, 0);
    StateIsDigested(p, rows, perm, digest, length, 0);
    forall i | 0 <= i < 8 ensures digest[i] == rows[0].state[i] {
      ResiduesEqual(p, rows[0].state[i], digest[i]);
    }
  }

  lemma {:induction false} DigestLength(p: int, rows: seq<HashColumns>, digest: seq<int>, length: int)
    requires Accepted(p, rows, digest, length)
    ensures |digest| == 8
  {
  }

  lemma {:induction false} ImageInjective(a: seq<int>, b: seq<int>)
    requires multiset(Image(a)) == multiset(Image(b))
    ensures a == b
  {
    assert |Image(a)| == |multiset(Image(a))| == |Image(b)|;
    forall k | 0 <= k < |a| ensures a[k] == b[k] {
      assert Image(a)[k] in multiset(Image(b));
      var j :| 0 <= j < |Image(b)| && Image(b)[j] == Image(a)[k];
    }
  }

  /**
   * Program commitment. Whatever table the prover commits to, when the program_image bus balances
   * with an accepted program table, the exposed digest and length are those of the bytes of that
   * program table, in order.
   */
  lemma {:induction false} CommitmentForced(p: int, rows: seq<HashColumns>, perm: State -> State, digest: seq<int>, length: int,
                         rom: seq<ProgramColumns>)
    requires Accepted(p, rows, digest, length) && Permuted(perm, rows) && 24 * |rows| < p
    requires RomResidues(p, rom) && RomEval(p, rom) && |rom| < p
    requires Balanced(p, ImageSends(p, rows), ImageReceives(p, rom))
    ensures digest == Digest(p, perm, RomBytes(rom)) && length == |RomBytes(rom)|
  {
    hide Accepted, Permuted, Chunked, IsPrime, RomResidues, RomEval, ImageSends, ImageReceives, Absorbed, Image, Balanced, Digest;
    AcceptedField(p, rows, digest, length);
    IsChunked(p, rows, digest, length);
    HashSendsImage(p, rows, digest, length);
    RomOffersImage(p, rom);
    ImageLengths(Absorbed(rows), RomBytes(rom));
    BalancedIffEqual(p, ImageSends(p, rows), ImageReceives(p, rom));
    ImageInjective(Absorbed(rows), RomBytes(rom));
    DigestForced(p, rows, perm, digest, length);
    LengthForced(p, rows, digest, length);
  }

  lemma {:induction false} ImageLengths(a: seq<int>, b: seq<int>)
    ensures |Image(a)| == |a| && |Image(b)| == |b|
  {
  }
}
