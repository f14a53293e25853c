/** The program-hash trace builder: its two passes, and that its table is always accepted. */
module ProgramHashTrace {
  import opened Words
  import opened PrimeField
  import opened Rv32
  import opened Heights
  import opened Sponge
  import opened ProgramHash

  function Min(a: int, b: int): int {
    if a < b then a else b
  }

  function ByteColumn(program: seq<byte>, i: nat, j: nat): int {
    ByteAt(program, 24 * i + j)
  }

  function ActiveColumn(program: seq<byte>, i: nat, j: nat): int {
    Flag(24 * i + j < |program|)
  }

  function RowBytes(program: seq<byte>, i: nat): (r: Row24)
    ensures forall j :: 0 <= j < 24 ==> r[j] == ByteColumn(program, i, j)
  {
    seq(24, j requires 0 <= j < 24 => ByteColumn(program, i, j))
  }

  function RowActive(program: seq<byte>, i: nat): (r: Row24)
    ensures forall j :: 0 <= j < 24 ==> r[j] == ActiveColumn(program, i, j)
  {
    seq(24, j requires 0 <= j < 24 => ActiveColumn(program, i, j))
  }

  function PermInput(p: int, perm: State -> State, program: seq<byte>, i: nat): State
    requires p > 0
  {
    Absorb(p, Digested(p, perm, Tail(program, i + 1)), FirstChunk(Tail(program, i)))
  }

  /** Row i after the first pass: everything but the sponge. */
  function LocalRow(p: int, program: seq<byte>, i: nat): HashColumns
    requires p > 0
  {
    HashColumns(INIT, RowBytes(program, i), Reduce(p, 24 * i), RowActive(program, i), Flag(24 * i < |program|),
                Min(|program|, 24 * (i + 1)), INIT, INIT)
  }

  /** Row i of the finished table. */
  function BuiltHashRow(p: int, perm: State -> State, program: seq<byte>, i: nat): HashColumns
    requires p > 0
  {
    if 24 * i < |program| then
      var input := PermInput(p, perm, program, i);
      LocalRow(p, program, i).(state := perm(input), permIn := input, permOut := perm(input))
    else LocalRow(p, program, i)
  }

  function HashHeight(program: seq<byte>): nat {
    PaddedHeight(NumRealRows(|program|) + 1)
  }

  function HashMatrix(p: int, perm: State -> State, program: seq<byte>): seq<HashColumns>
    requires p > 0
  {
    seq(HashHeight(program), i requires 0 <= i => BuiltHashRow(p, perm, program, i))
  }

  // The trace builder.

  const ZERO24: Row24 := [0, 0, 0, 0, 0, 0, 0, 0, 0, 0, 0, 0, 0, 0, 0, 0, 0, 0, 0, 0, 0, 0, 0, 0]

  const ZERO_ROW := HashColumns(INIT, ZERO24, 0, ZERO24, 0, 0, INIT, INIT)

  /** The byte loop of the first pass. */
  method FillChunk(program: seq<byte>, row: nat, cum: nat) returns (bytes: Row24, active: Row24, counted: nat)
    requires cum == Min(|program|, 24 * row)
    ensures bytes == RowBytes(program, row) && active == RowActive(program, row)
    ensures counted == Min(|program|, 24 * (row + 1))
  {
    bytes, active, counted := ZERO24, ZERO24, cum;
    for i := 0 to 24
      invariant forall j :: 0 <= j < i ==> bytes[j] == ByteColumn(program, row, j) && active[j] == ActiveColumn(program, row, j)
      invariant forall j :: i <= j < 24 ==> bytes[j] == 0 && active[j] == 0
      invariant counted == Min(|program|, 24 * row + i)
    {
      var globalAddr := 24 * row + i;
      if globalAddr < |program| {
        bytes, active := bytes[i := program[globalAddr]], active[i := 1];
        counted := counted + 1;
      }
    }
  }

  lemma {:induction false} PaddingRow(program: seq<byte>, row: nat)
    requires |program| <= 24 * row
    ensures RowBytes(program, row) == ZERO24 && RowActive(program, row) == ZERO24
    ensures Min(|program|, 24 * row) == Min(|program|, 24 * (row + 1)) == |program|
  {
  }

  /** The first pass, rows in order. */
  method FillLocal(p: int, program: seq<byte>, rows: array<HashColumns>)
    requires p > 0 && forall j :: 0 <= j < rows.Length ==> rows[j] == ZERO_ROW
    modifies rows
    ensures forall j :: 0 <= j < rows.Length ==> rows[j] == LocalRow(p, program, j)
  {
    hide RowBytes, RowActive, Min;
    assert Min(|program|, 24 * 0) == 0 by { MinZero(|program|); }
    var cumActive := 0;
    for i := 0 to rows.Length
      invariant forall j :: 0 <= j < i ==> rows[j] == LocalRow(p, program, j)
      invariant forall j :: i <= j < rows.Length ==> rows[j] == ZERO_ROW
      invariant cumActive == Min(|program|, 24 * i)
    {
      if i < NumRealRows(|program|) {
        var bytes, active, counted := FillChunk(program, i, cumActive);
        rows[i] := rows[i].(bytes := bytes, isActive := active, flag := 1);
        cumActive := counted;
      } else {
        PaddingRow(program, i);
        rows[i] := rows[i].(flag := 0);
      }
      rows[i] := rows[i].(baseAddr := Reduce(p, i * BYTES_PER_ROW), cumActive := cumActive);
    }
  }

  lemma {:induction false} MinZero(n: nat)
    ensures Min(n, 0) == 0
  {
  }

  /** The second pass: the sponge, from the lowest real row up. */
  method FillSponge(p: int, perm: State -> State, program: seq<byte>, rows: array<HashColumns>)
    requires p > 0 && NumRealRows(|program|) <= rows.Length
    requires forall j :: 0 <= j < rows.Length ==> rows[j] == LocalRow(p, program, j)
    modifies rows
    ensures forall j :: 0 <= j < rows.Length ==> rows[j] == BuiltHashRow(p, perm, program, j)
  {
    hide LocalRow, Absorb, Tail, FirstChunk, LaterChunks;
    var acc := new int[WIDTH](_ => 0);
    var realRows := NumRealRows(|program|);
    assert acc[..] == INIT;
    TailEnds(program, realRows);
    for i := realRows downto 0
      invariant acc[..] == Digested(p, perm, Tail(program, i))
      invariant forall j :: i <= j < rows.Length ==> rows[j] == BuiltHashRow(p, perm, program, j)
      invariant forall j :: 0 <= j < i ==> rows[j] == LocalRow(p, program, j)
    {
      AbsorbRow(p, program, i, acc);
      var permIn: State := acc[..];
      PermuteInHost(perm, acc);
      var permOut: State := acc[..];
      TailNext(program, i);
      rows[i] := rows[i].(permIn := permIn, permOut := permOut, state := permOut);
    }
  }

  /** `program_hash::trace::build_trace` */
  method BuildProgramHash(p: int, perm: State -> State, program: seq<byte>) returns (rows: array<HashColumns>)
    requires p > 0 && |program| > 0
    ensures fresh(rows) && rows[..] == HashMatrix(p, perm, program)
  {
    hide LocalRow, BuiltHashRow, PaddedHeight;
    rows := new HashColumns[HashHeight(program)](_ => ZERO_ROW);
    FillLocal(p, program, rows);
    FillSponge(p, perm, program, rows);
  }

  // Acceptance.

  lemma {:induction false} StateOfRow(p: int, perm: State -> State, program: seq<byte>, i: nat)
    requires p > 0
    ensures BuiltHashRow(p, perm, program, i).state == Digested(p, perm, Tail(program, i))
  {
    hide Absorb, FirstChunk;
    if 24 * i < |program| {
      TailNext(program, i);
    }
  }

  /** The permutation stays in the field. */
  ghost predicate KeepsResidues(p: int, perm: State -> State) {
    forall s: State :: AllResidues(p, s) ==> AllResidues(p, perm(s))
  }

  ghost predicate AllResidues(p: int, s: State) {
    forall i :: 0 <= i < 16 ==> Residue(p, s[i])
  }

  lemma {:induction false} AbsorbResidues(p: int, state: State, chunk: seq<int>)
    requires p > 0 && AllResidues(p, state)
    ensures AllResidues(p, Absorb(p, state, chunk))
  {
    hide Lane;
  }

  lemma {:induction false} DigestedResidues(p: int, perm: State -> State, bytes: seq<int>)
    requires p > 0 && KeepsResidues(p, perm)
    ensures AllResidues(p, Digested(p, perm, bytes))
    decreases |bytes|
  {
    if |bytes| > 0 {
      DigestedResidues(p, perm, LaterChunks(bytes));
      AbsorbResidues(p, Digested(p, perm, LaterChunks(bytes)), FirstChunk(bytes));
    }
  }

  lemma {:induction false} BuiltResidues(p: int, perm: State -> State, program: seq<byte>, i: nat)
    requires p > 256 && KeepsResidues(p, perm) && |program| < p
    ensures RowResidues(p, BuiltHashRow(p, perm, program, i))
  {
    DigestedResidues(p, perm, Tail(program, i + 1));
    AbsorbResidues(p, Digested(p, perm, Tail(program, i + 1)), FirstChunk(Tail(program, i)));
    hide Absorb, Digested, Tail, FirstChunk;
    assert AllResidues(p, INIT);
    LocalResidues(p, program, i);
    hide LocalRow;
  }

  lemma {:induction false} LocalResidues(p: int, program: seq<byte>, i: nat)
    requires p > 256 && |program| < p
    ensures RowResidues(p, LocalRow(p, program, i))
  {
    hide Reduce, RowBytes, RowActive;
    forall j | 0 <= j < 24
      ensures Residue(p, RowBytes(program, i)[j]) && Residue(p, RowActive(program, i)[j])
    {
      assert RowBytes(program, i)[j] == ByteColumn(program, i, j);
    }
  }

  lemma {:induction false} ActiveAccepted(p: int, program: seq<byte>, i: nat)
    requires p > 1
    ensures ActiveConstraints(p, Flag(24 * i < |program|), RowActive(program, i))
    ensures InactiveAreZero(p, RowActive(program, i), RowBytes(program, i))
  {
    MultipleIsZero(p, 0);
    var active, bytes, flag := RowActive(program, i), RowBytes(program, i), Flag(24 * i < |program|);
    hide Zero;
    forall j | 0 <= j < 24
      ensures Bool(p, active[j]) && Zero(p, (1 - flag) * active[j]) && Zero(p, (1 - active[j]) * bytes[j])
    {
      BitIsBool(p, active[j]);
      assert (1 - flag) * active[j] == 0 && (1 - active[j]) * bytes[j] == 0;
    }
    forall j | 0 <= j < 23 ensures Zero(p, active[j + 1] * (1 - active[j])) {
      assert active[j] == ActiveColumn(program, i, j) && active[j + 1] == ActiveColumn(program, i, j + 1);
      assert active[j + 1] * (1 - active[j]) == 0;
    }
  }

  lemma {:induction false} StateAccepted(p: int, perm: State -> State, program: seq<byte>, i: nat)
    requires p > 1
    ensures var r := BuiltHashRow(p, perm, program, i); StateConstraints(p, r.flag, r.state, r.permOut)
  {
    MultipleIsZero(p, 0);
    hide PermInput, RowBytes, RowActive;
  }

  lemma {:induction false} HashRowAccepted(p: int, perm: State -> State, program: seq<byte>, i: nat)
    requires p > 1
    ensures HashRow(p, BuiltHashRow(p, perm, program, i))
  {
    ActiveAccepted(p, program, i);
    StateAccepted(p, perm, program, i);
    BitIsBool(p, Flag(24 * i < |program|));
    hide ActiveConstraints, InactiveAreZero, StateConstraints, Bool, PermInput;
  }

  lemma {:induction false} AbsorbAccepted(p: int, r: HashColumns, state: State, program: seq<byte>, i: nat)
    requires p > 0 && (24 * i < |program| ==> r.flag == 1) && (24 * i >= |program| ==> r.flag == 0)
    requires r.bytes == RowBytes(program, i)
    requires 24 * i < |program| ==> r.permIn == Absorb(p, state, FirstChunk(Tail(program, i)))
    ensures AbsorbConstraints(p, r.flag, r.permIn, state, r.bytes)
  {
    MultipleIsZero(p, 0);
    if 24 * i < |program| {
      var chunk := FirstChunk(Tail(program, i));
      forall g | 0 <= g < 8
        ensures Zero(p, r.flag * (r.permIn[g] - state[g] - PackedColumns(r.bytes, g)))
      {
        LaneOfTail(program, i, g);
        assert Lane(chunk, g) == PackedColumns(r.bytes, g);
        hide Lane, PackedColumns, RowBytes, Tail, FirstChunk;
        ReducedDifference(p, state[g] + Lane(chunk, g));
        assert r.permIn[g] == Reduce(p, state[g] + Lane(chunk, g));
        assert r.flag * (r.permIn[g] - state[g] - PackedColumns(r.bytes, g))
            == Reduce(p, state[g] + Lane(chunk, g)) - (state[g] + Lane(chunk, g));
      }
    }
  }

  lemma {:induction false} ReducedDifference(p: int, x: int)
    requires p > 0
    ensures Zero(p, Reduce(p, x) - x)
  {
    ReduceEq(p, x);
    ZeroScale(p, -1, x - Reduce(p, x));
  }

  lemma {:induction false} ActiveSum(program: seq<byte>, i: nat, n: nat)
    requires n <= 24
    ensures SumTo(RowActive(program, i), n) == Min(|program|, 24 * i + n) - Min(|program|, 24 * i)
  {
    hide RowActive;
    if n > 0 {
      ActiveSum(program, i, n - 1);
      assert RowActive(program, i)[n - 1] == ActiveColumn(program, i, n - 1);
    }
  }

  lemma {:induction false} TransitionAccepted(p: int, perm: State -> State, program: seq<byte>, i: nat)
    requires p > 1
    ensures HashTransition(p, BuiltHashRow(p, perm, program, i), BuiltHashRow(p, perm, program, i + 1))
  {
    var flag, next := Flag(24 * i < |program|), Flag(24 * (i + 1) < |program|);
    MultipleIsZero(p, 0);
    ActiveSum(program, i + 1, 24);
    hide PermInput, RowActive, RowBytes, SumTo, Zero;
    assert RowActive(program, i)[23] == ActiveColumn(program, i, 23);
    assert next * (1 - flag) == 0 && flag * next * (1 - ActiveColumn(program, i, 23)) == 0;
    BaseAccepted(p, i);
    hide Reduce;
    EqualsEq(p, Min(|program|, 24 * (i + 2)), Min(|program|, 24 * (i + 1)) + SumTo(RowActive(program, i + 1), 24));
  }

  lemma {:induction false} BaseAccepted(p: int, i: nat)
    requires p > 0
    ensures Eq(p, Reduce(p, 24 * (i + 1)), Reduce(p, 24 * i) + 24)
  {
    ReducedDifference(p, 24 * (i + 1));
    ReduceEq(p, 24 * i);
    ZeroAdd(p, Reduce(p, 24 * (i + 1)) - 24 * (i + 1), 24 * i - Reduce(p, 24 * i));
  }

  lemma {:induction false} AbsorbRowAccepted(p: int, perm: State -> State, program: seq<byte>, i: nat, next: HashColumns)
    requires p > 0 && (24 * i < |program| ==> next == BuiltHashRow(p, perm, program, i + 1))
    ensures var r := BuiltHashRow(p, perm, program, i); AbsorbConstraints(p, r.flag, r.permIn, next.state, r.bytes)
  {
    hide Absorb, RowBytes, RowActive, Reduce, AbsorbConstraints;
    StateOfRow(p, perm, program, i + 1);
    AbsorbAccepted(p, BuiltHashRow(p, perm, program, i), next.state, program, i);
  }

  lemma {:induction false} FirstAccepted(p: int, perm: State -> State, program: seq<byte>)
    requires p > 1 && |program| > 0
    ensures FirstRow(p, BuiltHashRow(p, perm, program, 0), Digest(p, perm, program))
  {
    StateOfRow(p, perm, program, 0);
    TailEnds(program, NumRealRows(|program|));
    ActiveSum(program, 0, 24);
    MultipleIsZero(p, 0);
    hide PermInput, RowActive, RowBytes, SumTo, Digested;
  }

  lemma {:induction false} LastAccepted(p: int, perm: State -> State, program: seq<byte>, last: nat)
    requires p > 1 && |program| <= 24 * last
    ensures LastRow(p, BuiltHashRow(p, perm, program, last), |program|)
  {
    MultipleIsZero(p, 0);
    hide PermInput, RowActive, RowBytes;
  }

  /**
   * For every non-empty program the built table is accepted with the public values that the host
   * computation returns, its permutation columns are permutations, and the sponge state of its first
   * row is the host digest, a partial last chunk included.
   */
  lemma {:induction false} BuiltTableAccepted(p: int, perm: State -> State, program: seq<byte>)
    requires IsPrime(p) && p > 256 && KeepsResidues(p, perm) && 0 < |program| < p
    ensures var rows := HashMatrix(p, perm, program);
            && Accepted(p, rows, Digest(p, perm, program), |program|) && Permuted(perm, rows)
            && rows[0].state[..8] == Digest(p, perm, program)
  {
    hide BuiltHashRow, FirstRow, LastRow, HashRow, AbsorbConstraints, HashTransition, RowResidues, PaddedHeight, Digested, IsPrime;
    var rows, h := HashMatrix(p, perm, program), HashHeight(program);
    assert NumRealRows(|program|) < h == |rows|;
    FirstAccepted(p, perm, program);
    LastAccepted(p, perm, program, h - 1);
    forall i | 0 <= i < h
      ensures HashRow(p, rows[i]) && RowResidues(p, rows[i])
      ensures AbsorbsAt(p, rows, i)
    {
      HashRowAccepted(p, perm, program, i);
      BuiltResidues(p, perm, program, i);
      AbsorbRowAccepted(p, perm, program, i, After(rows, i));
    }
    forall i | 0 <= i < h - 1 ensures StepsAt(p, rows, i) {
      TransitionAccepted(p, perm, program, i);
    }
    DigestResidues(p, perm, program);
    BuiltPermutes(p, perm, program);
    FirstStateIsDigest(p, perm, program);
  }

  lemma {:induction false} DigestResidues(p: int, perm: State -> State, program: seq<byte>)
    requires p > 0 && KeepsResidues(p, perm)
    ensures forall i :: 0 <= i < 8 ==> Residue(p, Digest(p, perm, program)[i])
  {
    DigestedResidues(p, perm, program);
    hide Digested;
  }

  lemma {:induction false} BuiltPermutes(p: int, perm: State -> State, program: seq<byte>)
    requires p > 0
    ensures Permuted(perm, HashMatrix(p, perm, program))
  {
    hide PermInput, RowActive, RowBytes, PaddedHeight, Reduce;
  }

  lemma {:induction false} FirstStateIsDigest(p: int, perm: State -> State, program: seq<byte>)
    requires p > 0
    ensures HashMatrix(p, perm, program)[0].state[..8] == Digest(p, perm, program)
  {
    StateOfRow(p, perm, program, 0);
    TailEnds(program, NumRealRows(|program|));
    hide BuiltHashRow, Digested;
  }
}
