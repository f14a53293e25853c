/**
 * The program digest: a sponge that absorbs 24-byte chunks from the tail of the program to its head.
 * The Poseidon2 permutation is a parameter.
 */
module Sponge {
  import opened Words
  import opened PrimeField

  const WIDTH := 16
  const BYTES_PER_ROW := 24
  const RATE_ELEMS := 8
  const BYTES_PER_RATE_ELEM := 3
  const DIGEST_LEN := 8

  type State = s: seq<int> | |s| == 16
    witness [0, 0, 0, 0, 0, 0, 0, 0, 0, 0, 0, 0, 0, 0, 0, 0]

  const INIT: State := [0, 0, 0, 0, 0, 0, 0, 0, 0, 0, 0, 0, 0, 0, 0, 0]

  /** A byte of a chunk, zero past its end. */
  function ByteAt(chunk: seq<int>, i: nat): int {
    if i < |chunk| then chunk[i] else 0
  }

  /** The field element lane g packs: three bytes, little-endian. */
  function Lane(chunk: seq<int>, g: nat): int {
    ByteAt(chunk, 3 * g) + 256 * ByteAt(chunk, 3 * g + 1) + 65536 * ByteAt(chunk, 3 * g + 2)
  }

  /** The state with a chunk added to its eight rate lanes. */
  function Absorb(p: int, state: State, chunk: seq<int>): State
    requires p > 0
  {
    seq(16, g requires 0 <= g < 16 => if g < 8 then Reduce(p, state[g] + Lane(chunk, g)) else state[g])
  }

  function FirstChunk(bytes: seq<int>): seq<int> {
    if |bytes| <= 24 then bytes else bytes[..24]
  }

  function LaterChunks(bytes: seq<int>): seq<int> {
    if |bytes| <= 24 then [] else bytes[24..]
  }

  /** The state after absorbing all later chunks, then the first one. */
  function Digested(p: int, perm: State -> State, bytes: seq<int>): State
    requires p > 0
    decreases |bytes|
  {
    if |bytes| == 0 then INIT
    else perm(Absorb(p, Digested(p, perm, LaterChunks(bytes)), FirstChunk(bytes)))
  }

  /** The exposed half of the state. */
  function Digest(p: int, perm: State -> State, bytes: seq<int>): (d: seq<int>)
    requires p > 0
    ensures |d| == 8
  {
    Digested(p, perm, bytes)[..DIGEST_LEN]
  }

  // The host computation.

  /** `div_ceil(n, 24)` */
  function NumRealRows(n: nat): (rows: nat)
    ensures 24 * rows >= n && (rows > 0 ==> 24 * (rows - 1) < n)
  {
    (n + 23) / 24
  }

  /** `pack_lane`: the shifted bytes are disjoint, so their bitwise or is their sum. */
  method PackLane(program: seq<byte>, start: nat) returns (acc: int)
    ensures acc == ByteAt(program, start) + 256 * ByteAt(program, start + 1) + 65536 * ByteAt(program, start + 2)
  {
    acc := 0;
    var weight: int := 1;
    for k := 0 to BYTES_PER_RATE_ELEM
      invariant weight == if k == 0 then 1 else if k == 1 then 256 else if k == 2 then 65536 else 16777216
      invariant acc == (if k > 0 then ByteAt(program, start) else 0)
                     + (if k > 1 then 256 * ByteAt(program, start + 1) else 0)
                     + (if k > 2 then 65536 * ByteAt(program, start + 2) else 0)
    {
      if start + k < |program| {
        acc := acc + program[start + k] * weight;
      }
      weight := weight * 256;
    }
  }

  /** `permute_in_host` */
  method PermuteInHost(perm: State -> State, state: array<int>)
    requires state.Length == WIDTH
    modifies state
    ensures state[..] == perm(old(state[..]))
  {
    var permuted := perm(state[..]);
    for i := 0 to WIDTH
      invariant forall j :: 0 <= j < i ==> state[j] == permuted[j]
    {
      state[i] := permuted[i];
    }
  }

  /** The bytes from a chunk boundary on. */
  function Tail(program: seq<byte>, row: nat): seq<int> {
    if 24 * row <= |program| then program[24 * row..] else []
  }

  lemma {:induction false} LaneOfTail(program: seq<byte>, row: nat, g: nat)
    requires g < RATE_ELEMS && 24 * row < |program|
    ensures Lane(FirstChunk(Tail(program, row)), g)
         == ByteAt(program, 24 * row + 3 * g) + 256 * ByteAt(program, 24 * row + 3 * g + 1)
          + 65536 * ByteAt(program, 24 * row + 3 * g + 2)
  {
    var chunk := FirstChunk(Tail(program, row));
    ByteOfTail(program, row, 3 * g);
    ByteOfTail(program, row, 3 * g + 1);
    ByteOfTail(program, row, 3 * g + 2);
  }

  lemma {:induction false} ByteOfTail(program: seq<byte>, row: nat, i: nat)
    requires i < 24 && 24 * row < |program|
    ensures ByteAt(FirstChunk(Tail(program, row)), i) == ByteAt(program, 24 * row + i)
  {
  }

  /** Adds the packed chunk of a row to the rate lanes in place. */
  method AbsorbRow(p: int, program: seq<byte>, row: nat, state: array<int>)
    requires p > 0 && state.Length == WIDTH && 24 * row < |program|
    modifies state
    ensures state[..] == Absorb(p, old(state[..]), FirstChunk(Tail(program, row)))
  {
    hide Lane, Tail, FirstChunk;
    ghost var before: State := state[..];
    for g := 0 to RATE_ELEMS
      invariant forall j :: 0 <= j < WIDTH ==>
        state[j] == if j < g then Reduce(p, before[j] + Lane(FirstChunk(Tail(program, row)), j)) else before[j]
    {
      var packed := PackLane(program, row * BYTES_PER_ROW + g * BYTES_PER_RATE_ELEM);
      LaneOfTail(program, row, g);
      state[g] := Reduce(p, state[g] + packed);
    }
  }

  lemma {:induction false} TailNext(program: seq<byte>, row: nat)
    requires 24 * row < |program|
    ensures |Tail(program, row)| > 0 && LaterChunks(Tail(program, row)) == Tail(program, row + 1)
  {
  }

  /** `compute_program_digest`: the loop over chunks, last row first. */
  method ComputeProgramDigest(p: int, perm: State -> State, program: seq<byte>) returns (digest: seq<int>, length: nat)
    requires p > 0
    ensures digest == Digest(p, perm, program) && length == |program|
    ensures |digest| == 8 && forall i :: 0 <= i < 8 ==> digest[i] == Digested(p, perm, program)[i]
  {
    hide Absorb, Tail, LaterChunks, FirstChunk;
    var state := new int[WIDTH](_ => 0);
    var rows := NumRealRows(|program|);
    assert state[..] == INIT;
    assert Tail(program, rows) == [] && Tail(program, 0) == program by {
      TailEnds(program, rows);
    }
    for row := rows downto 0
      invariant state[..] == Digested(p, perm, Tail(program, row))
    {
      AbsorbRow(p, program, row, state);
      PermuteInHost(perm, state);
      TailNext(program, row);
    }
    digest, length := state[..][..DIGEST_LEN], |program|;
  }

  lemma {:induction false} TailEnds(program: seq<byte>, rows: nat)
    requires 24 * rows >= |program|
    ensures Tail(program, rows) == [] && Tail(program, 0) == program
  {
  }
}
