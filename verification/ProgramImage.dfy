/** The program_image bus of an honest proof: the built tables agree on the program. */
module ProgramImage {
  import opened Words
  import opened PrimeField
  import opened U32Ops
  import opened Heights
  import opened Bus
  import opened Sponge
  import opened ProgramRom
  import opened ProgramHash
  import opened ProgramHashTrace
  import opened ProgramFetch

  lemma {:induction false} ActivePrefixCount(active: seq<int>, c: nat)
    requires c <= |active| && forall j :: 0 <= j < |active| ==> active[j] == if j < c then 1 else 0
    ensures ActiveCount(active) == c
  {
    if c > 0 {
      ActivePrefixCount(active[1..], c - 1);
    }
  }

  lemma {:induction false} BuiltChunk(p: int, perm: State -> State, program: seq<byte>, i: nat)
    requires p > 0 && 24 * i <= |program|
    ensures Chunk(BuiltHashRow(p, perm, program, i)) == FirstChunk(Tail(program, i))
  {
    var active, c := RowActive(program, i), if |program| - 24 * i < 24 then |program| - 24 * i else 24;
    hide PermInput, Reduce;
    ActivePrefixCount(active, c);
    hide ActiveCount;
    var bytes := RowBytes(program, i);
    assert forall j :: 0 <= j < c ==> bytes[j] == ByteColumn(program, i, j);
  }

  lemma {:induction false} BuiltRealRows(rows: seq<HashColumns>, n: nat)
    requires n <= |rows| && forall i :: 0 <= i < |rows| ==> rows[i].flag == if i < n then 1 else 0
    ensures RealHashRows(rows) == n
  {
    if n > 0 {
      BuiltRealRows(rows[1..], n - 1);
    }
  }

  lemma {:induction false} MatrixRealRows(p: int, perm: State -> State, program: seq<byte>)
    requires p > 0
    ensures RealHashRows(HashMatrix(p, perm, program)) == NumRealRows(|program|)
  {
    hide PermInput, Reduce, RowBytes, RowActive, PaddedHeight;
    BuiltRealRows(HashMatrix(p, perm, program), NumRealRows(|program|));
  }

  lemma {:induction false} TailSplits(program: seq<byte>, i: nat)
    requires 24 * i < |program|
    ensures Tail(program, i) == FirstChunk(Tail(program, i)) + Tail(program, i + 1)
  {
  }

  lemma {:induction false} AbsorbedIsTail(p: int, perm: State -> State, program: seq<byte>, i: nat)
    requires p > 0 && i <= NumRealRows(|program|) == RealHashRows(HashMatrix(p, perm, program))
    ensures AbsorbedFrom(HashMatrix(p, perm, program), i) == Tail(program, i)
    decreases NumRealRows(|program|) - i
  {
    hide BuiltHashRow, Tail, FirstChunk, RealHashRows, Chunk, PaddedHeight;
    if i == NumRealRows(|program|) {
      TailEnds(program, i);
    } else {
      AbsorbedIsTail(p, perm, program, i + 1);
      BuiltChunk(p, perm, program, i);
      TailSplits(program, i);
    }
  }

  /** The built program-hash table absorbs the program. */
  lemma {:induction false} BuiltAbsorbsProgram(p: int, perm: State -> State, program: seq<byte>)
    requires p > 0
    ensures Absorbed(HashMatrix(p, perm, program)) == program
  {
    MatrixRealRows(p, perm, program);
    hide HashMatrix, RealHashRows, AbsorbedFrom, Tail;
    AbsorbedIsTail(p, perm, program, 0);
    TailEnds(program, NumRealRows(|program|));
  }

  /**
   * The program_image bus balances between the built tables of every program, so that an honest
   * proof exposes the digest and the length of its program.
   */
  lemma {:induction false} ImageBalances(p: int, perm: State -> State, program: seq<byte>, pcs: seq<word>, padding: nat)
    requires LargePrime(p) && KeepsResidues(p, perm) && 4 <= |program| <= MAX_PROGRAM && FetchesInside(program, pcs)
    requires forall a: nat :: a < 2 * MAX_PROGRAM ==> MultOf(pcs, padding, a) < p
    requires 24 * HashHeight(program) <= p
    ensures Balanced(p, ImageSends(p, HashMatrix(p, perm, program)), ImageReceives(p, RomMatrix(program, pcs, padding)))
  {
    var rows, rom := HashMatrix(p, perm, program), RomMatrix(program, pcs, padding);
    assert |rows| == HashHeight(program);
    assert IsPrime(p) && p > 256 && |program| < p;
    HeightFits(|program|);
    assert |rom| <= p;
    RomMatrixResidues(p, program, pcs, padding);
    hide HashMatrix, RomMatrix, IsPrime, LargePrime, KeepsResidues, Accepted, Permuted, RomEval, RomResidues, MultOf, Absorbed,
         RomBytes, ImageSends, ImageReceives, Balanced, HashHeight, Digest;
    BuiltTableAccepted(p, perm, program);
    IsChunked(p, rows, Digest(p, perm, program), |program|);
    HashSendsImage(p, rows, Digest(p, perm, program), |program|);
    BuiltAbsorbsProgram(p, perm, program);
    RomAccepted(p, program, pcs, padding);
    RomOffersImage(p, rom);
    RomMatrixBytes(program, pcs, padding);
    EqualBalances(p, ImageSends(p, rows), ImageReceives(p, rom));
  }
}
