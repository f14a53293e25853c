/**
 * The decode buses: what an instruction row learns about the program. The `decode` tuple carries the
 * pc of the instruction; the `decode_u` and `decode_j` tuples do not.
 */
module DecodeBus {
  import opened Words
  import opened PrimeField
  import opened Rv32
  import opened Vm
  import opened U32Ops
  import opened Bus
  import opened ProgramRom
  import opened Decode
  import opened ProgramFetch
  import opened Jal

  /** A tuple of the `decode` bus: pc, instruction, rd, rs1, and rs2 or the immediate. */
  datatype DecodeTuple = DecodeTuple(pc: Limbs, id: int, rd: int, rs1: int, field4: int)

  /** A tuple of the `decode_u` and `decode_j` buses: instruction, rd, and the two immediate fields. */
  datatype UpperTuple = UpperTuple(id: int, rd: int, high12: int, low8: int)

  // What the decode table offers.

  function ImmGate(f: Flags): int {
    f[0] + f[1] + f[2] + f[3] + f[17] + f[18] + f[22]
  }

  function ShiftImmGate(f: Flags): int {
    f[12] + f[13] + f[14]
  }

  function RTypeGate(f: Flags): int {
    f[4] + f[5] + f[6] + f[7] + f[8] + f[9] + f[10] + f[11] + f[15] + f[16]
  }

  function UpperGate(f: Flags): int {
    f[19] + f[20]
  }

  function StandardGate(f: Flags): int {
    1 - UpperGate(f) - f[21]
  }

  function Field4(r: DecodeColumns): int {
    ImmGate(r.flags) * r.imm + (RTypeGate(r.flags) + ShiftImmGate(r.flags)) * r.rs2 + UpperGate(r.flags) * r.imm
  }

  function StandardReceive(r: DecodeColumns): Entry<DecodeTuple> {
    Entry(DecodeTuple(r.pc, r.packed, r.rd, r.rs1, Field4(r)), r.mult * StandardGate(r.flags))
  }

  function UpperReceive(r: DecodeColumns): Entry<UpperTuple> {
    Entry(UpperTuple(r.packed, r.rd, r.imm, r.immLow8), r.mult * UpperGate(r.flags))
  }

  function JumpReceive(r: DecodeColumns): Entry<UpperTuple> {
    Entry(UpperTuple(r.packed, r.rd, JalForm(r.decompositions), r.immLow8), r.mult * r.flags[21])
  }

  function StandardReceives(rows: seq<DecodeColumns>): seq<Entry<DecodeTuple>> {
    seq(|rows|, k requires 0 <= k < |rows| => StandardReceive(rows[k]))
  }

  function UpperReceives(rows: seq<DecodeColumns>): seq<Entry<UpperTuple>> {
    seq(|rows|, k requires 0 <= k < |rows| => UpperReceive(rows[k]))
  }

  function JumpReceives(rows: seq<DecodeColumns>): seq<Entry<UpperTuple>> {
    seq(|rows|, k requires 0 <= k < |rows| => JumpReceive(rows[k]))
  }

  // What the tuples denote.

  /** The bus fields are those of instruction i; the meaning of the last two depends on the format. */
  predicate Denotes(i: Instruction, id: int, rd: int, rs1: int, field4: int, low8: int) {
    && Id(i) == id && i.rd == rd
    && (!UsesLow8(i) ==> i.rs1 == rs1)
    && (IsRType(i) ==> i.rs2 == field4)
    && (IsShiftImm(i) ==> i.imm == field4)
    && (IsUType(i) ==> i.imm == field4 * 256 + low8)
    && (i.Jal? ==> i.imm == Offset(field4, low8))
    && (!UsesLow8(i) && !IsRType(i) && !IsShiftImm(i) ==> 0 <= field4 < 4096 && i.imm == SignExtend12(field4))
  }

  /** The fields leave no choice of instruction. */
  lemma {:induction false} DenotesOne(i: Instruction, j: Instruction, id: int, rd: int, rs1: int, field4: int, low8: int)
    requires Denotes(i, id, rd, rs1, field4, low8) && Denotes(j, id, rd, rs1, field4, low8)
    ensures i == j
  {
    hide Offset, SignExtend12;
  }

  /** The instruction the machine would execute at an address. */
  function InstructionAt(program: seq<byte>, pc: int): Option<Instruction> {
    if 0 <= pc && pc + 3 < |program| then DecodeInstruction(WordAt(program, pc)) else None
  }

  /** The program holds at pc the instruction with these fields. */
  predicate Holds(program: seq<byte>, pc: int, id: int, rd: int, rs1: int, field4: int, low8: int) {
    InstructionAt(program, pc).Some? && Denotes(InstructionAt(program, pc).value, id, rd, rs1, field4, low8)
  }

  lemma {:induction false} FormatOfFlags(f: Flags, i: Instruction)
    requires OneHot(f, Id(i))
    ensures UpperGate(f) == Flag(IsUType(i)) && f[21] == Flag(i.Jal?) && RTypeGate(f) == Flag(IsRType(i))
    ensures ShiftImmGate(f) == Flag(IsShiftImm(i))
    ensures ImmGate(f) == Flag(!UsesLow8(i) && !IsRType(i) && !IsShiftImm(i))
  {
  }

  lemma {:induction false} OneFormat(i: Instruction)
    ensures Flag(IsUType(i)) + Flag(i.Jal?) + Flag(IsRType(i)) + Flag(IsShiftImm(i))
          + Flag(!UsesLow8(i) && !IsRType(i) && !IsShiftImm(i)) == 1
  {
  }

  /** The fields a decode row offers on each bus are those of the word its bytes form. */
  lemma {:induction false} FieldsDenote(r: DecodeColumns, w: word)
    requires Decodes(r, w)
    ensures var i := DecodeInstruction(w).value;
            && StandardGate(r.flags) == Flag(!UsesLow8(i)) && UpperGate(r.flags) == Flag(IsUType(i))
            && (!UsesLow8(i) ==> Denotes(i, r.packed, r.rd, r.rs1, Field4(r), 0))
            && (IsUType(i) ==> Denotes(i, r.packed, r.rd, 0, r.imm, r.immLow8))
  {
    var i := DecodeInstruction(w).value;
    hide DecodeInstruction, OneHot, RTypeGate, ImmGate, ShiftImmGate, UpperGate, StandardGate, Field4, SignExtend12, Offset, Id;
    FieldSelected(r, i);
  }

  /** The gates select the last field of the instruction. */
  lemma {:induction false} FieldSelected(r: DecodeColumns, i: Instruction)
    requires OneHot(r.flags, Id(i))
    ensures StandardGate(r.flags) == Flag(!UsesLow8(i)) && UpperGate(r.flags) == Flag(IsUType(i))
    ensures IsRType(i) || IsShiftImm(i) ==> Field4(r) == r.rs2
    ensures !UsesLow8(i) && !IsRType(i) && !IsShiftImm(i) ==> Field4(r) == r.imm
  {
    FormatOfFlags(r.flags, i);
    OneFormat(i);
    hide OneHot, RTypeGate, ImmGate, ShiftImmGate, UpperGate, Id, IsRType, IsUType, IsShiftImm;
  }

  lemma {:induction false} JumpDenotes(p: int, r: DecodeColumns)
    requires LargePrime(p) && DecodeResidues(p, r) && DecodeEval(p, r)
    ensures AreBytes(r.instruction) && 0 <= Value(r.instruction) < TWO32 && Decodes(r, Value(r.instruction))
    ensures var i := DecodeInstruction(Value(r.instruction)).value;
            && r.flags[21] == Flag(i.Jal?)
            && (i.Jal? ==> Denotes(i, r.packed, r.rd, 0, JalForm(r.decompositions), r.immLow8))
  {
    hide DecodeEval, DecodeResidues, LargePrime, DecodeInstruction, Value, JalForm, Offset, RdField;
    DecodeSound(p, r);
    var i := DecodeInstruction(Value(r.instruction)).value;
    FormatOfFlags(r.flags, i);
    hide OneHot;
    if i.Jal? {
      DecodeBusCarriesOffset(p, r);
    }
  }

  // What a balanced bus gives an instruction row.

  ghost predicate DecodeTableAccepted(p: int, rows: seq<DecodeColumns>)
    requires p > 0
  {
    forall k :: 0 <= k < |rows| ==> DecodeResidues(p, rows[k]) && DecodeEval(p, rows[k])
  }

  /** The address a decode row fetches from: the residue its pc limbs stand for. */
  function ReadAddress(p: int, r: DecodeColumns): int
    requires p > 0
  {
    Reduce(p, Value(r.pc))
  }

  /** An accepted decode table whose fetches are answered by the program. */
  ghost predicate DecodesProgram(p: int, program: seq<byte>, rows: seq<DecodeColumns>, rom: seq<ProgramColumns>)
    requires p > 0
  {
    DecodeTableAccepted(p, rows) && ProgramBus(p, rows, rom) && RomBytes(rom) == program
  }

  /** The instruction at the address a decode row fetches from, and the fields the row offers for it. */
  lemma {:induction false} RowReads(p: int, program: seq<byte>, rows: seq<DecodeColumns>, rom: seq<ProgramColumns>, k: nat)
    requires LargePrime(p) && DecodesProgram(p, program, rows, rom) && k < |rows|
    ensures var r := rows[k];
            && InstructionAt(program, ReadAddress(p, r)).Some?
            && var i := InstructionAt(program, ReadAddress(p, r)).value;
               && StandardGate(r.flags) == Flag(!UsesLow8(i)) && UpperGate(r.flags) == Flag(IsUType(i)) && r.flags[21] == Flag(i.Jal?)
               && (!UsesLow8(i) ==> Denotes(i, r.packed, r.rd, r.rs1, Field4(r), 0))
               && (IsUType(i) ==> Denotes(i, r.packed, r.rd, 0, r.imm, r.immLow8))
               && (i.Jal? ==> Denotes(i, r.packed, r.rd, 0, JalForm(r.decompositions), r.immLow8))
    ensures AreBytes(rows[k].pc) ==> ReadAddress(p, rows[k]) == Value(rows[k].pc)
  {
    hide DecodeEval, DecodeResidues, LargePrime, ProgramBus, RomBytes, Denotes, OneHot, OperandsAre, StandardGate, UpperGate, Field4,
         JalForm, Value, WordAt, DecodeInstruction, AreBytes, Flag, UsesLow8, IsUType, Reduce, Id;
    DecodeReadsProgram(p, program, rows, rom, k);
    FieldsDenote(rows[k], Value(rows[k].instruction));
    JumpDenotes(p, rows[k]);
    assert Reduce(p, Value(rows[k].pc)) >= 0;
  }

  /**
   * The `decode` bus. A live tuple over byte pc limbs that a balanced bus sends names the instruction
   * the program holds at that pc, with its registers and immediate.
   */
  lemma {:induction false} StandardFetched(p: int, program: seq<byte>, rows: seq<DecodeColumns>, rom: seq<ProgramColumns>,
                                           sends: seq<Entry<DecodeTuple>>, t: DecodeTuple)
    requires LargePrime(p) && DecodesProgram(p, program, rows, rom)
    requires Selectors(sends) && |sends| < p && Balanced(p, sends, StandardReceives(rows))
    requires t in Live(sends) && AreBytes(t.pc)
    ensures Holds(program, Value(t.pc), t.id, t.rd, t.rs1, t.field4, 0)
    ensures !UsesLow8(InstructionAt(program, Value(t.pc)).value)
  {
    var receives := StandardReceives(rows);
    LiveBound(sends);
    SentIsReceived(p, sends, receives, t);
    var k: nat :| k < |receives| && receives[k].tuple == t && receives[k].multiplicity != 0;
    hide DecodesProgram, Denotes, StandardGate, Field4, InstructionAt, Value, AreBytes, Live, Balanced, UsesLow8;
    RowReads(p, program, rows, rom, k);
  }

  // The buses without a pc.

  /** A decode row offers the tuple to LUI and AUIPC rows, or to JAL rows. */
  predicate Offers(r: DecodeColumns, t: UpperTuple) {
    || (UpperReceive(r).tuple == t && UpperReceive(r).multiplicity != 0)
    || (JumpReceive(r).tuple == t && JumpReceive(r).multiplicity != 0)
  }

  lemma {:induction false} OfferedDenotes(p: int, program: seq<byte>, rows: seq<DecodeColumns>, rom: seq<ProgramColumns>, k: nat,
                                          t: UpperTuple)
    requires LargePrime(p) && DecodesProgram(p, program, rows, rom) && k < |rows| && Offers(rows[k], t)
    ensures Holds(program, ReadAddress(p, rows[k]), t.id, t.rd, 0, t.high12, t.low8)
  {
    hide DecodesProgram, Denotes, UpperGate, StandardGate, JalForm, InstructionAt, ReadAddress;
    RowReads(p, program, rows, rom, k);
  }

  /** A live tuple of `decode_u` or `decode_j` is offered by some decode row. */
  lemma {:induction false} UpperOffered(p: int, rows: seq<DecodeColumns>, sends: seq<Entry<UpperTuple>>, t: UpperTuple) returns (k: nat)
    requires p > 0 && Selectors(sends) && |sends| < p && t in Live(sends)
    requires Balanced(p, sends, UpperReceives(rows)) || Balanced(p, sends, JumpReceives(rows))
    ensures k < |rows| && Offers(rows[k], t)
  {
    LiveBound(sends);
    hide Balanced, Live, UpperGate;
    if Balanced(p, sends, UpperReceives(rows)) {
      SentIsReceived(p, sends, UpperReceives(rows), t);
      k :| k < |rows| && UpperReceives(rows)[k].tuple == t && UpperReceives(rows)[k].multiplicity != 0;
    } else {
      SentIsReceived(p, sends, JumpReceives(rows), t);
      k :| k < |rows| && JumpReceives(rows)[k].tuple == t && JumpReceives(rows)[k].multiplicity != 0;
    }
  }

  /** The program is the same at pc and wherever the decode rows that offer the tuple fetch from. */
  ghost predicate InPlace(p: int, program: seq<byte>, rows: seq<DecodeColumns>, pc: int, t: UpperTuple)
    requires p > 0
  {
    forall k :: 0 <= k < |rows| && Offers(rows[k], t) ==>
      InstructionAt(program, pc) == InstructionAt(program, ReadAddress(p, rows[k]))
  }

  /**
   * The `decode_u` and `decode_j` buses. A row whose live tuple balances there is a row for the
   * instruction at its pc exactly when the program holds the same instruction at that pc and at the
   * address its decode row fetched from. Nothing on the bus says that the two addresses are equal.
   */
  lemma {:induction false} UpperFetchedIff(p: int, program: seq<byte>, rows: seq<DecodeColumns>, rom: seq<ProgramColumns>,
                                           sends: seq<Entry<UpperTuple>>, t: UpperTuple, pc: int)
    requires LargePrime(p) && DecodesProgram(p, program, rows, rom)
    requires Selectors(sends) && |sends| < p && t in Live(sends)
    requires Balanced(p, sends, UpperReceives(rows)) || Balanced(p, sends, JumpReceives(rows))
    ensures Holds(program, pc, t.id, t.rd, 0, t.high12, t.low8) <==> InPlace(p, program, rows, pc, t)
  {
    var k0 := UpperOffered(p, rows, sends, t);
    hide Offers, DecodesProgram, Denotes, InstructionAt, ReadAddress, LargePrime, Balanced, Live;
    OfferedDenotes(p, program, rows, rom, k0, t);
    if Holds(program, pc, t.id, t.rd, 0, t.high12, t.low8) {
      forall k | 0 <= k < |rows| && Offers(rows[k], t)
        ensures InstructionAt(program, pc) == InstructionAt(program, ReadAddress(p, rows[k]))
      {
        OfferedDenotes(p, program, rows, rom, k, t);
        DenotesOne(InstructionAt(program, pc).value, InstructionAt(program, ReadAddress(p, rows[k])).value,
                   t.id, t.rd, 0, t.high12, t.low8);
      }
    }
  }

  /** A pc on those tuples would do: a row placed where its decode row is placed is in place. */
  lemma {:induction false} PlacedFetched(p: int, program: seq<byte>, rows: seq<DecodeColumns>, rom: seq<ProgramColumns>, k: nat,
                                         t: UpperTuple, pc: Limbs)
    requires LargePrime(p) && DecodesProgram(p, program, rows, rom) && k < |rows| && Offers(rows[k], t)
    requires rows[k].pc == pc && AreBytes(pc)
    ensures Holds(program, Value(pc), t.id, t.rd, 0, t.high12, t.low8)
  {
    hide Offers, DecodesProgram, Denotes, InstructionAt, ReadAddress, LargePrime, AreBytes, Value;
    OfferedDenotes(p, program, rows, rom, k, t);
    RowReads(p, program, rows, rom, k);
  }
}
