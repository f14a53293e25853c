# Loquela: what accepted tables prove

Loquela runs an RV32I program on a virtual machine, logs timestamped register operations, turns the
log into tables, and constrains every table by polynomial identities over a prime field. Global
buses tie the tables together: tuples sent with multiplicities must cancel the tuples received. This
project models that chain in Dafny 4.11 and proves what the tables say about the machine, in both
directions: accepted tables are a run of the machine, and a run of the machine makes accepted tables.

How the pieces are stated:

- **Field.** Columns are integers standing for residues modulo a prime p; a constraint is `Zero(p, e)`,
  that is, `e % p == 0`. Euclid's lemma is proved in `PrimeField`. Limb arithmetic needs p > 2^26;
  Mersenne31, the field of crates/prover/src/lib.rs:62, is one instance.
- **Rows and tables.** An accepted row is a predicate on a datatype with the columns of the source
  (`SraEval`, `JalEval`, `Transition`, ...). What a lookup gives a real row is a separate predicate
  (`SraLookups`, ...). Trace builders are methods over arrays whose results are tied to functions, and
  lemmas say those functions are accepted. `is_dummy` is 1 on real rows, as in the source.
- **Buses.** `Bus.Balanced` says that for every tuple the sends and receives cancel in the field. The
  step from there to equal multisets is `Bus.BalancedIffEqual`.
- **Poseidon2** is a parameter `perm`, constrained only by perm_out = perm(perm_in) on real rows.
- **Inductions** are written out: every lemma carries `{:induction false}`, so no proof here rests on
  an induction Dafny found by itself and none changes when its heuristics do.

The modules follow the source: `Rv32`, `Encoding`, `Results`, `Vm`, `VmLog`, `OfflineMemory` (the machine, what its
instructions mean, and its log);
`PrimeField`, `Bits`, `U32Ops`, `U32Witness`, `ByteTables`, `Bus`, `Heights` (the gadgets); `Shifts`,
`Subtract`, `RTypeTrace`, `Jal`, `JalAir`, `JalTrace`, `JalrAir` (instruction tables); `U32LessThan`,
`TimestampLessThan`, `MemoryAir`, `MemoryTimes`, `MemoryTrace`, `MemoryBuses`, `ByteCounts`,
`MemoryComplete` (memory); `ProgramRom`, `Sponge`, `ProgramHash`, `ProgramHashTrace`, `ProgramImage`,
`Decode`, `ProgramFetch`, `DecodeBus` (program and decoding); `Lookups`, `Multiplicities` (lookup tables);
`TraceBus`, `RunRows`, `EndToEnd`, `RowBuses`, `InstructionRows`, `TableRows`, `RunBuses`, `RunTables`, `RunComplete`,
`JalSwap` (whole executions). `dafny verify dfyconfig.toml` checks everything.

What the machine computes is stated apart from the interpreter: `Encoding.DecodeEncode` and `Encoding.EncodeDecode`
make its decoder the inverse of an encoder with the fields of RV32I, and `Results.StepWrites` says of the value in rd
after a step that it is the only one in the relation RV32I gives the instruction.

Two theorems face each other over `TableRows.Tables`, everything a proof commits to.

- **Soundness**, `TableRows.AcceptedProofIsTheRun`. The lookup buses give every row what its lookups promise
  (`RowWithin`); its constraints then make it carry out the instruction its decode columns denote, exactly when
  its open columns are right (`CarriesOutIff`); the decode buses say which instruction the program holds at the
  pc of the row (`StandardPlaced`, `UpperPlacedIff`); the trace bus makes pcs bytes and puts the rows in order
  (`PcIsByte`, `TraceBus.OneChain`); the memory bus moves their accesses into the memory table
  (`RowBuses.MemoryBusMoves`), which replays (`MemoryTimes.AcceptedMemoryReplays`).
- **Completeness**, `RunComplete.RunIsProved`. The tables made of a run are accepted on every bus and meet every
  condition soundness asks for.

## What the code does not establish

Where the code falls short of its comments the model follows the code, with an input that shows it and the
exact condition under which the code is right:

- **LUI, AUIPC and JAL are not placed.** The decode tuple carries the pc; the decode_u and decode_j tuples
  do not (crates/air/src/decode/air.rs:792-854), so such a row may stand where another one belongs.
  `JalSwap.JalsCanSwap` exchanges two JALs over the decode and program tables of a program: all tables are
  accepted, all buses balance, the end point is that of the machine, and the link register is wrong. `InstructionRows.UpperPlacedIff` is the exact condition, and
  `DecodeBus.PlacedFetched` says that a pc on the tuples would meet it.
- **Timestamps are not ordered.** The timestamp table never asserts that the top bit of x + 2^24 - y is 0.
  `MemoryComplete.TimeOrderIsNotEnforced` is an accepted table, with accepted comparison tables and balanced
  buses, that does not replay. `MemoryTimes.TimestampsIncreaseIff`: the order holds exactly when that bit is 0
  in the rows that answer comparisons within an address.
- **The last row compares itself with the first**, and no constraint makes is_address_equal boolean there.
  `MemoryTimes.WrapIsHarmless` is what the comparison of timestamps needs of it, accesses at distinct times
  meet it (`DistinctIsHarmless`), and `MemoryComplete.LastSelectorMatters` shows what happens otherwise.
- **The `*_byte3_low7` columns** are described as values in 0..127 but are only looked up as bytes.
  `Shifts.SraSound` and `Subtract.SltSound` say exactly when the row is nevertheless right;
  `Shifts.LogicalRowAccepted` and `Subtract.WrongRowAccepted` are wrong rows that are accepted.
- **JALR.** The low byte of the sign-extended immediate is not range checked, next_pc is argued but not asserted
  to be even, and rd = 0 is linked like any other register where the machine logs 0. `JalrAir.JalrSound` has the
  two exact conditions, `JalrAir.WrongJumps` and `JalrAir.ZeroLinkRefused` the inputs. Rows with rd = 0 are
  outside `EndToEnd.RowOk` and `RunComplete.RunIsProved`. The ADDI, SLTI and SLTIU tables have the same
  unchecked byte (crates/air/src/instructions/addi/air.rs:132-153).
- **Register 0.** The machine writes register 0 for instructions other than jumps, and JALR with rd = 0 logs a
  write of 0 it does not perform. `VmLog.ZeroRegister` and `VmLog.LogFaithfulness` give the exact conditions,
  `VmLog.ZeroRegisterOverwritten` and `VmLog.UnfaithfulRun` the program that breaks them.
- **Padding rows of the memory table** look like accesses to address 0, so a run whose last access by key
  leaves register 0 non-zero has no accepted matrix; `MemoryTrace.MatrixAccepted` is the exact condition and
  `MemoryComplete.OverwrittenRefused` the log of addi x0, x0, 1.
- **Limbs of next_pc** are byte limbs by assumption (crates/air/src/primitives/u32_ops.rs:29). Where u32_plus_four makes
  them they are right in the field regardless (`U32Ops.PlusFourInField`); a jump is right in the field exactly when
  its top carry is the overflow, and the limbs are bytes exactly when the carries are right
  (`JalAir.NextPcInFieldIff`, `U32Witness.CarriesDecideBytes`). `JalAir.StrayJumpAccepted` is an accepted jump to
  8 - 2^32. With byte next_pc limbs those of pc are bytes too (`InstructionRows.PcIsByte`), and so are the read
  columns of the memory table, always (`MemoryAir.ReadsForced`). The limbs of the program and decode tables need
  not be: `ProgramFetch.FetchAnywhere` says what is read through them.
- **Instructions across a multiple of 256.** A fetch adds 0 to 3 to the low limb of the pc and carries nothing over,
  so a run has balanced fetches exactly when no pc has a low limb above 252: `ProgramFetch.FetchesBalanceIff`, with
  `ProgramFetch.SplitUnanswered` for every run that has one.

## Model

| member | source | states |
|---|---|---|
| `Vm.VM.Step` | crates/vm/src/lib.rs:101-761 | One step moves the machine to the state the step relation names, or reports the panic and leaves the machine as it was: fetch past the ROM, unsupported word, counter overflow. |
| `Vm.VM.StepRType` | crates/vm/src/lib.rs:284-600 | The register-register arm: two reads and a write at three consecutive timestamps, the registers, trace, pc and clock after it; register 0 is written like any other. |
| `Vm.VM.StepIType` | crates/vm/src/lib.rs:120-283 | The register-immediate arm: a read and a write at two consecutive timestamps and the state after it. |
| `Vm.VM.StepUType` | crates/vm/src/lib.rs:649-681 | The LUI/AUIPC arm: one write and one tick. |
| `Vm.VM.StepJal` | crates/vm/src/lib.rs:682-712 | JAL: the jump and the link; with rd = 0 no operation is logged but the clock still advances. |
| `Vm.VM.StepJalr` | crates/vm/src/lib.rs:713-750 | JALR: with rd = 0 a write of 0 is logged that the register file does not perform. |
| `Vm.VM.Run` | crates/vm/src/lib.rs:94-99 | The run loop from the initial state is a number of executed steps, each taken at a pc inside the ROM; it stops at the end of the ROM, at a panic of the step there, or when cut off. |
| `Results.StepWrites` | crates/vm/src/lib.rs:101-761 | After a step, register rd holds a value if and only if that value stands in the relation RV32I gives its instruction: bit by bit for AND, OR and XOR, quotient and remainder for the shifts, order for the comparisons, high and low parts for the upper immediates. |
| `Results.ResultWrites` | crates/vm/src/lib.rs:120-750 | For every instruction with an encoding and all operands, the value the interpreter computes stands in that relation, which is written without the interpreter. |
| `Results.WritesOne` | crates/vm/src/lib.rs:120-750 | No other value does. |
| `Results.LimbsForce` | crates/air/src/primitives/u32_ops.rs:6-85 | The limb constraints of addition force the value ADD writes, those of subtraction the value SUB writes and, by the last borrow, the value SLTU writes. |
| `Encoding.DecodeEncode` | crates/vm/src/lib.rs:775-945 | The decoder inverts the RV32I encoder, written from opcode, funct3, funct7, field places and immediate scramble, on every instruction with an encoding. |
| `Encoding.EncodeDecode` | crates/vm/src/lib.rs:775-945 | Every word that decodes is the encoding of its instruction, whose immediate fits its field. |
| `OfflineMemory.OfflineMemoryChecking` | crates/air/src/memory/air.rs:110-125 | For two arrangements of the same operations, by time and by (type, address, timestamp): the neighbour checks of the second hold if and only if the first replays on zeroed memory. |
| `VmLog.LogFaithfulness` | crates/vm/src/lib.rs:101-769 | After every step of a run the log is time ordered below the clock, replays from zero, and leaves the current registers, if and only if no JALR naming x0 ran while register 0 was non-zero. |
| `VmLog.ZeroRegister` | crates/vm/src/lib.rs:120-142 | Register 0 reads 0 after every step of a run if and only if every non-jump instruction naming x0 computed 0. |
| `VmLog.CleanRunIsFaithful` | crates/vm/src/lib.rs:101-769 | Runs that compute only zeroes for x0 keep a faithful log after every step. |
| `VmLog.UnfaithfulRun` | crates/vm/src/lib.rs:716-740 | A two-instruction program whose log does not replay: ADDI makes x0 non-zero and JALR x0 logs a clearing it does not perform. |
| `VmLog.ZeroRegisterOverwritten` | crates/vm/src/lib.rs:120-142 | After one step of that program register 0 holds 1. |
| `PrimeField.Euclid` | crates/air/src/memory/air.rs:78-85 | The field of p elements has no zero divisors; what makes boolean and product constraints decide their columns. |
| `PrimeField.IsZeroGadget` | crates/air/src/primitives/u32_less_than_lookup.rs:75-84 | inv * d + 1 = flag and d * flag = 0 force flag to say whether d is 0. |
| `PrimeField.NegatedInverseHolds` | crates/air/src/primitives/u32_less_than_lookup.rs:200-203 | The inverse the trace builders store satisfies inv * d + 1 = 0 for every non-zero difference. |
| `Bits.CheckBitDecomposition` | crates/air/src/primitives/bit_decompose.rs:4-20 | The weight-doubling loop accepts exactly when all bits are boolean and their binary number equals the value in the field. |
| `Bits.PackBits` | crates/air/src/primitives/bit_decompose.rs:24-38 | The packing loop returns the binary number of the bits found at the listed (byte, bit) positions of the decompositions. |
| `Bits.DecompositionExact` | crates/air/src/primitives/bit_decompose.rs:4-20 | An accepted decomposition of at most p values is the binary form of its value, with no wrap-around. |
| `U32Ops.U32AddMeans` | crates/air/src/primitives/u32_ops.rs:6-27 | Accepted byte limbs of u32_add are addition modulo 2^32, and the top carry is its overflow. |
| `U32Ops.AddInFieldIff` | crates/air/src/primitives/u32_ops.rs:6-27 | A u32_add whose result limbs need not be bytes is addition modulo 2^32 in the field if and only if its top carry is the overflow. |
| `U32Ops.U32PlusFourMeans` | crates/air/src/primitives/u32_ops.rs:32-57 | Accepted byte limbs of u32_plus_four are x + 4 without overflow. |
| `U32Ops.PlusFourInField` | crates/air/src/primitives/u32_ops.rs:32-57 | Without any assumption on limbs, u32_plus_four makes the number y stands for x + 4 in the field. |
| `U32Ops.U32SubMeans` | crates/air/src/primitives/u32_ops.rs:63-85 | Accepted byte limbs of u32_sub are x - y modulo 2^32, and the last borrow is x < y unsigned. |
| `U32Witness.AddWitness` | crates/air/src/instructions/jal/trace.rs:104-115 | The computed carries satisfy u32_add on every pair of words. |
| `U32Witness.CarriesDecideBytes` | crates/air/src/primitives/u32_ops.rs:6-57 | The result limbs of an accepted sum of bytes are bytes if and only if its carry columns are the carries. |
| `U32Witness.U32AddCarries` | crates/air/src/instructions/jal/trace.rs:104-115 | The carry loop computes the carry of every limb. |
| `U32Witness.PlusFourWitness` | crates/air/src/instructions/sra/trace.rs:65-74 | The pc + 4 carries satisfy u32_plus_four on every address that does not overflow. |
| `U32Witness.IncWitness` | crates/air/src/program/trace.rs:18-29 | The increment carries satisfy u32_inc on every address. |
| `U32Witness.SltBorrows` | crates/air/src/instructions/slt/trace.rs:74-92 | The subtract-and-correct loop returns the limbs of x - y modulo 2^32 and the borrow chain. |
| `U32Witness.SubBorrows` | crates/air/src/instructions/sub/trace.rs:76-90 | The compare-and-borrow loop returns the same borrow chain. |
| `U32Witness.SubWitness` | crates/air/src/primitives/u32_ops.rs:63-85 | Those borrows satisfy u32_sub on every pair of words. |
| `ByteTables.ShiftLeftTable` | crates/air/src/primitives/byte_shift_left_lookup.rs:41-60 | Row b * 8 + s of the table is the left shift of byte b by s with its carry. |
| `ByteTables.ShiftRightTable` | crates/air/src/primitives/byte_shift_right_lookup.rs:44-62 | Row b * 8 + s of the table is the right shift of byte b by s with its carry. |
| `ByteTables.SllRowSplits` | crates/air/src/primitives/byte_shift_left_lookup.rs:43-56 | A table row splits b * 2^s into a low and a high byte, each within bounds. |
| `ByteTables.SrlRowSplits` | crates/air/src/primitives/byte_shift_right_lookup.rs:46-58 | A table row splits b * 2^(8-s) into a low and a high byte, each within bounds. |
| `ByteTables.PairTable` | crates/air/src/primitives/byte_less_than_lookup.rs:28-50 | The triangular enumeration puts (x, y), x < y, at row y(y-1)/2 + x, every valid row holds such a pair, and rows 32640 to 32767 hold (0, 0). |
| `ByteTables.PairIndexInjective` | crates/prover/src/lib.rs:727-732 | No two pairs share a row. |
| `Shifts.AmountForced` | crates/air/src/instructions/sra/air.rs:171-198 | The shift-amount equation with range-checked parts has one solution in the field: rs2 mod 8, (rs2 / 8) mod 4, rs2 / 32 of the low byte, with the matching one-hot selector. |
| `Shifts.SllSound` | crates/air/src/instructions/sll/air.rs:157-243 | Every accepted SLL row writes rs1 * 2^(rs2 mod 32) modulo 2^32 and, on byte addresses, next_pc = pc + 4. |
| `Shifts.SllComplete` | crates/air/src/instructions/sll/trace.rs:76-127 | fill_row makes an accepted row, with table-valid tuples, of every pair of words and the shifted word. |
| `Shifts.SraSound` | crates/air/src/instructions/sra/air.rs:161-271 | An accepted SRA row with byte columns is the arithmetic right shift of rs1 by rs2 mod 32 if and only if its low-7 column is below 128 or the amount is 0. |
| `Shifts.LogicalRowAccepted` | crates/air/src/instructions/sra/air.rs:161-271 | An accepted SRA row, lookups included, with low-7 column 128 that writes the logical shift 0x40000000 of 0x80000000 where the arithmetic one is 0xC0000000. |
| `Shifts.LogicalIsNotArithmetic` | crates/air/src/instructions/sra/air.rs:199-214 | A logical and an arithmetic right shift of a negative word agree only for amount 0. |
| `Shifts.SraComplete` | crates/air/src/instructions/sra/trace.rs:76-144 | fill_row makes an accepted row with a low-7 column below 128 of every pair of words and the shifted word. |
| `Subtract.SubSound` | crates/air/src/instructions/sub/air.rs:107-124 | Every accepted SUB row writes x - y modulo 2^32. |
| `Subtract.SubComplete` | crates/air/src/instructions/sub/trace.rs:92-121 | fill_row makes an accepted row of every pair of words and their difference. |
| `Subtract.SltSound` | crates/air/src/instructions/slt/air.rs:136-193 | The result of an accepted SLT row is the signed comparison if and only if the two low-7 columns are on the same side of 128; the difference limbs are x - y modulo 2^32. |
| `Subtract.WrongRowAccepted` | crates/air/src/instructions/slt/air.rs:136-193 | An accepted SLT row, lookups included, with low-7 column 128 that denies -2^31 < 0. |
| `Subtract.SltComplete` | crates/air/src/instructions/slt/trace.rs:94-135 | fill_row makes an accepted row with low-7 columns below 128 of every pair of words. |
| `Subtract.CompareBorrowLoops` | crates/air/src/instructions/sub/trace.rs:76-90 | The two borrow loops agree on all inputs. |
| `RTypeTrace.ExtractedAreMachineSteps` | crates/air/src/instructions/sra/trace.rs:19-53 | In every run the extracted steps are exactly the steps of the machine with that instruction, in order: pc, entry timestamp, values of the two source registers, old value of rd, value written. |
| `RTypeTrace.BuildSra` | crates/air/src/instructions/sra/trace.rs:178-200 | The SRA table: one filled row per step, then padding rows, to the padded height. |
| `RTypeTrace.BuildSlt` | crates/air/src/instructions/slt/trace.rs:161-183 | The SLT table, likewise. |
| `RTypeTrace.BuildSub` | crates/air/src/instructions/sub/trace.rs:142-164 | The SUB table, likewise. |
| `RTypeTrace.SraPaddingAccepted` | crates/air/src/instructions/sra/trace.rs:146-175 | The SRA padding row is accepted. |
| `RTypeTrace.SltPaddingAccepted` | crates/air/src/instructions/slt/trace.rs:137-158 | The SLT padding row is accepted. |
| `RTypeTrace.SubPaddingAccepted` | crates/air/src/instructions/sub/trace.rs:123-139 | The SUB padding row is accepted. |
| `Heights.PaddedHeightIsPower` | crates/air/src/memory/trace.rs:71-71 | The height of a table is the least power of two that is at least four and holds its rows. |
| `Bus.BalancedIffEqual` | crates/air/src/boundaries/air.rs:132-158 | A bus of 0/1 selectors, fewer than p of them live, balances in the field if and only if the live sends and receives are the same multiset. |
| `Bus.SentIsReceived` | crates/air/src/memory/air.rs:155-177 | A live send on a balanced bus is offered by a receive, whatever the receive multiplicities are. |
| `Bus.TableBalances` | crates/prover/src/lib.rs:615-623 | A lookup bus balances when each table row counts how often its index is asked for. |
| `TraceBus.BuildBoundaries` | crates/air/src/boundaries/air.rs:169-176 | The four-row buffer: row 0 is the origin, row 3 the final point, and every row meets the constraints. |
| `TraceBus.TraceBusIsOneExecution` | crates/air/src/boundaries/air.rs:91-158 | With 3 * rows < p, the trace bus balances if and only if the live rows can be ordered as one chain from (0, 0) to the final point using every row once. |
| `TraceBus.OneChain` | crates/air/src/instructions/jal/air.rs:259-342 | Constructs that order from the conservation of tuples: no rows can feed each other in a circle. |
| `TraceBus.ExecutionUnique` | crates/air/src/boundaries/air.rs:132-158 | The order is unique and the timestamps along it increase as integers. |
| `RunRows.EntryTimeIsTimestamp` | crates/air/src/instructions/jal/trace.rs:24-35 | In every run the running timestamp of the trace builders is the timestamp of the machine, silent JALs included. |
| `RunRows.RunIsChain` | crates/prover/src/lib.rs:826-830 | The rows of every run telescope from (0, 0) to the final pc and timestamp of the machine. |
| `RunRows.RunBalances` | crates/prover/src/lib.rs:826-830 | The trace bus balances on the rows of every run, padding included, with the built Boundaries. |
| `U32LessThan.CheckFirstDifference` | crates/air/src/primitives/u32_less_than_lookup.rs:97-110 | The already_seen loop accepts exactly the first-difference constraints. |
| `U32LessThan.U32LtSound` | crates/air/src/primitives/u32_less_than_lookup.rs:71-114 | An accepted row over bytes with table-valid pairs has x <= y, and is_equal = 1 if and only if x = y. |
| `U32LessThan.BuildU32Lt` | crates/air/src/primitives/u32_less_than_lookup.rs:179-230 | The built table: a row per entry, then padding rows. |
| `U32LessThan.FillSelectors` | crates/air/src/primitives/u32_less_than_lookup.rs:208-216 | The found loop selects the most significant differing byte and nothing else. |
| `U32LessThan.U32LtAccepted` | crates/air/src/primitives/u32_less_than_lookup.rs:188-220 | The row of every pair of words is accepted. |
| `U32LessThan.U32LtSendsTablePairs` | crates/air/src/primitives/u32_less_than_lookup.rs:136-151 | The pair a row sends is in the comparison table if and only if x <= y. |
| `TimestampLessThan.CheckTimestampLt` | crates/air/src/primitives/timestamp_less_than.rs:79-134 | The three recomposition loops and the equality gadget accept exactly the constraints. |
| `TimestampLessThan.TimestampLtSound` | crates/air/src/primitives/timestamp_less_than.rs:79-134 | An accepted row holds x, y < 2^24, v_bits is the binary form of x + 2^24 - y, its top bit is 0 if and only if x < y, and is_equal = 1 if and only if x = y. |
| `TimestampLessThan.TimestampLtAccepted` | crates/air/src/primitives/timestamp_less_than.rs:187-216 | The row of every two 24-bit timestamps is accepted, ordered or not. |
| `TimestampLessThan.BuildTimestampLt` | crates/air/src/primitives/timestamp_less_than.rs:176-225 | The built table: a row per entry, then padding rows. |
| `MemoryAir.ReadsForced` | crates/air/src/memory/air.rs:110-125 | The read columns of real rows are byte limbs although no lookup checks them: each is the previous write or 0. |
| `MemoryAir.MemorySound` | crates/air/src/memory/air.rs:73-177 | The real rows of an accepted table of register accesses, with the address bus balanced against an accepted comparison table, read bytes, pass the neighbour checks, have non-decreasing addresses, and each address is one contiguous block. |
| `MemoryTimes.TimestampsIncreaseIff` | crates/air/src/memory/air.rs:179-195 | For an accepted memory table with both comparison buses balanced against accepted tables: timestamps increase within every address if and only if the top bit is 0 in every timestamp row that answers a comparison of two accesses to one address. The comparison of the last row must be harmless, its selector being unconstrained. |
| `MemoryTimes.AcceptedMemoryReplays` | crates/air/src/memory/air.rs:73-213 | When those top bits are 0, the log an accepted table records replays on zeroed registers and the table holds it by key; the premise on the last row follows from a log with distinct timestamps. |
| `MemoryAir.PaddingIsSuffix` | crates/air/src/memory/air.rs:78-82 | Once a row is padding, every later row is. |
| `MemoryTrace.BuildMemory` | crates/air/src/memory/trace.rs:63-108 | The built matrix: the operations by key, padding, and equality flags on every row but the last. |
| `MemoryTrace.SortOrders` | crates/air/src/memory/trace.rs:66-67 | Sorting a time-ordered log by (type, address, timestamp) gives strict key order, register operations first. |
| `MemoryTrace.MatrixAccepted` | crates/air/src/memory/trace.rs:80-105 | The built matrix meets every constraint, real-to-padding and padding-to-padding rows included, if and only if the sorted accesses pass the neighbour checks and padding does not follow a last access that left x0 non-zero. |
| `MemoryBuses.AddressBusBalances` | crates/prover/src/lib.rs:698-708 | The u32_lt bus balances between the matrix of any register log and the rows of its entries. |
| `MemoryBuses.TimestampBusBalances` | crates/prover/src/lib.rs:721-724 | The timestamp_lt bus balances between the matrix of any register log and the rows of its entries. |
| `ByteCounts.MemoryLookupEntries` | crates/prover/src/lib.rs:654-735 | The counting code returns the comparison entries of the sorted log and, at row y(y-1)/2 + x, the number of first differences (x, y). |
| `ByteCounts.ByteBusBalances` | crates/prover/src/lib.rs:709-732 | The bytes_lt bus balances, tuple by tuple, between the rows of ascending entries and the table filled with those counts. |
| `ByteCounts.PairLookupsHold` | crates/air/src/primitives/u32_less_than_lookup.rs:136-151 | A comparison table that meets its constraints over a balanced bytes_lt bus, whatever the multiplicities, only selects pairs of the pair table. |
| `ByteCounts.PairTableExact` | crates/air/src/primitives/byte_less_than_lookup.rs:28-50 | The table of the bytes_lt bus offers exactly the pairs of bytes x < y, and the pair of zeroes its padding rows hold. |
| `MemoryComplete.BuildMemoryTables` | crates/prover/src/lib.rs:996-1008 | From a time-ordered register log come the matrix and the three comparison tables, and all three buses between them balance. |
| `MemoryComplete.RunMemoryComplete` | crates/prover/src/lib.rs:996-1008 | For every run below 2^24 ticks that computes only zeroes for x0: the matrix is accepted, the comparison tables built from it are accepted, the three buses balance, the answering top bits are 0, and the real rows are the sorted log. |
| `MemoryComplete.OverwrittenRefused` | crates/air/src/memory/trace.rs:80-105 | The accesses of addi x0, x0, 1: they are in key order and pass the neighbour checks, and their matrix is refused. |
| `MemoryComplete.TimeOrderIsNotEnforced` | crates/air/src/primitives/timestamp_less_than.rs:110-134 | Two accesses laid out against their time order: the matrix and the comparison tables are accepted and the address, timestamp and byte-pair buses balance, although the log does not replay. |
| `MemoryComplete.LastSelectorMatters` | crates/air/src/memory/air.rs:179-195 | An accepted table whose last row has selector -1: the buses balance, the answering top bits are 0, and the timestamps do not increase. |
| `MemoryComplete.BuiltAnswersAscend` | crates/air/src/primitives/timestamp_less_than.rs:187-216 | In the tables built from a log in key order the answering top bits are 0. |
| `ProgramRom.AddressIsIndex` | crates/air/src/program/air.rs:73-96 | The packed address of row i is i in the field, although the limbs are not range checked. |
| `ProgramRom.RomPadding` | crates/air/src/program/air.rs:98-110 | Padding rows follow the real rows and nothing is fetched from them. |
| `ProgramRom.RomOffersImage` | crates/air/src/program/air.rs:157-174 | An accepted program table offers byte k at address k on the program_image bus, once each, and nothing else. |
| `Sponge.PackLane` | crates/air/src/program_hash/trace.rs:47-55 | The packing loop returns the little-endian number of three bytes, zero past the end. |
| `Sponge.ComputeProgramDigest` | crates/air/src/program_hash/trace.rs:63-80 | The reverse chunk loop returns eight elements, the first eight lanes of the bottom-up sponge defined by recursion on the bytes, and the length. |
| `ProgramHash.StateIsDigested` | crates/air/src/program_hash/air.rs:137-194 | The state of row i of an accepted table is the sponge state after the bytes absorbed from row i on. |
| `ProgramHash.HashSendsImage` | crates/air/src/program_hash/air.rs:263-274 | An accepted table sends byte k it absorbs at address k, once each, and nothing else. |
| `ProgramHash.LengthForced` | crates/air/src/program_hash/air.rs:196-234 | The exposed length is the number of absorbed bytes. |
| `ProgramHash.CommitmentForced` | crates/air/src/program_hash/air.rs:64-274 | Whatever tables are committed to, a balanced program_image bus makes the exposed digest and length those of the real bytes of the program table, in order. |
| `ProgramHash.SumRow` | crates/air/src/program_hash/air.rs:198-205 | The accumulation loop sums the activity flags of a row. |
| `ProgramHashTrace.BuildProgramHash` | crates/air/src/program_hash/trace.rs:98-171 | The two passes fill the table defined row by row from the program and the sponge. |
| `ProgramHashTrace.BuiltTableAccepted` | crates/air/src/program_hash/trace.rs:98-171 | For every non-empty program the built table meets every constraint with the host digest and length as public values, and row 0 holds the host digest, a partial last chunk included. |
| `ProgramImage.BuiltAbsorbsProgram` | crates/air/src/program_hash/trace.rs:119-140 | The built table absorbs exactly the program. |
| `ProgramImage.ImageBalances` | crates/air/src/program/air.rs:157-174 | The program_image bus balances between the built tables of every program. |
| `Decode.DecodersAgree` | crates/air/src/decode/trace.rs:37-75 | The if-chain of the machine and the independent flag tests of the witness filler name the same instruction, or none, for every word. |
| `Decode.DecodeSound` | crates/air/src/decode/air.rs:140-698 | Every accepted decode row has exactly one flag on, its bytes form a word the machine decodes to that instruction, and its operand columns are the operands, sign extension included. |
| `Decode.DecodeComplete` | crates/air/src/decode/trace.rs:16-158 | fill_row makes an accepted row of a word if and only if the machine decodes the word. |
| `ProgramFetch.FillDecodeRow` | crates/air/src/decode/trace.rs:16-158 | The byte, bit and flag loops compute the filled row. |
| `ProgramFetch.BuildDecode` | crates/air/src/decode/trace.rs:165-190 | The decode table of a run: a row per step, then the first word at address 0 with mult cleared. |
| `ProgramFetch.CountFetches` | crates/air/src/program/trace.rs:48-59 | The counting loops give each row the number of fetches of its address, padding fetches on rows 0 to 3. |
| `ProgramFetch.BuildRom` | crates/air/src/program/trace.rs:39-87 | The program table: addresses, bytes, multiplicities and carries. |
| `ProgramFetch.RomAccepted` | crates/air/src/program/trace.rs:39-87 | The built program table of at most 2^24 bytes meets every constraint when all fetches stay inside the program. |
| `ProgramFetch.FetchesBalance` | crates/air/src/program/trace.rs:39-87 | For every run none of whose instructions crosses a multiple of 256 the fetches of its decode rows, padding included, balance with the accepted program table of the same run. |
| `ProgramFetch.FetchesBalanceIff` | crates/air/src/decode/air.rs:720-734 | The fetches of a run inside the program balance with its program table if and only if no pc has a low limb above 252: the fetched address carries nothing over. |
| `ProgramFetch.RunReadsProgram` | crates/vm/src/lib.rs:101-113 | Every run of the machine reads inside the program what it logs; its fetches are unsplit if and only if no pc has a low limb above 252. |
| `ProgramFetch.FetchSound` | crates/air/src/decode/air.rs:720-734 | On a balanced program bus the instruction bytes of every decode row are the bytes of the accepted program table at that address. |
| `ProgramFetch.FetchAnywhere` | crates/air/src/decode/air.rs:720-734 | Whatever its pc limbs are, a decode row reads four consecutive bytes of the program, those at the residue of its pc. |
| `ProgramFetch.DecodeRowAccepted` | crates/air/src/decode/trace.rs:165-190 | Every row of the decode table of a run, padding included, meets the constraints. |
| `ProgramFetch.RunCommitsProgram` | crates/air/src/program/trace.rs:39-87 | For every such run the program bus is balanced between the built decode and program tables, and the real rows of the latter are the program. |
| `ProgramFetch.DecodeReadsProgram` | crates/air/src/decode/air.rs:720-734 | An accepted decode row decodes as the machine does at the address its pc stands for. |
| `DecodeBus.StandardFetched` | crates/air/src/decode/air.rs:736-790 | The decode bus: a live tuple over byte pc limbs names the instruction the program holds at that pc, with its registers and immediate. |
| `DecodeBus.UpperFetchedIff` | crates/air/src/decode/air.rs:792-854 | The decode_u and decode_j buses: a live tuple names the instruction at a pc if and only if the program holds the same instruction there and wherever the decode rows offering the tuple fetch from. |
| `DecodeBus.PlacedFetched` | crates/air/src/decode/air.rs:792-854 | A row of those buses whose pc is that of a decode row offering its tuple is in place: carrying the pc would be enough. |
| `DecodeBus.DenotesOne` | crates/air/src/decode/air.rs:736-854 | The fields of a decode tuple leave no choice of instruction. |
| `Jal.ImmJIsOffset` | crates/vm/src/lib.rs:932-939 | The machine's sign extension by two shifts is the signed even offset of the reordered bit fields, in [-2^20, 2^20). |
| `Jal.RescrambledImmJ` | crates/air/src/instructions/jal/trace.rs:55-66 | The trace builder recovers the reordered fields of the word from the sign-extended immediate. |
| `Jal.JalFormIsHigh12` | crates/air/src/decode/air.rs:818-840 | The bit sum on the decode_j bus is the reordered field of the word. |
| `Jal.DecodeBusCarriesOffset` | crates/air/src/decode/air.rs:842-854 | For an accepted JAL decode row the decode_j fields denote the rd and immediate the machine decodes; the tuple has no pc. |
| `JalAir.JalSound` | crates/air/src/instructions/jal/air.rs:132-237 | Every accepted JAL row over byte addresses has immediate bytes equal to the signed offset modulo 2^32, next_pc = pc + offset modulo 2^32, rd_val = pc + 4, and rd_is_zero = 1 if and only if rd = 0. |
| `JalAir.NextPcInFieldIff` | crates/air/src/instructions/jal/air.rs:132-237 | Without the assumption that next_pc limbs are bytes: an accepted row over a byte pc is right in the field if and only if its top carry is the overflow, and has byte limbs if and only if all its carries are right. |
| `JalAir.StrayJumpAccepted` | crates/air/src/instructions/jal/air.rs:132-237 | An accepted JAL row with its top carry on: next_pc is 8 - 2^32 in the field where the jump is to 8. |
| `JalAir.JalComplete` | crates/air/src/instructions/jal/trace.rs:117-172 | fill_row makes an accepted row of every encodable jump that links without overflow. |
| `JalTrace.ExtractJalSteps` | crates/air/src/instructions/jal/trace.rs:22-81 | The loop returns the contributions of the JAL steps, each at its running timestamp. |
| `JalTrace.ExtractedAreMachineJals` | crates/air/src/instructions/jal/trace.rs:22-81 | In every run those are the pc, entry timestamp, return address and old register of the machine. |
| `JalTrace.BuildJal` | crates/air/src/instructions/jal/trace.rs:197-217 | The JAL table: one filled row per step, then padding rows. |
| `JalTrace.JalPaddingAccepted` | crates/air/src/instructions/jal/trace.rs:174-195 | The JAL padding row is accepted. |
| `JalrAir.JalrSound` | crates/air/src/instructions/jalr/air.rs:120-210 | An accepted JALR row over bytes jumps where the machine does if and only if its sign column is the sign of the immediate and its next pc is even, and links what the machine writes if and only if rd is not 0. |
| `JalrAir.JalrComplete` | crates/air/src/instructions/jalr/trace.rs:84-140 | fill_row makes an accepted row, meeting those conditions, of every jump that links pc + 4 without overflow. |
| `JalrAir.ZeroLinkRefused` | crates/air/src/instructions/jalr/air.rs:131-131 | For JALR with rd = 0 the row with the link 0 the machine logs is refused and the row with link 4 accepted. |
| `JalrAir.WrongJumps` | crates/air/src/instructions/jalr/air.rs:143-179 | Accepted JALR rows that jump to an odd address, and by an immediate of the wrong sign. |
| `Multiplicities.CountShifts` | crates/prover/src/lib.rs:1315-1395 | The counting loops of byte_sll and byte_srl count each row as often as the run asks for it, the 0xFF row of byte_srl once more per arithmetic shift. |
| `Multiplicities.LeftTuplesAssemble` | crates/air/src/instructions/sll/air.rs:253-412 | The four tuples counted for SLL and SLLI, put together by bit amount and moved by the byte amount, are the value the step writes. |
| `Multiplicities.RightTuplesAssemble` | crates/air/src/instructions/sra/air.rs:161-405 | The tuples counted for SRL, SRLI, SRA and SRAI, filled with the sign through the 0xFF tuple and moved by the byte amount, are the value the step writes. |
| `Multiplicities.AuipcBytesAdd` | crates/air/src/instructions/auipc/air.rs:214-262 | The bytes sent for AUIPC are those of its upper immediate: with the pc they add up to the value the step writes. |
| `Multiplicities.ShiftsBalance` | crates/air/src/instructions/sra/air.rs:357-405 | The byte_sll and byte_srl buses of every run balance with those multiplicities, in whatever order its rows send their tuples. |
| `Multiplicities.StepBytesConserved` | crates/prover/src/lib.rs:1015-1193 | The row of every logged step sends to the bytes bus exactly the bytes counted for the step. |
| `Multiplicities.BytesConserved` | crates/prover/src/lib.rs:1015-1193 | Over any run every byte value is counted as often as the rows send it. |
| `Multiplicities.CountBytes` | crates/prover/src/lib.rs:1194-1202 | The stored multiplicity of each byte value is the number of its sends by the rows and the absorbed program. |
| `Multiplicities.BytesBalance` | crates/air/src/primitives/byte_lookup.rs:50-73 | The bytes bus of every run and its program balances between the sends of the rows and the 256-row table with the stored multiplicities. |
| `Lookups.SentIsInTable` | crates/air/src/primitives/byte_lookup.rs:28-73 | A live tuple on the balanced bus of a preprocessed table is in the table, whatever the multiplicities. |
| `TableRows.SraCarriesOutIff` | crates/air/src/instructions/sra/air.rs:161-455 | An accepted SRA row over byte pcs carries out the SRA its decode columns denote, rd, rs1 and rs2 included, if and only if its low-7 column is below 128 or the amount is 0. |
| `TableRows.SllForced` | crates/air/src/instructions/sll/air.rs:157-412 | An accepted SLL row over byte pcs carries out whatever instruction its decode columns denote. |
| `TableRows.SltCarriesOutIff` | crates/air/src/instructions/slt/air.rs:136-358 | An accepted SLT row over byte pcs carries out its SLT if and only if its low-7 columns are on the same side of 128. |
| `TableRows.SubForced` | crates/air/src/instructions/sub/air.rs:107-260 | An accepted SUB row does. |
| `TableRows.JalForced` | crates/air/src/instructions/jal/air.rs:132-346 | An accepted JAL row does, and its write is gated off exactly when rd = 0. |
| `TableRows.JalrCarriesOutIff` | crates/air/src/instructions/jalr/air.rs:120-323 | An accepted JALR row over byte pcs carries out its JALR if and only if its sign column is the sign of the immediate, its next pc is even and rd is not 0; the immediate range comes from the decode bus. |
| `InstructionRows.StandardPlaced` | crates/air/src/decode/air.rs:736-790 | A live row of any of the twenty standard instructions stands where the program holds the instruction of its columns. |
| `InstructionRows.UpperPlacedIff` | crates/air/src/instructions/jal/air.rs:275-287 | A live LUI, AUIPC or JAL row stands at its instruction if and only if the program holds the same instruction at its pc and wherever the decode rows offering its tuple fetch from. |
| `InstructionRows.PcIsByte` | crates/air/src/boundaries/air.rs:132-158 | On a conserved trace bus the pc limbs of live rows are bytes when the next_pc limbs are. |
| `InstructionRows.TimesBounded` | crates/air/src/boundaries/air.rs:132-158 | On a conserved trace bus no timestamp of a live row wraps: all accesses lie below three ticks per row. |
| `RowBuses.MemoryBusMoves` | crates/air/src/memory/air.rs:197-213 | The memory bus balances if and only if the live accesses of the instruction rows, gated as their lookups gate them, are the real rows of the memory table as a multiset. |
| `JalSwap.JalsCanSwap` | crates/air/src/instructions/jal/air.rs:275-287 | The rows of a program with its two jumps exchanged, over the decode and program tables of the original: every table is accepted, every bus balances and the end point is that of the original, but the log is another; only the placement of the rows fails. |
| `TableRows.CarriesOutIff` | crates/air/src/instructions/sra/air.rs:161-455 | The seven kinds of rows in one statement: a constrained row whose lookups hold carries out the instruction its decode columns denote if and only if its open columns are right. |
| `TableRows.RowWithin` | crates/air/src/instructions/sra/air.rs:357-455 | On balanced bytes, byte_sll and byte_srl buses every tuple a live row looks up is in the tables. |
| `InstructionRows.ForcedRowsAreTheRun` | crates/air/src/boundaries/air.rs:132-158 | Rows that carry out what their decode columns denote, on balanced trace, decode, program, memory and comparison buses, with upper rows in place and answering top bits 0, are the run of the machine. |
| `TableRows.AcceptedProofIsTheRun` | crates/air/src/memory/air.rs:73-213 | Execution soundness: tables that meet their constraints and balance on every bus, lookup buses included, are the run of the machine, with its end point and exactly its accesses, under four conditions: the open columns of SRA, SLT and JALR rows are right, next_pc limbs are bytes, LUI, AUIPC and JAL rows are in place, and answering top bits are 0. |
| `RunBuses.RunDecodes` | crates/air/src/decode/air.rs:736-854 | The decode, decode_u and decode_j buses of every run balance between its instruction rows and its decode table, padding included. |
| `RunTables.RowMade` | crates/air/src/instructions/jal/trace.rs:93-195 | The row trace generation makes of any step of a run but a JALR naming x0 meets the constraints of its table, has its open columns right, shows the columns of the machine on the shared buses, and looks up exactly the tuples counted for the step. |
| `RunComplete.RunLooksUp` | crates/prover/src/lib.rs:1015-1202 | The bytes, byte_sll and byte_srl buses of every run balance between its instruction rows, padding included, and the tables with the stored multiplicities. |
| `RunBuses.RunMemoryBus` | crates/air/src/memory/air.rs:197-213 | The memory bus of every run balances between its instruction rows and the built memory table. |
| `RunComplete.BuiltPadding` | crates/air/src/instructions/sra/trace.rs:178-200 | The padding rows of the SRA, SLT, SUB and JAL trace builders meet the constraints of their tables and are not live: the padding completeness allows. |
| `RunComplete.RunIsProved` | crates/prover/src/lib.rs:826-1008 | Execution completeness: for every run of at most 2^24 ticks in which x0 computes zeroes, no JALR names x0 and no instruction crosses a multiple of 256, the tables made of it are accepted on every bus and meet the four conditions of execution soundness. |

## Left out

- Proving and verification (FRI, Merkle trees, the challenger, `prove_batch`) and the logUp permutation argument: a bus is taken to balance.
- The rounds of Poseidon2 and the constraints of its chip: the permutation is a parameter.
- Ram operations: the machine emits none. The neighbour constraints compare addresses without their type, so the results about the memory table are for register rows.
- The AND, OR, XOR, LUI, AUIPC, ADD, ADDI, SLTU, SLTI, SLTIU, SRL, SLLI, SRLI and SRAI tables: they repeat the modelled patterns. Their rows take part in every bus; `InstructionRows.RowForced` states what their constraints must establish, which for ADDI, SLTI and SLTIU takes the condition on the sign column that JALR takes.
- `VM.memory`, `get_trace`, printing, `debug.rs` and the dispatch over tables.
- Counters that overflow 32 bits: the model stops with a panic, as a build with overflow checks does; a build without them would wrap.
- `num_lookups` and the column indices of the lookup builder: they number the lookups and carry no constraint.
- `sort_by_key` of the standard library: modelled as stable insertion, on values rather than in place.
- `extract_*_steps`, `fill_row` and the flag tests over a borrowed buffer: rows are datatype values written to an array of rows, so the byte layout of a row in the flat buffer is not modelled (Boundaries keeps its flat buffer).
- Vm.VM.Run: takes a bound on the number of steps, because the loop of the source need not end.
- TableRows.AcceptedProofIsTheRun: its four conditions (open columns of SRA, SLT and JALR rows, byte limbs of next_pc, upper rows in place, answering top bits 0) are not established by the code. A row of a table that is not modelled enters through `RowForced`, what its constraints and lookups must establish.
- RunComplete.RunIsProved: the same holds of rows of tables that are not modelled, whose columns are read off the logged step; the sizes of the tables are bounded by the field.
- Multiplicities.BytesConserved: the sends of tables that are not modelled are written from their lookups; those of SRA, SLL, SLT, SUB, JAL and JALR are read off their columns.
- Multiplicities.StepBytesConserved: the same.
- Multiplicities.ShiftsBalance: the sends of SRL, SRLI, SRAI and SLLI rows are written from their lookups; `Multiplicities.LeftTuplesAssemble` and `Multiplicities.RightTuplesAssemble` say what they add up to.
- JalrAir.JalrComplete: the JALR table builder with its padding row is not built as an array; it is the JAL builder with other columns.
- Shifts.SllComplete: the SLL table builder with its padding row is not built as an array; it is the SRA builder with fewer columns.
