# emu86 verified

A Dafny model of `packages/emu86`, an 8086 interpreter that is meant to run in lockstep with
`reference/8086tiny.c`, and of the harness that compares the two. Every part comes twice where
the source updates its data in place: as functions on values, about which the theorems speak,
and as methods on objects, arrays and buffers that are proved equal to those functions.

The main result is `Lockstep`: for every covered instruction, whatever its bytes and the state,
both emulators leave the same state exactly if it is none of the listed differences, and whole
runs of `emu86_run` leave the machine that the reference's loop leaves.

`dafny verify dfyconfig.toml` checks the whole project.

## Reading order

* `Words`, `Flags`, `State`: bounded integers, the FLAGS record and its packed word, the machine
  state with its stack and interrupts.
* `Alu`, `AluMeaning`, `AluChains`, `AluDivision`, `AluReference`, `DecimalReference`,
  `MulDivReference`: the flag formulas of `helpers.h`, what they mean in arithmetic, and where the
  reference's different formulas agree. `AsciiChains`: unpacked decimals.
* `BitShift`, `Shift`, `ShiftReference`: shifts and rotates, the RCL and RCR loops, the
  reference's closed forms.
* `Strings`, `StringMoves`, `StringFills`, `StringWraps`, `StringCompares`: the REP loop, memmove
  and overlap, fills, wrapping copies, early exit, and the reference's loops.
* `Decode`, `Execute`, `BatchLoop`, `Run`: the decoder, the dispatch, the batch loop around an
  arbitrary pass, and the stepping machine on values. `Frames`, `RunTheorems`, `Yields`,
  `PrefixScope`, `Addressing`, `Interrupts`, `InstructionLaws` prove what instructions and runs keep.
* `InstructionReference`, `ReferenceCases`: the reference's own decoding, FLAGS word, stack,
  interrupts and every case of its switch but the host calls, with the table entries they rest on.
* `StackAgreement`, `InstructionAgreement`, `DecodeAgreement`, `ControlAgreement`,
  `TransferAgreement`, `OtherAgreement`, `ArithmeticAgreement`: when both emulators leave the same
  state, group by group. `PlainFlags`, `Lockstep`: instructions, steps and runs as a whole.
* `Emulator`, `Accessors`, `StringUnit`, `ExecuteUnit`, `RunUnit`: the same machine in place, down
  to the whole of `emu86_run`.
* `Ring`, `RingConcurrent`: the console ring of one thread, and between two.
* `Crc`, `Snapshot`, `SnapshotLayout`, `SnapshotUnit`: checksum, format, the offset of every field,
  save and restore with a moving cursor.
* `Harness`, `Keyboard`, `ControlPlane`: comparator, step tails, key queue and text commands.

The decode tables are data of the BIOS image and stay a parameter. `WellFormedAddressing`,
`WellFormedOverrides`, `IsPrefixOp` and `ShippedTables` say what the theorems need of them; the
last holds of the tables in `packages/emu86/reference/bios.asm`, lines 3822 to 3834. Integers of the source
are bounded subset types with each wrap written out; the FLAGS word is a record of sixteen bits
with its packing proved in `Flags`; the CRC works on 32-bit vectors. Products,
quotients, remainders and casts are the recursive `Times`, `Quot`, `Rem` and `Wrap` of `Words`,
proved there to be `*`, `/` and `%` (`TimesIs`, `OperatorsAre`).

## What the code does against its documentation

* A chain of prefixes holds back hardware and timer interrupts but not the trap. Code that runs
  under TF always has a trap latched, so there the first prefix of a chain is followed by INT 1
  (`RunLatches`, `ReachedUndisturbedIff`).
* `emu86_step_single` decodes before it counts the prefixes down, `emu86_run` after; they differ
  where an override runs out, so behind every prefixed instruction and behind every LEA
  (`DecodeOrderIff`, `SingleMisdecodes`, `SingleLea`).
* The key stored at 0x4A6 between the timer's and the key's interrupt can fall into the timer's
  own stack frame (`TimerAndKeyReturn`, `ReturnsIff`, `KeyHitsIp`).
* A REP compare under a `rep_mode` other than 0 and 1, which only a restored snapshot can hold,
  never stops early here and stops at once in the reference (`RunRepMode`, `RepAgreesIff`).
* A division that fails, AAM by 0 included, saves the IP of the next instruction here and its own in
  the reference (`DivideErrors`, `AamAgreesIff`).
* The far call 9A saves its own IP, because the tables give it the length 0, and the reference saves
  the IP five bytes on; so RETF behind it calls again (`FarCalls`).
* AAA does what AAS should and the other way round: the tables' subfunction is 2 for AAA and 0 for
  AAS, and `run.c` takes any but 0 for AAS (`AsciiIsTheOther`). Both leave SF, ZF and PF alone, which
  the reference sets by the digit.
* AAM and AAD leave CF and OF alone, which the reference clears (`AamAgreesIff`, `AadAgreesIff`).
* DAA and DAS that adjust nothing set SF, ZF and PF by AL; in the reference by the result of an earlier
  instruction (`DecimalAgreesIff`).
* LAHF stores bit 1 of FLAGS as it is, which is 0 until the first POPF, SAHF or IRET; the reference
  always stores 1 (`LahfAgreesIff`).
* OUT to port 0x61 does not reset the byte order of the timer ports (`OutAgreesIff`), and HLT does
  nothing in the reference (`TransferAgreesIff`).
* Console output of 2^31 bytes makes `emu86_run` return at a quarter instead of three, since the
  product by 3 wraps (`ThreeQuarters`).
* The reference makes a rotate by an immediate one byte too long. `docs/notes/8086tiny-quirks.md`
  says so for a ModRM reg field of 4 and above; in the code it is a reg field below 4
  (`ShiftAgreesUpToIp`).
* DAS subtracts less than the reference where its first step borrows (`DasAgreesIff`).
* The reference delivers the timer only while TF is clear, and counts instructions in 32 bits
  (`TailsAgreeIff`, `TicksAgreeIff`).
* `emu86_run` never returns BUDGET for a budget above 2^32 - 4, because its counter wraps first.
* An accepted snapshot whose size field differs from `data_size()` does not save back to the same
  bytes (`SaveOfRestore`, `ShortFieldNotReproduced`), and can make restore read behind the buffer
  (`SealedRestores`, `PastEndIff`); the model then gives the separate result `PastEnd`.
* `get` cuts trimmed characters off a name, and `set` cannot carry blanks or 128 characters, so
  variables with such names cannot be set and read back (`SetGetsIff`).

## Model

| member | source | states |
|---|---|---|
| `Lockstep.InstructionAgreesIff` | packages/emu86/reference/8086tiny.c:301-706 | every covered instruction, from its bytes in memory: our decode and execution leave the whole state of the reference's own decode, case, length and flags exactly if the instruction is none of the listed differences |
| `Lockstep.StepAgreesIff` | packages/emu86/reference/8086tiny.c:299-763 | a whole step of such an instruction, with countdown, trap, timer, key and console, leaves equal machines exactly if the two step tails meet |
| `Lockstep.RunsInLockstep` | packages/emu86/reference/8086tiny.c:299-763 | for every n, `emu86_run` with a budget of 4n leaves exactly the machine that n passes of the reference's loop leave, if no pass of it differs or is cut short |
| `PlainFlags.RunPlain` | packages/emu86/src/emulator/opcodes/transfer.h:38-49 | every run keeps the reserved bits 3, 5 and 12 to 15 of FLAGS clear, as the theorems on the reference ask |
| `RunUnit.RunBatch` | packages/emu86/src/emulator/run.c:540-637 | the batch loop in place: machine, console rings, yield reason and `cycles_used` are those of `Run.RunFrom`, the function that the theorems on runs are about |
| `RunUnit.StepOnce` | packages/emu86/src/emulator/run.c:643-675 | the single step in place equals `Run.StepSingle` |
| `RunUnit.Step` | packages/emu86/src/emulator/run.c:570-623 | one pass of the loop: countdown, decode, execute, count, trap, tick, timer and key |
| `RunUnit.DeliverHardware` | packages/emu86/src/emulator/run.c:555-561 | a pending hardware interrupt is delivered only with IF set and no prefix in force |
| `RunUnit.ServiceTimer` | packages/emu86/src/emulator/run.c:603-624 | the timer tick and the key it may deliver, on the machine and the input ring together |
| `RunUnit.ExecuteDecoded` | packages/emu86/src/emulator/run.c:588-593 | body, PUTCHAR echo and IP advance |
| `RunTheorems.StepKeeps` | packages/emu86/src/emulator/run.c:577-596 | after any instruction the prefix state is decided by the instruction alone, and one instruction is counted |
| `RunTheorems.RunBounded` | packages/emu86/src/emulator/run.c:540-637 | both prefix countdowns stay at most 2 in every state a run reaches |
| `RunTheorems.SingleBounded` | packages/emu86/src/emulator/run.c:643-675 | ... and in every state that single steps reach |
| `RunTheorems.RunCycles` | packages/emu86/src/emulator/run.c:594-596 | for every yield reason the cycles used are four times the instructions counted |
| `RunTheorems.RunRepMode` | packages/emu86/src/emulator/run.c:371-375 | `rep_mode` stays 0 or 1 in every run |
| `RunTheorems.StepLatches` | packages/emu86/src/emulator/run.c:598-604 | after every executed instruction, whatever it started from, TF set means that a trap is latched |
| `RunTheorems.RunLatches` | packages/emu86/src/emulator/run.c:540-637 | ... and so in every run |
| `RunTheorems.RunContinues` | packages/emu86/src/emulator/run.c:547-636 | a run that ended in BUDGET continues under a larger budget as if it had not stopped |
| `RunTheorems.RunShifts` | packages/emu86/src/emulator/run.c:547-636 | only the cycles left matter, not where the counter stands |
| `RunTheorems.RunSplits` | packages/emu86/src/emulator/run.c:540-637 | run(b1) ending in BUDGET, then run(b2), is one run: same machine, reason and total cycles |
| `RunTheorems.RunBudgetReached` | packages/emu86/src/emulator/run.c:594-636 | the cycles a BUDGET run uses are the budget, rounded up to a multiple of 4 |
| `RunTheorems.RunEnds` | packages/emu86/src/emulator/run.c:544-636 | with the wrapping 32-bit counter written out, the loop ends for every budget up to 2^32 - 4 |
| `RunTheorems.LargeBudgetNeverReached` | packages/emu86/src/emulator/run.c:544-636 | above that it never ends for the reason BUDGET |
| `Yields.ThreeQuarters` | packages/emu86/src/emulator/run.c:626-632 | `size * 3` in 32 bits is three times every power-of-two size up to 2^30, and 2^31 for 2^31 |
| `Yields.WaitingIff` | packages/emu86/src/emulator/run.c:626-632 | the run returns for console output exactly if more than three quarters of the ring's slots hold a byte (a quarter of 2^31) |
| `Yields.PassReasons` | packages/emu86/src/emulator/run.c:547-632 | a pass ends the run at 0000:0000 or while halted, after a pending interrupt, and otherwise executes an instruction and waits exactly if the output ring is that full |
| `Yields.RunReasons` | packages/emu86/src/emulator/run.c:540-637 | for every run: EXIT means CS:IP is 0:0, HALTED that `halted` is set, BUDGET that the cycles are used up with room in the output, and IO_NEEDED that the output ring is more than three quarters full, exactly so if it was not on entry |
| `Yields.RunLosesNothing` | packages/emu86/src/emulator/opcodes/flags_io.h:108-116 | a run entered with an output ring of 8 bytes or more, at most three quarters full, drops no byte: the ring gains exactly what the PUTCHAR instructions print, in order |
| `Frames.BodyKeeps` | packages/emu86/src/emulator/run.c:102-531 | for every instruction: what a body does to the prefix state, the control fields, the counter and the timer latch |
| `PrefixScope.ChainRuns` | packages/emu86/src/emulator/run.c:371-395 | a chain of prefixes of any length moves IP, the instruction counter, the timer and trap latches and the prefix state, and nothing else |
| `PrefixScope.ChainReachesNext` | packages/emu86/src/emulator/run.c:556-593 | the first instruction behind the chain is not interrupted and sees exactly the last override and the last REP mode |
| `PrefixScope.ScopeEnds` | packages/emu86/src/emulator/run.c:570-583 | the instruction after that sees neither, also behind LEA |
| `PrefixScope.PrefixedDelays` | packages/emu86/src/emulator/run.c:608-610 | an instruction under a prefix puts interrupts off by one more instruction |
| `PrefixScope.UndisturbedIff` | packages/emu86/src/emulator/run.c:598-604 | nothing is delivered inside a non-empty chain exactly if no trap is latched before it, and TF is clear or the chain has one prefix: the trap is not held back |
| `PrefixScope.ReachedUndisturbedIff` | packages/emu86/src/emulator/run.c:598-604 | in the states that runs reach, exactly if no trap is latched; if one is, the first prefix is followed by INT 1 |
| `PrefixScope.ChainInRun` | packages/emu86/src/emulator/run.c:547-636 | inside `emu86_run` the chain takes its cycles and the run continues from its result, or returns for the fill of the console output |
| `Accessors.DecodeInstruction` | packages/emu86/src/emulator/decode.h:283-393 | the decoder, field by field on the machine object, equals `Decode.DecodeAt` and leaves addresses in range |
| `Accessors.GetEffectiveAddress` | packages/emu86/src/emulator/decode.h:328-357 | the table-driven effective address in place |
| `State.Linear` | packages/emu86/src/emulator/decode.h:67-71 | segment * 16 + offset leaves room for a fetch window, a word and a far pointer below 0x110000 |
| `Decode.DecodedInRange` | packages/emu86/src/emulator/decode.h:328-357 | every decoded address leaves room for a far pointer |
| `Addressing.DecodedBytes` | packages/emu86/src/emulator/decode.h:283-393 | every decoded field from the bytes at CS:IP: opcode, its low bits, mod, reg and rm with 64 mod + 8 reg + rm equal to the ModRM byte, and the three data words at their addresses, behind the displacement of the mode |
| `Addressing.OperandAddress` | packages/emu86/src/emulator/decode.h:318-357 | under well-formed tables every memory operand, as its ModRM byte names it, has the address segment * 16 + (base + index + displacement) mod 2^16 of the 8086 mode, with the override or the default segment |
| `Addressing.LeaWritesOffset` | packages/emu86/src/emulator/run.c:220-243 | executing a decoded LEA writes that offset whatever the segments are, and only sets `seg_override_en` besides |
| `Addressing.DecodeOrderIff` | packages/emu86/src/emulator/run.c:643-654 | decoding before or after the countdown differs exactly if the override runs out at a memory operand with another default segment |
| `Addressing.StepIsSingle` | packages/emu86/src/emulator/run.c:643-675 | otherwise a run step is the single step followed by the timer service |
| `Addressing.PassIsSingle` | packages/emu86/src/emulator/run.c:547-675 | where nothing is pending, a pass of the run loop is exactly the single step, for every state with `seg_override_en` other than 1, and waits exactly if the output ring is more than three quarters full |
| `Addressing.SingleMisdecodes` | packages/emu86/src/emulator/run.c:643-654 | the failing family: behind a prefixed instruction and behind every LEA, the single step decodes a memory operand with the stale override and the run loop with the default segment, both addresses given |
| `Addressing.SingleLea` | packages/emu86/src/emulator/run.c:220-243 | LEA in the single step is off by exactly 16 times the distance of the two segments |
| `Addressing.SingleLeaIff` | packages/emu86/src/emulator/run.c:220-243 | ... so right exactly if no override runs out or the two segments agree modulo 2^12 |
| `Addressing.RunKeepsOverride` | packages/emu86/src/emulator/run.c:390-395 | `seg_override` always indexes one of the four segment registers |
| `DecodeAgreement.RefDecodes` | packages/emu86/reference/8086tiny.c:299-340 | the reference's own field extraction and table addressing yield the same decoded instruction from the same bytes |
| `Emulator.Emu86State.StackPush` | packages/emu86/src/emulator/opcodes/transfer.h:14-20 | stack push in place |
| `Emulator.Emu86State.StackPop` | packages/emu86/src/emulator/opcodes/transfer.h:23-30 | stack pop in place |
| `Emulator.Emu86State.PcInterrupt` | packages/emu86/src/emulator/opcodes/control.h:15-25 | interrupt entry in place |
| `Emulator.Emu86State.ExecIret` | packages/emu86/src/emulator/opcodes/control.h:206-212 | interrupt return in place |
| `Emulator.Emu86State.MemWrite16` | packages/emu86/src/emulator/decode.h:95-100 | little-endian word write in place |
| `Flags.UnpackPack` | packages/emu86/src/emulator/opcodes/transfer.h:38-49 | a pushed FLAGS word popped again is the nine defined flags |
| `Interrupts.InterruptEffect` | packages/emu86/src/emulator/opcodes/control.h:15-25 | what one interrupt leaves in registers and frame, that it enters at the far pointer in the vector's four bytes, those of before wherever the frame does not meet them, and that memory differs in the frame only |
| `Interrupts.HardwareEntry` | packages/emu86/src/emulator/run.c:555-561 | a pending hardware interrupt is taken exactly with IF set and no prefix in force, enters through `int_vector` and is no longer pending |
| `Interrupts.TrapEntry` | packages/emu86/src/emulator/run.c:595-602 | a latched trap enters through vector 1 and is no longer latched; otherwise TF is latched |
| `Interrupts.TimerEntry` | packages/emu86/src/emulator/run.c:604-623 | a due timer enters through vector 10 exactly with IF set and no prefix in force, and the oldest byte of the console, stored at 0x4A6, through vector 7 |
| `StackAgreement.MakesPacked` | packages/emu86/reference/8086tiny.c:211-216 | the word that the reference sums from nine flags and the bit table is our FLAGS word |
| `StackAgreement.SetsUnpacked` | packages/emu86/reference/8086tiny.c:219-223 | the flags that the reference takes from a word are those of our unpacking |
| `StackAgreement.InterruptsAgree` | packages/emu86/reference/8086tiny.c:236-248 | `pc_interrupt` of the reference leaves the state of ours for every vector, SP and memory |
| `Interrupts.WordsApart` | packages/emu86/src/emulator/opcodes/transfer.h:14-30 | stack words of up to 64 KB do not overlap, for odd SP and across the wrap |
| `Interrupts.NestUnwinds` | packages/emu86/src/emulator/opcodes/control.h:206-212 | n nested interrupts and n IRETs restore registers, CS, IP, SP and the nine flags, for every n with 6n <= 65536 and every SP; memory differs in the frames only |
| `Interrupts.TimerAndKeyReturn` | packages/emu86/src/emulator/run.c:608-623 | two IRETs after the timer-and-key double delivery restore everything but what the key's store at 0x4A6 did to the three words of the first frame, for every SS, SP and key |
| `Interrupts.ReturnsIff` | packages/emu86/src/emulator/run.c:608-623 | after those two IRETs CS, IP and the nine flags are all back if and only if each of the three words of the first frame either lies off 0x4A6 or held there the byte stored, in the word of FLAGS up to its undefined bits |
| `Interrupts.KeyHitsIp` | packages/emu86/src/emulator/run.c:612-615 | with SS:SP at 0000:04AC every key other than the low byte of IP replaces that byte of the returned IP, and so fails that condition |
| `Interrupts.TimerDeliversKey` | packages/emu86/src/emulator/run.c:612-623 | the timer service does exactly this double delivery when a key waits |
| `ExecuteUnit.ExecAluImm` | packages/emu86/src/emulator/run.c:30-96 | ALU operation with an immediate in place |
| `ExecuteUnit.ExecAluReg` | packages/emu86/src/emulator/opcodes/arithmetic.h:41-130 | register and memory forms of the ALU operations in place |
| `ExecuteUnit.ExecIncDec` | packages/emu86/src/emulator/opcodes/arithmetic.h:151-183 | INC and DEC in place |
| `ExecuteUnit.ExecGroupF6` | packages/emu86/src/emulator/run.c:150-178 | TEST, NOT, NEG, MUL, IMUL, DIV, IDIV with the divide error as an interrupt |
| `ExecuteUnit.ExecDivide` | packages/emu86/src/emulator/opcodes/arithmetic.h:269-334 | a divide error changes no register before INT 0; a success writes AX and DX |
| `AluMeaning.ParityCountsOnes` | packages/emu86/src/emulator/opcodes/helpers.h:71-82 | PF says that the low byte has an even number of ones |
| `AluMeaning.AddMeaning` | packages/emu86/src/emulator/opcodes/helpers.h:106-122 | value and CF are the exact sum, AF the nibble carry, OF the signed overflow, for every operand and width |
| `AluMeaning.SubMeaning` | packages/emu86/src/emulator/opcodes/helpers.h:127-140 | the same for differences and borrows |
| `AluMeaning.ConditionsAfterCompare` | packages/emu86/src/emulator/opcodes/control.h:32-50 | after CMP a, b the condition codes decide the unsigned and signed orders and equality they name |
| `AluMeaning.SignAndParityAfterCompare` | packages/emu86/src/emulator/opcodes/control.h:32-50 | S and P read the wrapped difference |
| `AluMeaning.OddConditionsNegate` | packages/emu86/src/emulator/opcodes/control.h:32-50 | odd codes are the exact negations |
| `AluReference.ComputeAgrees` | packages/emu86/reference/8086tiny.c:417-437 | ADD, ADC, SUB, SBB and CMP: value and six flags of the reference's comparison-based formulas, for all operands, carries and widths |
| `AluReference.NegAgrees` | packages/emu86/reference/8086tiny.c:417-437 | NEG likewise |
| `AluReference.IncDecAgree` | packages/emu86/reference/8086tiny.c:201-208 | INC and DEC likewise |
| `DecimalReference.DaaAgrees` | packages/emu86/reference/8086tiny.c:115-116 | DAA: AL, CF and AF are the reference's for every AL and flags |
| `DecimalReference.DasAgreesIff` | packages/emu86/reference/8086tiny.c:115-116 | DAS: exactly unless AF is set, CF clear and AL below 6, where the reference sees the borrow of its first step and subtracts 0x60 more |
| `AluChains.AdcChainAdds` | packages/emu86/src/emulator/opcodes/arithmetic.h:58-74 | n ADCs add n-limb numbers exactly, with the last CF as carry |
| `AluChains.SbbChainSubtracts` | packages/emu86/src/emulator/opcodes/arithmetic.h:95-111 | n SBBs subtract n-limb numbers exactly, with the last CF as borrow |
| `AluChains.DecimalChainExact` | packages/emu86/src/emulator/opcodes/arithmetic.h:344-398 | with DAA or DAS after each byte, n bytes add or subtract 2n-digit decimals exactly |
| `AsciiChains.DigitExact` | packages/emu86/src/emulator/opcodes/arithmetic.h:401-438 | two digits and a carry, added and AAA, or subtracted and AAS: AL is the decimal digit, CF the carry or borrow, AH one higher or lower with it, and only flags change besides |
| `AsciiChains.AsciiChainExact` | packages/emu86/src/emulator/opcodes/arithmetic.h:401-438 | so n digits are added or subtracted exactly, for every n |
| `AluDivision.DivMeaning` | packages/emu86/src/emulator/opcodes/arithmetic.h:269-300 | DIV fails exactly when the divisor does not exceed the upper half of the dividend; otherwise the division identity and remainder bound hold |
| `AluDivision.IdivMeaning` | packages/emu86/src/emulator/opcodes/arithmetic.h:306-334 | IDIV fails exactly for a zero divisor or a truncated quotient out of range; otherwise it leaves that quotient and remainder |
| `AluDivision.MulThenDiv` | packages/emu86/src/emulator/opcodes/arithmetic.h:189-300 | MUL then DIV by the same nonzero operand restores the multiplicand with remainder 0 |
| `AluDivision.ImulThenIdiv` | packages/emu86/src/emulator/opcodes/arithmetic.h:229-334 | IMUL then IDIV likewise |
| `MulDivReference.MulAgrees` | packages/emu86/reference/8086tiny.c:110-113 | MUL leaves the AX, DX and flags of the reference's macro for every operand and width |
| `MulDivReference.ImulAgrees` | packages/emu86/reference/8086tiny.c:110-113 | IMUL likewise |
| `MulDivReference.DivAgrees` | packages/emu86/reference/8086tiny.c:114 | DIV raises the divide error in exactly the reference's cases, and otherwise leaves the same quotient and remainder |
| `MulDivReference.IdivAgrees` | packages/emu86/reference/8086tiny.c:114 | IDIV likewise, although the reference tests the range in unsigned and multiplies back the unsigned quotient |
| `InstructionAgreement.DecodedByTables` | packages/emu86/src/emulator/decode.h:283-393 | every decoded instruction has the fields and the length that the theorems on whole instructions ask for |
| `InstructionAgreement.AluRegAgrees` | packages/emu86/reference/8086tiny.c:416-440 | ADD, OR, ADC, SBB, AND, SUB, XOR, CMP and MOV between registers and memory as decoded: operands, write-back, all flags and IP are those of the reference's case 9 and main loop |
| `InstructionAgreement.AluImmAgrees` | packages/emu86/reference/8086tiny.c:410-440 | 80 to 83 as decoded: likewise, although the reference puts the immediate in a scratch register and turns the opcode into the r/m form |
| `InstructionAgreement.AluAccAgrees` | packages/emu86/reference/8086tiny.c:404-440 | the AL and AX forms with an immediate as decoded: likewise |
| `InstructionAgreement.GroupAgreesIff` | packages/emu86/reference/8086tiny.c:379-403 | TEST, NOT, NEG, MUL, IMUL, DIV and IDIV as decoded leave the reference's whole state exactly if the instruction is not a division that fails |
| `InstructionAgreement.DivideErrors` | packages/emu86/reference/8086tiny.c:114 | a division that fails saves the IP behind the instruction in ours and that of the instruction itself in the reference, so the states always differ |
| `InstructionAgreement.ShiftAgreesUpToIp` | packages/emu86/reference/8086tiny.c:460-509 | shifts and rotates as decoded, on all comparable counts: the reference leaves our state with an IP one further behind a rotate by an immediate |
| `InstructionAgreement.ShiftAgreesIff` | packages/emu86/reference/8086tiny.c:460-509 | ... so the same state exactly if the instruction is not such a rotate |
| `ArithmeticAgreement.ArithmeticAgreesIff` | packages/emu86/reference/8086tiny.c:358-663 | every covered arithmetic instruction as decoded leaves the reference's state exactly if it is no failing division, no rotate by an immediate and none of the adjustments below |
| `ArithmeticAgreement.IncDecRegAgrees` | packages/emu86/reference/8086tiny.c:358-363 | INC and DEC of a register as decoded leave the reference's state |
| `ArithmeticAgreement.GroupFfAgrees` | packages/emu86/reference/8086tiny.c:364-378 | FE and FF: INC, DEC, CALL, JMP and PUSH through an operand, near and far, likewise |
| `ArithmeticAgreement.DecimalAgreesIff` | packages/emu86/reference/8086tiny.c:615-617 | DAA and DAS as decoded leave the reference's state exactly where DAS agrees and, if nothing is adjusted, the earlier result has the sign, zero and parity of AL |
| `ArithmeticAgreement.AsciiAgreesIff` | packages/emu86/reference/8086tiny.c:618-619 | AAA and AAS as decoded leave the reference's state exactly if nothing is adjusted and SF, ZF and PF describe the digit already |
| `ArithmeticAgreement.AsciiIsTheOther` | packages/emu86/reference/8086tiny.c:250-254 | in every state AAA leaves what the reference leaves for AAS, and the other way round, but for SF, ZF and PF |
| `ArithmeticAgreement.AamAgreesIff` | packages/emu86/reference/8086tiny.c:654-659 | AAM leaves the reference's state but for CF and OF, which are kept, so the same one exactly if both are clear and the base is not 0 |
| `ArithmeticAgreement.AadAgreesIff` | packages/emu86/reference/8086tiny.c:660-662 | AAD likewise |
| `ControlAgreement.BranchTarget` | packages/emu86/src/emulator/opcodes/control.h:56-61 | a taken short branch goes to the next IP plus the signed byte behind the opcode modulo 2^16, and a conditional jump goes there exactly if its condition holds |
| `ControlAgreement.JccAgrees` | packages/emu86/reference/8086tiny.c:347-350 | conditional jumps: the four table rows of flags decide what our condition codes decide |
| `ControlAgreement.ControlAgreesIff` | packages/emu86/reference/8086tiny.c:347-653 | jumps, loops, calls, returns, IRET, INT and INTO as decoded leave the reference's state exactly if the instruction is no far call |
| `ControlAgreement.FarCalls` | packages/emu86/reference/8086tiny.c:624-628 | both states of a far call: ours saves the IP of the call itself, the reference that IP plus 5 |
| `TransferAgreement.TransferAgreesIff` | packages/emu86/reference/8086tiny.c:351-690 | every covered move, PUSH, POP, LEA, LES, LDS, XLAT, XCHG and flag transfer leaves the reference's state exactly if it is neither LAHF with bit 1 clear nor a HLT that halts |
| `TransferAgreement.XchgAgrees` | packages/emu86/reference/8086tiny.c:536-544 | XCHG by copies is the reference's three exclusive ors, for registers, halves of one register and memory |
| `TransferAgreement.LeaAgrees` | packages/emu86/reference/8086tiny.c:441-453 | LEA by taking the segment off is the reference's second decode under the zero register |
| `TransferAgreement.LahfAgreesIff` | packages/emu86/reference/8086tiny.c:637-639 | LAHF leaves the reference's AH exactly if bit 1 of FLAGS is set |
| `OtherAgreement.StringMoveAgrees` | packages/emu86/reference/8086tiny.c:545-556 | MOVS, STOS and LODS chosen by opcode here and by `extra` there leave the same state, repeated or not |
| `OtherAgreement.StringCompareAgreesIff` | packages/emu86/reference/8086tiny.c:557-571 | CMPS and SCAS likewise, exactly if there is no REP, `rep_mode` is 0 or 1 or CX is at most 1 |
| `OtherAgreement.OtherAgreesIff` | packages/emu86/reference/8086tiny.c:545-690 | strings, ports, flag instructions and prefixes as decoded leave the reference's state exactly but for such comparisons and OUT to port 0x61 between two timer bytes |
| `OtherAgreement.OutAgreesIff` | packages/emu86/reference/8086tiny.c:591-602 | OUT to every port but the video ports, byte or word: latch, speaker and timer ports as in the reference, but for that case |
| `OtherAgreement.InAgrees` | packages/emu86/reference/8086tiny.c:583-590 | IN from every port but the cursor's, byte or word: value and placeholder ports as in the reference |
| `Shift.RotateCarryLeft` | packages/emu86/src/emulator/opcodes/shift.h:168-192 | the bit-at-a-time RCL loop is the rotation of CF:value by count mod (bits + 1), for every count |
| `Shift.RotateCarryRight` | packages/emu86/src/emulator/opcodes/shift.h:199-222 | the RCR loop likewise |
| `Shift.RclThenRcr` | packages/emu86/src/emulator/opcodes/shift.h:168-222 | RCL n then RCR n restores value and CF |
| `ShiftReference.ShiftRotateAgrees` | packages/emu86/reference/8086tiny.c:460-509 | every comparable shift and rotate leaves the same value and the same flags as the reference's closed forms |
| `ExecuteUnit.ExecRotate` | packages/emu86/src/emulator/run.c:257-271 | shift and rotate instructions in place, running the RCL and RCR loops |
| `StringUnit.ExecStringOp` | packages/emu86/src/emulator/opcodes/string.h:161-201 | the REP loop in place equals `Strings.ExecString` |
| `StringUnit.ExecMovs` | packages/emu86/src/emulator/opcodes/string.h:35-51 | one MOVS iteration in place |
| `StringUnit.ExecCmps` | packages/emu86/src/emulator/opcodes/string.h:58-82 | one CMPS iteration in place |
| `StringUnit.ExecStos` | packages/emu86/src/emulator/opcodes/string.h:89-101 | one STOS iteration in place |
| `StringUnit.ExecLods` | packages/emu86/src/emulator/opcodes/string.h:108-120 | one LODS iteration in place |
| `StringUnit.ExecScas` | packages/emu86/src/emulator/opcodes/string.h:127-147 | one SCAS iteration in place |
| `StringMoves.SplitRepeat` | packages/emu86/src/emulator/opcodes/string.h:185-200 | REP by m + n is REP by m, then REP by n |
| `StringMoves.RepMovsRegisters` | packages/emu86/src/emulator/opcodes/string.h:185-200 | for every CX, direction, overlap and offset wrap, REP MOVS ends with CX = 0, SI and DI moved by CX elements modulo 2^16, and nothing else but memory changed |
| `StringMoves.RepMovsIsMemmove` | packages/emu86/src/emulator/opcodes/string.h:185-200 | without offset wrap REP MOVS is an exact memmove whenever it runs away from the overlap, with CX, SI and DI behind it |
| `StringMoves.RepMovsbRepeats` | packages/emu86/src/emulator/opcodes/string.h:185-200 | a forward byte copy k above its source repeats the first k bytes |
| `StringMoves.OverlapIsNotMemmove` | packages/emu86/src/emulator/opcodes/string.h:185-200 | so the memmove condition is needed |
| `StringFills.RepStosFills` | packages/emu86/src/emulator/opcodes/string.h:185-200 | REP STOS for every CX, DI, direction and offset wrap: every element holds the accumulator, every other byte is as before, CX is 0 and DI behind the last element |
| `StringWraps.RepMovsCopies` | packages/emu86/src/emulator/opcodes/string.h:185-200 | REP MOVS for every CX, index, direction and offset wrap: unless a source element meets a target element, each target element holds its old source element and every other byte is as before |
| `StringFills.StringAgrees` | packages/emu86/reference/8086tiny.c:544-556 | MOVS, STOS and LODS, repeated or not, end in the state of the reference's loop for every CX, index, direction and overlap, on elements outside the reference's registers at 0xF0000 and below its end of memory |
| `StringCompares.RepCompareStops` | packages/emu86/src/emulator/opcodes/string.h:185-200 | REPZ and REPNZ stop after the first element that breaks the condition or with CX; all earlier elements satisfy it and the flags are the last comparison's; a `rep_mode` above 1 never stops early |
| `StringCompares.RepOfZero` | packages/emu86/src/emulator/opcodes/string.h:185-200 | with CX = 0 on entry nothing changes |
| `StringCompares.RepAgreesIff` | packages/emu86/reference/8086tiny.c:557-571 | the reference loop ends with the same CX, SI, DI, memory and flags exactly if `rep_mode` is 0 or 1 or there is at most one element, on elements outside the reference's registers at 0xF0000 and below its end of memory |
| `ExecuteUnit.ExecLea` | packages/emu86/src/emulator/run.c:220-243 | LEA in place |
| `ExecuteUnit.ExecuteInstruction` | packages/emu86/src/emulator/run.c:101-531 | the whole dispatch in place equals `Execute.Body` |
| `InstructionLaws.RegisterReadsBack` | packages/emu86/src/emulator/decode.h:119-138 | a register written is read back, and no other register, the other half of the same word included, changes |
| `InstructionLaws.XchgSwaps` | packages/emu86/src/emulator/opcodes/transfer.h:174-190 | XCHG swaps its operands, register or memory, byte or word, halves of one register included |
| `InstructionLaws.XchgTwice` | packages/emu86/src/emulator/opcodes/transfer.h:174-190 | XCHG twice is the identity on the whole state |
| `InstructionLaws.OutThenIn` | packages/emu86/src/emulator/run.c:339-369 | IN reads back what OUT wrote, byte or word, but for the four ports that IN itself changes |
| `InstructionLaws.LoopBranches` | packages/emu86/src/emulator/opcodes/control.h:218-252 | LOOP branches CX - 1 times modulo 2^16, so 65535 times for CX = 0; LOOPZ and LOOPNZ too, or not at all |
| `InstructionLaws.CallsReturn` | packages/emu86/src/emulator/opcodes/control.h:106-162 | n nested near calls and n returns go on behind the first call with all registers as before, for every n with 2n <= 65536 and every SP; memory differs in the return addresses only |
| `Ring.MaskIsMod` | packages/emu86/src/emulator/platform.h:29-37 | masking with size - 1 is the remainder, for every power of two |
| `Ring.AvailableIsGap` | packages/emu86/src/emulator/platform.h:29-32 | the masked 32-bit difference is the distance from tail to head |
| `Ring.RingBuf.WriteByte` | packages/emu86/src/emulator/platform.h:40-49 | one byte is appended unless size - 1 are queued |
| `Ring.RingBuf.ReadByte` | packages/emu86/src/emulator/platform.h:52-60 | the oldest byte is taken unless the ring is empty |
| `Ring.RingBuf.WriteBlock` | packages/emu86/src/emulator/platform.h:63-73 | all of a block is appended, or nothing |
| `Ring.RingBuf.ReadBlock` | packages/emu86/src/emulator/platform.h:76-86 | the oldest len bytes are taken in order, or nothing |
| `RingConcurrent.RunsAreFifo` | packages/emu86/src/emulator/platform.h:29-86 | under every interleaving of single loads and stores the bytes read are a prefix of the bytes written, blocks count whole, and at most size - 1 slots are used |
| `RingConcurrent.ProducerKeeps` | packages/emu86/src/emulator/platform.h:40-73 | every producer step keeps the invariant, with a stale tail too |
| `RingConcurrent.ConsumerKeeps` | packages/emu86/src/emulator/platform.h:52-86 | every consumer step keeps the invariant, with a stale head too |
| `RingConcurrent.RefusalsAreReal` | packages/emu86/src/emulator/platform.h:40-60 | a byte write is refused exactly if the ring is full as it loads the tail, a byte read exactly if it is empty |
| `RingConcurrent.BlockRefusals` | packages/emu86/src/emulator/platform.h:63-86 | a block call is refused exactly if the block does not fit, or is not there, by the other thread's index as loaded; one that is let through really fits or is there |
| `RingConcurrent.BlockFinishes` | packages/emu86/src/emulator/platform.h:63-73 | a block write that passed its check finishes in a fixed number of producer steps, whatever the consumer does |
| `RingConcurrent.BlockReadFinishes` | packages/emu86/src/emulator/platform.h:76-86 | a block read that passed its check finishes in a fixed number of consumer steps with exactly the next bytes written, whatever the producer does |
| `Crc.CrcTable.Init` | packages/emu86/src/emulator/snapshot.c:9-20 | the table holds the CRC of every byte |
| `Crc.CrcTable.Compute` | packages/emu86/src/emulator/snapshot.c:22-29 | the table-driven CRC of every buffer is the bit-serial reflected CRC-32 |
| `Crc.TableStep` | packages/emu86/src/emulator/snapshot.c:26-27 | one table lookup is eight bit steps |
| `Crc.ByteStepInjective` | packages/emu86/src/emulator/snapshot.c:26-27 | byte steps with equal results have equal registers exactly if they have equal bytes |
| `Crc.BurstDetected` | packages/emu86/src/emulator/snapshot.c:22-29 | messages that differ in a span of at most four bytes have different CRCs |
| `Crc.CheckValue` | packages/emu86/src/emulator/snapshot.c:9-29 | the CRC of the nine ASCII digits is 0xCBF43926, the check value of CRC-32 |
| `SnapshotUnit.Save` | packages/emu86/src/emulator/snapshot.c:164-248 | save in place writes exactly the snapshot at the head of a large enough buffer, and nothing otherwise |
| `SnapshotUnit.RestoreSnapshot` | packages/emu86/src/emulator/snapshot.c:250-346 | restore in place: result code and machine as `Snapshot.Restore` says, and any failure leaves the machine untouched |
| `Snapshot.RoundState` | packages/emu86/src/emulator/snapshot.c:178-346 | decoding an encoded state gives back every field |
| `Snapshot.BackState` | packages/emu86/src/emulator/snapshot.c:178-346 | encoding a decoded buffer gives back every byte |
| `Snapshot.Save` | packages/emu86/src/emulator/snapshot.c:103-162 | the bytes written are exactly `emu86_snapshot_size()` |
| `SnapshotLayout.SavedAt` | packages/emu86/src/emulator/snapshot.c:164-248 | for every state, byte by byte: every field of it lies at its absolute offset in the saved bytes, with magic, version and size at 0 to 11 and the checksum in the last four |
| `SnapshotLayout.RestoredAt` | packages/emu86/src/emulator/snapshot.c:250-346 | every accepted buffer restores the state whose fields lie in it at the same offsets |
| `Snapshot.RestoreOfSave` | packages/emu86/src/emulator/snapshot.c:250-346 | restore of save succeeds and reproduces the state, also inside a larger buffer |
| `Snapshot.SaveOfRestore` | packages/emu86/src/emulator/snapshot.c:164-346 | save of restore reproduces an accepted buffer of the exact size exactly if its size field is `data_size()` |
| `Snapshot.TruncatedRefused` | packages/emu86/src/emulator/snapshot.c:252-269 | every shorter buffer is refused for its size |
| `Snapshot.BurstRefused` | packages/emu86/src/emulator/snapshot.c:271-278 | changing up to four consecutive bytes of the field data makes restore return -3 |
| `Snapshot.ChecksumChangeRefused` | packages/emu86/src/emulator/snapshot.c:271-278 | changing the stored checksum makes restore return -3 |
| `Snapshot.SealedRestores` | packages/emu86/src/emulator/snapshot.c:250-346 | field data of every length under a fitting header and checksum, with anything behind it: restore decodes `data_size()` bytes whatever the header says, and reads behind the buffer exactly if that is shorter |
| `Snapshot.ShortFieldNotReproduced` | packages/emu86/src/emulator/snapshot.c:266-288 | every buffer of the exact size with a smaller size field and its checksum inside the field data is accepted and not reproduced |
| `Snapshot.PastEndIff` | packages/emu86/src/emulator/snapshot.c:252-288 | restore reads behind the buffer exactly if the header words are right and either the size field is one of the four for which the 32-bit total wraps below 4, or the total fits, its checksum is right and the buffer is shorter than header and `data_size()` |
| `Snapshot.StaysInside` | packages/emu86/src/emulator/snapshot.c:266-288 | so never with the size field of a saved snapshot, and never in a buffer that could hold one, but for those four |
| `Harness.CompareCheap` | packages/emu86/harness/harness.c:537-600 | the cheap comparison sets exactly the bits of the fields that differ and names the first register |
| `Harness.CompareFull` | packages/emu86/harness/harness.c:602-640 | no bit is set exactly if the machines agree on every compared field; otherwise the least differing address and port are named |
| `Harness.RepVisibleIff` | packages/emu86/harness/harness.c:1018-1037 | `rep_override_en` is nonzero after a step exactly if REP was in force for it or it was a REP prefix |
| `Harness.LoopsAreScanned` | packages/emu86/harness/harness.c:1018-1037 | so the fast mode scans memory after every step whose string loop ran |
| `Harness.TailsAgreeIff` | packages/emu86/reference/8086tiny.c:708-762 | our step tail and the reference's, with its own interrupts, leave equal machines exactly if the timer is due in both or in neither and the latches agree; the reference also wants TF clear |
| `Harness.TicksAgreeIff` | packages/emu86/reference/8086tiny.c:709-711 | the 64-bit and the 32-bit instruction counter tick together exactly while the count's quotient by 2^32 is a multiple of 625 |
| `Keyboard.KbdQueue.Consume` | packages/emu86/harness/harness.c:862-878 | the oldest queued key is taken |
| `Keyboard.KbdQueue.Drain` | packages/emu86/harness/harness.c:883-898 | waiting bytes are appended in order until none is left or 256 are queued, across the wrap of the 32-bit indices |
| `Keyboard.QueueGrows` | packages/emu86/harness/harness.c:893-896 | a byte stored at tail mod 256 is appended, and overwrites no queued one |
| `ControlPlane.SetThenGet` | packages/emu86/harness/control.c:164-219 | for every n below 2^64 and every addressable name, `set` with n in decimal stores n and nothing else, and `get` answers n in decimal |
| `ControlPlane.SetGetsIff` | packages/emu86/harness/control.c:164-252 | a writable u64 variable can be set to every n and read back if and only if its name is addressable: 1 to 127 characters, no blank, no trimmed character at the end, and not `all` |
| `ControlPlane.SetThenGetBool` | packages/emu86/harness/control.c:55-64 | for every text a writable boolean takes exactly 0 and 1, `get` then answers it, and anything else is refused without a change |
| `ControlPlane.TrailingDropped` | packages/emu86/harness/control.c:245-252 | `get` answers every name that ends in a trimmed character as it answers the name without it |
| `ControlPlane.StrtoullOfDecimal` | packages/emu86/harness/control.c:40-77 | a printed number is parsed back |
| `ControlPlane.ReadOnlyKept` | packages/emu86/harness/control.c:172-219 | no sequence of commands changes a read-only variable, a name, a kind or an access mode |
| `ControlPlane.PrintHelp` | packages/emu86/harness/control.c:108-139 | the `help` reply is the longest prefix of the full listing that fits |
| `ControlPlane.PrintGetAll` | packages/emu86/harness/control.c:141-162 | the `get all` reply likewise |
| `ControlPlane.Handler.CmdSet` | packages/emu86/harness/control.c:172-219 | `set` in place: variables and clipped reply |
| `ControlPlane.Handler.HandleCommand` | packages/emu86/harness/control.c:225-272 | the dispatcher in place: variables and clipped reply of `ControlPlane.Handle` |

## Left out

- MulDivReference.IdivAgrees: takes the mathematical quotient for word IDIV of -2^31 by -1, where both C programs overflow.
- AluDivision.IdivMeaning: leaves out word IDIV of -2^31 by -1, whose quotient overflows the C type.
- ShiftReference.ShiftRotateAgrees: compares counts 1 to 31, SHL up to the operand's width, and RCL and RCR with a nonzero remainder; elsewhere the two emulators are not meant to agree (the reference rewrites flags on count 0 and masks CL).
- StringWraps.RepMovsCopies: leaves out copies that wrap and overlap their own source at once.
- StringFills.StringAgrees: keeps the reference's registers apart from its memory, so it does not speak of elements at 0xF0000 to 0xF00FF, where a string operation would read or change them, or from 0x10FFF0 on, where the reference has no memory.
- StringCompares.RepAgreesIff: likewise, for elements at 0xF0000 to 0xF00FF and from 0x10FFF0 on.
- InstructionAgreement.AluRegAgrees: likewise, for a memory operand there.
- InstructionAgreement.AluImmAgrees: likewise.
- InstructionAgreement.GroupAgreesIff: likewise.
- InstructionAgreement.ShiftAgreesUpToIp: likewise, and speaks of the counts of `ShiftRotateAgrees` only.
- InstructionAgreement.ShiftAgreesIff: as `ShiftAgreesUpToIp`.
- Lockstep.InstructionAgreesIff: speaks of the reference as the Makefile builds it, with NO_GRAPHICS; likewise keeps the reference's registers apart from its memory, whose end it does not model. `Covered` leaves out PUSH SP, which the reference evaluates in no defined order, undefined encodings (FF /7, a far pointer in a register, a segment register above 3, FE /2 to /7), shifts outside `ShiftRotateAgrees`, the video ports 0x3D5 and 0x3B5, port 0xFFFF and the host calls 0F 01 to 0F 03.
- Lockstep.StepAgreesIff: likewise; PUTCHAR goes to the console ring in both, and the reference's standard input is the ring of the console.
- Lockstep.RunsInLockstep: likewise; takes the reference's `op_result` before each pass as given.
- TransferAgreement.TransferAgreesIff: as `InstructionAgreesIff`; likewise `ControlAgreesIff`, `OtherAgreesIff` and `ArithmeticAgreesIff`.
- Segment register numbers above 3 in MOV and in overrides: the source indexes past its array; the model reads 0 and writes nothing.
- Port 0xFFFF + 1 in word IN and OUT: the source indexes past its array; the model wraps.
- BIOS disk calls and the clock: host callbacks; the model has a platform without them, where the clock call writes zeroes and the disk calls do nothing. A clock buffer that ends behind the memory is left unwritten.
- A console that is not connected is a ring of size 1.
- `io_type` and `io_port` of the yield record, which no caller of the loop depends on.
- SDL graphics, audio and CRT side effects of the reference; hosts, sockets, FIFOs, environment and reporting of the harness.
- The comparator's result bits are a record of booleans, not a packed word.
- The parse of the BIOS tables from memory (`emu86_load_tables`).
- Rings under memory models weaker than sequential consistency.
- Strings of the control plane are sequences of characters; embedded terminators do not occur.
