# Synacor virtual machine (Kotlin implementation), modelled in Dafny

This project models the execution engine of davidkey/synacor-kotlin, a Kotlin
interpreter for the Synacor challenge bytecode, in Dafny. The bytecode has
22 instructions over 15-bit words. The model covers:

- the program image decoder: byte pairs to little-endian words;
- the opcode enumeration, with `isOpCode` and `fromInt`;
- the machine state and its primitives:
  - memory padded with NOOPs to 32768 words;
  - the ten-slot register array, `setRegister` and `getValue`;
  - the stack;
  - the line-buffered input deque;
  - the forward scan for the next opcode word;
- the 22 instruction handlers, as one `Dispatch` over a closed `OpCode` type;
- the `execute` loop, as a run bounded by fuel.

Modules:

- `Faults`: the fault kinds the JVM would throw, and a `Result` type.
- `OpCodes`: the enumeration, its codes and arities, `IsOpCode`, `FromInt`.
- `IntOps`: the Kotlin `Int` operators the handlers use, on unbounded integers. These are the truncating `%`, `inv`, `and` and `or`.
- `Endianness`: `reverseEndianess` and `toUnsignedInt`, with an encoder and the round trip.
- `VirtualMachine`: the state (`Machine`), construction (`Pad`, `Load`), memory, registers, stack, opcode scan and input.
- `Engine`: `Step` (fetch, decode and dispatch), `Run`/`Continue` (the loop), `Execute`.
- `StepProperties`: one lemma per handler, stating its effect through `Step`, with its error cases.
- `RunProperties`: facts about whole runs:
  - fuel additivity;
  - the padding behaving as NOOPs;
  - small programs;
  - an invariant. Under it, registers always hold words in 0..32767.

The Kotlin code differs from a conventional Synacor machine, as the Synacor
challenge's architecture specification describes one, in these ways. The
model follows the code:

- Each handler continues at the first word, at or after the end of its operands, that is a valid opcode (0..21). It does not continue at the word straight after the operands. Non-opcode words are skipped, and when none is left in memory the run ends normally. The scan reads memory after the handler's own write.
- CALL pushes the result of that scan from `pc + 2`, not `pc + 2` itself. When no opcode follows, it pushes -1.
- The register array has 10 slots, not eight. It is indexed by `index % 32768`, with Kotlin's truncating `%`. A write to a register whose slot is outside 0..9 faults with `InvalidRegister`. A literal destination 0..9 writes slot 0..9.
- `getValue` never faults. Operand words 32776..65535, which the architecture calls invalid, are taken as literals.
- `setRegister` stores `32768 + v` for a negative `v` and `v % 32768` otherwise. A value below -32768 therefore stays negative (`StepProperties.NotOfWideLiteral`). WMEM, and IN into memory, store their value unreduced.
- IN writes into a register only when its operand is a register reference. Any other operand is a memory address.
- POP and RET resolve the popped word through `getValue`.
- RET on an empty stack faults with `StackUnderflow`; it does not halt.
- JMP, JT, JF, CALL and RET re-enter the dispatcher at the target. A negative target faults as an out-of-range address, for example the -1 that CALL pushes.
- An image longer than 32768 words is kept whole.
- OUT emits the low 16 bits of the resolved value (`Int.toChar`).

## Model

| member | source | states |
|---|---|---|
| Endianness.ToUnsignedInt | src/main/kotlin/com/dak/synacor/SynacorApp.kt:16 | a signed byte maps to the unique value in 0..255 congruent to it modulo 256 |
| Endianness.ToSignedByte | src/main/kotlin/com/dak/synacor/SynacorApp.kt:16 | right inverse of ToUnsignedInt on 0..255 |
| Endianness.Unsigned | src/main/kotlin/com/dak/synacor/SynacorApp.kt:12 | the byte-wise conversion keeps length and converts each position |
| Endianness.Chunked | src/main/kotlin/com/dak/synacor/SynacorApp.kt:13 | `chunked(2)`: ceil(n/2) chunks, chunk k being elements 2k up to 2k+2 (the last may be a single element) |
| Endianness.ChunkEnds | src/main/kotlin/com/dak/synacor/SynacorApp.kt:13 | chunk k is non-empty, starts at element 2k and ends at element min(2k+1, n-1) |
| Endianness.ChunkWord | src/main/kotlin/com/dak/synacor/SynacorApp.kt:14 | `(last shl 8) + first` of chunk k, in terms of the input bytes |
| Endianness.ReverseEndianness | src/main/kotlin/com/dak/synacor/SynacorApp.kt:10-14 | one word per byte pair, word k = byte(2k+1) * 256 + byte(2k), every word in 0..65535 |
| Endianness.WordOfPair | src/main/kotlin/com/dak/synacor/SynacorApp.kt:14 | a full pair decodes little-endian: high byte second |
| Endianness.OddTrailingByte | src/main/kotlin/com/dak/synacor/SynacorApp.kt:13-14 | a lone trailing byte b is both halves of the last word, giving b * 257 |
| Endianness.Encode | src/main/kotlin/com/dak/synacor/SynacorApp.kt:10-14 | the partner encoder writes each 16-bit word as low byte then high byte |
| Endianness.RoundTrip | src/main/kotlin/com/dak/synacor/SynacorApp.kt:10-14 | decoding an encoded word sequence gives the words back |
| Endianness.RoundTripAt | src/main/kotlin/com/dak/synacor/SynacorApp.kt:14 | the round trip at a single position |
| OpCodes.Codes | src/main/kotlin/com/dak/synacor/OpCode.kt:28 | `values().map(opCode)`: one code per constant, in declaration order |
| OpCodes.FromInt | src/main/kotlin/com/dak/synacor/OpCode.kt:29 | decoding succeeds exactly on valid opcode words and yields the constant with that code; any other word is InvalidOpcode of that word |
| OpCodes.CodeIsOrdinal | src/main/kotlin/com/dak/synacor/OpCode.kt:3-25 | each constant's code equals its ordinal position in the enumeration |
| OpCodes.ValuesAreDistinct | src/main/kotlin/com/dak/synacor/OpCode.kt:3-25 | a constant occurs at position i of the enumeration iff i is its code |
| OpCodes.OrdinalOfCode | src/main/kotlin/com/dak/synacor/OpCode.kt:3-25 | every code is below 22 and names back its constant |
| OpCodes.CodeInjective | src/main/kotlin/com/dak/synacor/OpCode.kt:3-25 | distinct constants have distinct codes |
| OpCodes.IsOpCodeListed | src/main/kotlin/com/dak/synacor/OpCode.kt:28 | `isOpCode` (a range test in the model) holds iff the word is among the constants' codes |
| OpCodes.FromIntIndexes | src/main/kotlin/com/dak/synacor/OpCode.kt:29 | `values().getOrNull(n)`: decoding succeeds iff n indexes the enumeration, giving the constant at index n |
| OpCodes.FromIntCode | src/main/kotlin/com/dak/synacor/OpCode.kt:29 | FromInt and Code are inverse in both directions |
| OpCodes.ArityTable | src/main/kotlin/com/dak/synacor/OpCode.kt:3-25 | the operand counts, grouped: which constants take 0, 1, 2 and 3 operands |
| IntOps.TruncRem | src/main/kotlin/com/dak/synacor/SynacorVirtualMachine.kt:97 | Kotlin `%`: the remainder takes the dividend's sign, is smaller than the divisor in magnitude, and agrees with the mathematical residue on non-negative operands |
| IntOps.TruncRemOdd | src/main/kotlin/com/dak/synacor/SynacorVirtualMachine.kt:97 | negating the dividend negates the remainder |
| IntOps.TruncRemDivisorSign | src/main/kotlin/com/dak/synacor/SynacorVirtualMachine.kt:97 | the divisor's sign does not affect the remainder |
| IntOps.ToChar | src/main/kotlin/com/dak/synacor/SynacorVirtualMachine.kt:141 | `Int.toChar`: a 16-bit code unit congruent to the value modulo 65536, the identity on 0..65535 |
| IntOps.NatAnd | src/main/kotlin/com/dak/synacor/SynacorVirtualMachine.kt:105 | bitwise AND of non-negatives is below both operands |
| IntOps.NatAndBit | src/main/kotlin/com/dak/synacor/SynacorVirtualMachine.kt:105 | reference definition: bit k of a and b is set iff bit k is set in both a and b, for every k |
| IntOps.NatOr | src/main/kotlin/com/dak/synacor/SynacorVirtualMachine.kt:113 | bitwise OR of non-negatives lies between the larger operand and their sum |
| IntOps.NatOrBit | src/main/kotlin/com/dak/synacor/SynacorVirtualMachine.kt:113 | reference definition: bit k of a or b is set iff bit k is set in a or in b, for every k |
| IntOps.AndPlusOr | src/main/kotlin/com/dak/synacor/SynacorVirtualMachine.kt:102-116 | (a and b) + (a or b) == a + b |
| IntOps.NatOpsIdempotent | src/main/kotlin/com/dak/synacor/SynacorVirtualMachine.kt:102-116 | a and a == a or a == a |
| IntOps.NatAndCommutes | src/main/kotlin/com/dak/synacor/SynacorVirtualMachine.kt:105 | AND of non-negatives commutes |
| IntOps.NatOrCommutes | src/main/kotlin/com/dak/synacor/SynacorVirtualMachine.kt:113 | OR of non-negatives commutes |
| IntOps.BitOpsCommute | src/main/kotlin/com/dak/synacor/SynacorVirtualMachine.kt:102-116 | `and` and `or` commute on all integers, negative ones included |
| IntOps.NatOrBound | src/main/kotlin/com/dak/synacor/SynacorVirtualMachine.kt:113 | OR of two k-bit numbers is a k-bit number |
| IntOps.BitOpsOnWords | src/main/kotlin/com/dak/synacor/SynacorVirtualMachine.kt:102-116 | on 15-bit words AND and OR give 15-bit words, AND below and OR above both operands |
| VirtualMachine.Pad | src/main/kotlin/com/dak/synacor/SynacorVirtualMachine.kt:13-18 | memory is at least 32768 words, begins with the image unchanged, and every added word is NOOP |
| VirtualMachine.Load | src/main/kotlin/com/dak/synacor/SynacorVirtualMachine.kt:6-18 | construction: padded memory, all registers 0, empty stack, input queue and output |
| VirtualMachine.Read | src/main/kotlin/com/dak/synacor/SynacorVirtualMachine.kt:192 | a memory read succeeds exactly for an in-range address and yields that word; otherwise it faults with that address |
| VirtualMachine.Write | src/main/kotlin/com/dak/synacor/SynacorVirtualMachine.kt:129 | a memory write succeeds exactly in range, changes only that address and keeps the length |
| VirtualMachine.ReadAfterWrite | src/main/kotlin/com/dak/synacor/SynacorVirtualMachine.kt:129 | reading after a write gives the written value at that address and the old read elsewhere |
| VirtualMachine.GetValue | src/main/kotlin/com/dak/synacor/SynacorVirtualMachine.kt:196-198 | operands 32768..32775 resolve to registers 0..7; every other operand resolves to itself |
| VirtualMachine.Normalise | src/main/kotlin/com/dak/synacor/SynacorVirtualMachine.kt:166 | the stored value is below 32768 and congruent to the value modulo 32768; it is non-negative from -32768 up, and below that it is the value plus 32768, still negative |
| VirtualMachine.NormaliseIsResidue | src/main/kotlin/com/dak/synacor/SynacorVirtualMachine.kt:166 | from -32768 up, the stored value is exactly the residue modulo 32768 |
| VirtualMachine.SlotOfNonNegative | src/main/kotlin/com/dak/synacor/SynacorVirtualMachine.kt:166 | for non-negative indices the slot is index mod 32768, valid iff below 10 |
| VirtualMachine.SetRegister | src/main/kotlin/com/dak/synacor/SynacorVirtualMachine.kt:165-167 | succeeds iff the slot exists; writes the normalised value there and leaves every other slot alone; faults InvalidRegister otherwise |
| VirtualMachine.GetValueAfterSetRegister | src/main/kotlin/com/dak/synacor/SynacorVirtualMachine.kt:165-198 | after writing register k, resolving reference 32768+k gives the normalised value and other references are unchanged |
| VirtualMachine.SetRegisterKeepsBelow | src/main/kotlin/com/dak/synacor/SynacorVirtualMachine.kt:166 | register writes keep every register below the reference range |
| VirtualMachine.GetValueIdempotent | src/main/kotlin/com/dak/synacor/SynacorVirtualMachine.kt:197 | with registers below 32768, resolving a resolved operand changes nothing |
| VirtualMachine.PopStack | src/main/kotlin/com/dak/synacor/SynacorVirtualMachine.kt:195 | popping succeeds iff the stack is non-empty, splits off the top, and otherwise faults StackUnderflow |
| VirtualMachine.PopAfterPush | src/main/kotlin/com/dak/synacor/SynacorVirtualMachine.kt:194-195 | pop after push returns the pushed value and the original stack |
| VirtualMachine.NextOpCodeIndex | src/main/kotlin/com/dak/synacor/SynacorVirtualMachine.kt:169-177 | the first opcode word at or after the start, with none before it; -1 iff there is none up to the end of memory |
| VirtualMachine.NextOpCodeIndexLocal | src/main/kotlin/com/dak/synacor/SynacorVirtualMachine.kt:169-177 | the scan depends only on memory from the start position on |
| VirtualMachine.NextChar | src/main/kotlin/com/dak/synacor/SynacorVirtualMachine.kt:179-189 | takes the queue head; an empty queue is refilled with the next line and a newline first; no queue and no lines is InputExhausted |
| VirtualMachine.NextCharConsumesOne | src/main/kotlin/com/dak/synacor/SynacorVirtualMachine.kt:179-189 | a read succeeds iff any character is pending, and removes exactly the first pending character |
| Engine.Advance | src/main/kotlin/com/dak/synacor/SynacorVirtualMachine.kt:169-177 | the ordinary advance leaves the state alone, halts iff no opcode word remains, and otherwise continues at the first opcode word at or after the start |
| Engine.Transfer | src/main/kotlin/com/dak/synacor/SynacorVirtualMachine.kt:191-192 | re-entering the dispatcher: a non-negative target continues there, a negative one faults as an out-of-range address |
| Engine.Compute | src/main/kotlin/com/dak/synacor/SynacorVirtualMachine.kt:46-116 | the three-operand computations fail only for MOD by zero, with DivisionByZero |
| StepProperties.StepFetch | src/main/kotlin/com/dak/synacor/SynacorVirtualMachine.kt:191-192 | fetch faults past memory, faults InvalidOpcode on a non-opcode word, and otherwise runs the decoded handler |
| StepProperties.Dispatches | src/main/kotlin/com/dak/synacor/SynacorVirtualMachine.kt:191-192 | an instruction laid out in memory dispatches to its handler with its operand words |
| StepProperties.HaltStep | src/main/kotlin/com/dak/synacor/SynacorVirtualMachine.kt:30 | HALT stops with the state untouched |
| StepProperties.NoopStep | src/main/kotlin/com/dak/synacor/SynacorVirtualMachine.kt:158-160 | NOOP only advances past itself |
| StepProperties.SetStep | src/main/kotlin/com/dak/synacor/SynacorVirtualMachine.kt:32-35 | SET writes the resolved, normalised source into the raw destination slot, or faults InvalidRegister |
| StepProperties.BinaryDispatch | src/main/kotlin/com/dak/synacor/SynacorVirtualMachine.kt:46-116 | the seven three-operand opcodes run the shared handler on their operand words |
| StepProperties.BinaryBadSlot | src/main/kotlin/com/dak/synacor/SynacorVirtualMachine.kt:46-116 | a three-operand opcode whose destination word names no register slot faults with InvalidRegister, unless it is MOD by zero, which faults with DivisionByZero first |
| StepProperties.AddStep | src/main/kotlin/com/dak/synacor/SynacorVirtualMachine.kt:78-84 | ADD stores (b + c) mod 32768; a destination naming no register slot faults with InvalidRegister |
| StepProperties.MultStep | src/main/kotlin/com/dak/synacor/SynacorVirtualMachine.kt:86-92 | MULT stores (b * c) mod 32768; a destination naming no register slot faults with InvalidRegister |
| StepProperties.ModStep | src/main/kotlin/com/dak/synacor/SynacorVirtualMachine.kt:94-100 | MOD by a divisor resolving to 0 faults with DivisionByZero, before the destination is checked; with a register destination it faults on nothing else, and on words it stores the remainder, which is below the divisor; otherwise an invalid destination faults with InvalidRegister |
| StepProperties.CompareStep | src/main/kotlin/com/dak/synacor/SynacorVirtualMachine.kt:46-60 | EQ and GT store 1 iff the relation holds of the resolved operands, else 0; a destination naming no register slot faults with InvalidRegister |
| StepProperties.BitwiseStep | src/main/kotlin/com/dak/synacor/SynacorVirtualMachine.kt:102-116 | AND and OR of words store a word, bounded by the operands; a destination naming no register slot faults with InvalidRegister |
| StepProperties.StoreWord | src/main/kotlin/com/dak/synacor/SynacorVirtualMachine.kt:165-167 | a computed word is stored unchanged |
| StepProperties.StoreResidue | src/main/kotlin/com/dak/synacor/SynacorVirtualMachine.kt:165-167 | a computed value from -32768 up is stored as its residue modulo 32768 |
| StepProperties.NotStep | src/main/kotlin/com/dak/synacor/SynacorVirtualMachine.kt:118-121 | NOT of a word v stores its 15-bit complement 32767 - v; a destination naming no register slot faults with InvalidRegister |
| StepProperties.NotOfWideLiteral | src/main/kotlin/com/dak/synacor/SynacorVirtualMachine.kt:118-121 | NOT of the literal 40000 stores -7233: wide literals can leave a register negative |
| StepProperties.RMemStep | src/main/kotlin/com/dak/synacor/SynacorVirtualMachine.kt:123-126 | RMEM copies the word at the resolved address, normalised, into the register; an out-of-range address faults with AddressOutOfRange before the destination is checked, and an in-range read into a destination naming no slot faults with InvalidRegister |
| StepProperties.WMemStep | src/main/kotlin/com/dak/synacor/SynacorVirtualMachine.kt:128-131 | WMEM writes the resolved value raw at the resolved address, or faults on an out-of-range address |
| StepProperties.JmpStep | src/main/kotlin/com/dak/synacor/SynacorVirtualMachine.kt:62 | JMP continues at the resolved target, or faults on a negative one |
| StepProperties.JtStep | src/main/kotlin/com/dak/synacor/SynacorVirtualMachine.kt:64-69 | JT transfers iff its test operand is non-zero; otherwise it advances past both operands |
| StepProperties.JfStep | src/main/kotlin/com/dak/synacor/SynacorVirtualMachine.kt:71-76 | JF transfers iff its test operand is zero; otherwise it advances past both operands |
| StepProperties.PushStep | src/main/kotlin/com/dak/synacor/SynacorVirtualMachine.kt:36-39 | PUSH puts the resolved operand on top and changes nothing else |
| StepProperties.PopStep | src/main/kotlin/com/dak/synacor/SynacorVirtualMachine.kt:41-44 | POP removes the top and stores it, resolved and normalised, or faults InvalidRegister |
| StepProperties.EmptyStackFaults | src/main/kotlin/com/dak/synacor/SynacorVirtualMachine.kt:195 | POP and RET on an empty stack fault StackUnderflow |
| StepProperties.PushThenPop | src/main/kotlin/com/dak/synacor/SynacorVirtualMachine.kt:36-44 | PUSH then POP restores the stack and moves the value into the register |
| StepProperties.CallStep | src/main/kotlin/com/dak/synacor/SynacorVirtualMachine.kt:133-136 | CALL pushes the scan result from pc + 2 (-1 when no opcode follows) and transfers to the resolved operand, faulting on a negative target |
| StepProperties.CallThenRet | src/main/kotlin/com/dak/synacor/SynacorVirtualMachine.kt:133-138 | CALL pushes the next opcode's address and jumps; an immediate RET resumes there with the stack restored, or faults when there was no such opcode |
| StepProperties.RetStep | src/main/kotlin/com/dak/synacor/SynacorVirtualMachine.kt:138 | RET pops the top and transfers to it resolved: a word is resumed at as it is, and a negative word faults |
| StepProperties.OutStep | src/main/kotlin/com/dak/synacor/SynacorVirtualMachine.kt:140-143 | OUT appends exactly one character, the resolved operand's code unit |
| StepProperties.InStep | src/main/kotlin/com/dak/synacor/SynacorVirtualMachine.kt:145-156 | IN consumes exactly one pending character and stores it in a register or raw in memory; with nothing pending it faults InputExhausted |
| RunProperties.RunAdditive | src/main/kotlin/com/dak/synacor/SynacorVirtualMachine.kt:20-25 | running f1 + f2 steps is running f1 and then resuming for f2 |
| RunProperties.ContinueAdditive | src/main/kotlin/com/dak/synacor/SynacorVirtualMachine.kt:22-24 | the loop test composes with fuel the same way |
| RunProperties.RunSettles | src/main/kotlin/com/dak/synacor/SynacorVirtualMachine.kt:20-25 | once a run halts or faults, more fuel does not change its outcome |
| RunProperties.RunThrough | src/main/kotlin/com/dak/synacor/SynacorVirtualMachine.kt:22-24 | the loop stops after a halt and continues at the handler's returned address |
| RunProperties.NoopWalks | src/main/kotlin/com/dak/synacor/SynacorVirtualMachine.kt:158-160 | a NOOP followed by an opcode word costs one step and moves on by one |
| RunProperties.NoopHalts | src/main/kotlin/com/dak/synacor/SynacorVirtualMachine.kt:158-160 | a NOOP in the last memory word ends the run normally |
| RunProperties.NoopsRunOut | src/main/kotlin/com/dak/synacor/SynacorVirtualMachine.kt:13-18 | running into the NOOP padding ends normally, with the state unchanged |
| RunProperties.EmptyImageHalts | src/main/kotlin/com/dak/synacor/SynacorVirtualMachine.kt:13-25 | an empty image halts normally with the initial state |
| RunProperties.HaltProgram | src/main/kotlin/com/dak/synacor/SynacorVirtualMachine.kt:30 | a lone HALT stops in one step with no effect |
| RunProperties.InvalidOpcodeProgram | src/main/kotlin/com/dak/synacor/OpCode.kt:29 | an image starting with 9999 faults InvalidOpcode at address 0 before any change |
| RunProperties.HelloProgram | src/main/kotlin/com/dak/synacor/SynacorVirtualMachine.kt:140-143 | OUT 'h', OUT 'i', HALT outputs exactly "hi" |
| RunProperties.LoadWellFormed | src/main/kotlin/com/dak/synacor/SynacorVirtualMachine.kt:13-18 | an image of at most 32768 words, each at most 32775, loads into a well-formed machine |
| RunProperties.ResolveWord | src/main/kotlin/com/dak/synacor/SynacorVirtualMachine.kt:197 | with word registers, valid operands resolve to words |
| RunProperties.SetRegisterKeepsWords | src/main/kotlin/com/dak/synacor/SynacorVirtualMachine.kt:166 | writing a value of at least -32768 keeps every register a word |
| RunProperties.NextOpCodeIndexBounded | src/main/kotlin/com/dak/synacor/SynacorVirtualMachine.kt:169-177 | in 32768 words the scan gives -1 or an address |
| RunProperties.NextCharKeepsWords | src/main/kotlin/com/dak/synacor/SynacorVirtualMachine.kt:179-189 | a read character is a word, and the rest of the input remains words |
| RunProperties.AdvanceKeeps | src/main/kotlin/com/dak/synacor/SynacorVirtualMachine.kt:169-177 | advancing keeps the machine well formed |
| RunProperties.ComputeOnWords | src/main/kotlin/com/dak/synacor/SynacorVirtualMachine.kt:46-116 | on words, the three-operand computations give non-negative results |
| RunProperties.BinaryKeeps | src/main/kotlin/com/dak/synacor/SynacorVirtualMachine.kt:46-116 | the three-operand handlers keep the machine well formed |
| RunProperties.StackOpsKeep | src/main/kotlin/com/dak/synacor/SynacorVirtualMachine.kt:36-44 | PUSH, POP, CALL and RET keep the machine well formed |
| RunProperties.MemoryOpsKeep | src/main/kotlin/com/dak/synacor/SynacorVirtualMachine.kt:118-131 | SET, NOT, RMEM and WMEM keep the machine well formed |
| RunProperties.InKeeps | src/main/kotlin/com/dak/synacor/SynacorVirtualMachine.kt:145-156 | IN keeps the machine well formed |
| RunProperties.StepKeepsWellFormed | src/main/kotlin/com/dak/synacor/SynacorVirtualMachine.kt:191-192 | every successful step keeps the machine well formed |
| RunProperties.RunKeepsWellFormed | src/main/kotlin/com/dak/synacor/SynacorVirtualMachine.kt:20-25 | every run, whatever its outcome, ends in a well-formed state |
| RunProperties.RegistersStayWords | src/main/kotlin/com/dak/synacor/SynacorVirtualMachine.kt:165-167 | from an image of at most 32768 words, each at most 32775, with every input character below 32768, registers hold only 0..32767 after any run |

## Left out

- Console I/O is not modelled: the `Scanner` on standard input, `print`, `getFileAsBytes` and `main`. Input lines are a parameter of `Load`. Output is the `output` sequence of UTF-16 code units.
- Blocking on input is not modelled. The JVM waits for another line; the model faults with `InputExhausted` once the given lines are used up.
- Kotlin's 32-bit `Int` overflow is not modelled; arithmetic is on unbounded integers. ADD and MULT of words below 32768 cannot overflow an `Int`. Larger literals (32776..65535) can overflow MULT in the JVM but not in the model.
- `Int.pow` via `Double` is not modelled. The constant 32768 (2^15) is used directly.
- JVM stack depth is not modelled. Jumps recurse through `process` in the Kotlin code and could overflow the JVM stack on long jump chains. The model continues the loop instead.
- A run is bounded by fuel and can end `OutOfFuel`; the Kotlin loop is unbounded. In the model, every JMP, JT, JF, CALL and RET that transfers control is a step of its own. The Kotlin code runs the target instruction inside the same loop iteration. So only the step count differs, not the outcome.
- A fault reports the pc and the state at the start of the faulting instruction. The JVM exception carries no state. Effects a handler performed before faulting are not in the report:
  - CALL pushes before it reads its operand, and before the transfer faults on a negative target;
  - IN takes the character before it reads its target or writes it;
  - POP pops before `setRegister` faults on an invalid register;
  - RET pops before the transfer faults on a negative address.
- The map of closures built by `getOperations` is modelled as one `match` over the opcodes.
- StepProperties.AddStep: states the stored value only for non-negative resolved operands. A negative operand first needs a register made negative by a literal above 32775 (NotOfWideLiteral). `Normalise` defines what is stored then.
- StepProperties.MultStep: states the stored value only for non-negative resolved operands, for the same reason as AddStep.
- StepProperties.ModStep: states the stored remainder only when both operands resolve to words. Otherwise only the division-by-zero case is stated.
- StepProperties.BitwiseStep: states the result only for word operands; `IntOps.BitAnd`/`BitOr` define all other cases.
- StepProperties.NotStep: states the complement only for word operands; NotOfWideLiteral shows the other behaviour.
- StepProperties.CallThenRet: assumes memory of at most 32768 words, so that the pushed return address is not a register reference.
- StepProperties.JtStep: requires the test operand to be in memory; with the opcode in the last memory word the Kotlin code faults reading it, as `Operand` does in the model.
- StepProperties.JfStep: requires the test operand to be in memory, as JtStep does.
- RunProperties.RegistersStayWords: holds for images of at most 32768 words whose words are at most 32775, and only while every input character is below 32768. The JVM's `Char` reaches 65535. IN into memory of a character of 32776 or more makes a wide literal, and a later NOT of it can make a register negative, as NotOfWideLiteral shows.
