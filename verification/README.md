# TX-2 control unit, Lincoln Writer code and assembler layout in Dafny

This project models the core of a simulator for the TX-2, the 1958 Lincoln Laboratory
computer. It covers four parts:

- **The control unit** (`cpu/src/control/mod.rs`):
  - the 64 sequence flags and their priority scan;
  - the V-memory control registers (program counter P, start point register SPR, the index
    registers X0..X77, the F memory, the N instruction register, the E audit register);
  - CODABO, RESET and STARTOVER;
  - change of sequence, including the "trap on change sequence" rule;
  - program counter updates and instruction fetch;
  - the operand address cycle (deferred addressing followed by indexing);
  - dispatch of `execute_instruction`, and the dismissal of the current sequence.
- **The Lincoln Writer character code** (`base/src/charset.rs`):
  - decoding 6-bit Lincoln Writer codes into Unicode under a shift state (case, script, colour);
  - the mapping back from Unicode to Lincoln Writer codes.

  The two directions are tied together by a round-trip theorem.
- **The assembler's layout helpers** (`assembler/src/asmlib/driver.rs`):
  - converting a parsed manuscript into a directive;
  - placing the blocks in memory;
  - de-duplicating symbols;
  - mapping a character position to a line and column;
  - laying out the binary output.
- **Simulated time** (`cpu/src/clock.rs`):
  - the sign-magnitude `SignedDuration`;
  - the accumulating `BasicClock`;
  - the decision of `MinimalSleeper::sleep` to actually sleep.

Everything is a pure function from a state to a state. Memory is a map from physical
addresses to cells. Errors and alarms are `Result` values. Two places where the program
aborts (a panic or a failed assertion) on inputs it can meet are recorded under
"## Findings": the members named `...AsWritten` model them as written, with the abort as
an error value, and the rest of the model (RESET, CODABO, scheduling and fetch) uses the
corrected definitions `ResetAddress` and `ChangeSequence`.

The modules are:

| module | file | contents |
|---|---|---|
| `Outcomes` | outcomes.dfy | `Option` and `Result` |
| `Words` | words.dfy | 18-bit halves, addresses with the mark bit, 36-bit words |
| `SequenceFlags` | sequence_flags.dfy | the flag word and its priority scan |
| `Memory` | memory.dfy | the memory unit as seen by the control unit |
| `Instructions` | instructions.dfy | fields of an instruction word and the alarms |
| `ControlRegisters` | control_registers.dfy | V-memory registers and the reset addresses |
| `Control` | control_unit.dfy | the `ControlUnit` operations |
| `Addressing` | addressing.dfy | the operand address cycle |
| `ControlProperties` | control_properties.dfy | properties that relate several operations |
| `LincolnCharset` | lincoln_charset.dfy | Lincoln Writer decoding |
| `LincolnEncoding` | lincoln_encoding.dfy | Unicode to Lincoln Writer, and the round trip |
| `AssemblerDriver` | assembler_driver.dfy | the assembler driver's layout helpers |
| `Clock` | clock.dfy | durations, the clock and the sleeper |

## Model

| member | source | states |
|---|---|---|
| Words.Join | cpu/src/control/mod.rs:493-498 | an address built from a physical part and a mark bit has exactly that physical part and mark |
| Words.SplitJoin | cpu/src/control/mod.rs:485-498 | an address is determined by its physical part and its mark bit |
| Words.Successor | cpu/src/control/mod.rs:464-491 | the program counter's successor keeps the mark bit; its physical part goes up by one and wraps to 0 after 0o377777 |
| Words.SignedValue | cpu/src/control/mod.rs:236-241 | an index register value read as one's complement lies within ±(2^17-1), and a non-negative value reads as itself |
| Words.IsNegative | cpu/src/control/mod.rs:409-411 | an index register marks a placeholder exactly when its sign bit is set and it is not negative zero (all ones) |
| Words.IndexBy | cpu/src/control/mod.rs:757-778 | indexing adds the signed index value to the address modulo 2^18 |
| Words.JoinHalves | cpu/src/control/mod.rs:739-750 | a word built from two 18-bit halves has exactly those halves |
| Words.HalvesRoundTrip | cpu/src/control/mod.rs:739-750 | a 36-bit word is determined by its left and right halves |
| SequenceFlags.NoFlags | cpu/src/control/mod.rs:83-89 | a new flag set has no flag raised |
| SequenceFlags.Raise | cpu/src/control/mod.rs:104-107 | raising flag s raises s and leaves every other flag as it was |
| SequenceFlags.Lower | cpu/src/control/mod.rs:99-102 | lowering flag s lowers s and leaves every other flag as it was |
| SequenceFlags.ScanFrom | cpu/src/control/mod.rs:112-119 | the scan stops at the first raised flag at or after its start, with no raised flag before it |
| SequenceFlags.HighestPriorityRaisedFlag | cpu/src/control/mod.rs:112-119 | none exactly when no flag is raised; otherwise the lowest-numbered raised flag |
| SequenceFlags.ValueFromZero | cpu/src/control/mod.rs:112-119 | the flag word is zero from bit i upwards exactly when no flag from i upwards is raised |
| SequenceFlags.LimboIffZeroWord | cpu/src/control/mod.rs:112-119 | no sequence is chosen exactly when the 64-bit flag word is zero |
| SequenceFlags.ValueFromBound | cpu/src/control/mod.rs:78-81 | the flag bits from i upwards form a number below 2^(64-i) |
| SequenceFlags.ValueFitsInU64 | cpu/src/control/mod.rs:78-81 | the flag word fits in a u64 |
| SequenceFlags.MinOf | cpu/src/control/mod.rs:123-148 | the minimum of a non-empty list of sequence numbers belongs to the list and bounds every element |
| SequenceFlags.RaiseAllRaised | cpu/src/control/mod.rs:104-107 | after raising a list of flags, a flag is raised exactly when it was raised before or is in the list |
| SequenceFlags.HighestPriorityIsMinimum | cpu/src/control/mod.rs:123-148 | after raising a list of flags on an empty set, the scan picks the smallest number in the list, and none when the list is empty |
| Memory.Fetch | cpu/src/control/mod.rs:545-563 | a fetch succeeds exactly when the address is mapped, and then returns the stored word; it changes no word and no other cell, and sets the meta bit only when asked |
| Instructions.OperandAddressOf | cpu/src/control/mod.rs:696-756 | the operand is direct when the defer bit is clear and then is the right half; otherwise it is deferred to the right half without the defer bit; either way it is a physical address |
| ControlRegisters.NewRegisters | cpu/src/control/mod.rs:203-226 | fresh registers: all index registers zero, no flag raised, no current sequence, no instruction decoded, not runnable, N not held |
| ControlRegisters.GetIndexRegister | cpu/src/control/mod.rs:236-241 | reading X0 gives 0; reading Xj gives its stored value |
| ControlRegisters.SetIndexRegister | cpu/src/control/mod.rs:248-254 | writing Xj (j ≠ 0, which the source asserts) changes only Xj, keeps X0 = 0, and changes no other register |
| ControlRegisters.GetFMem | cpu/src/control/mod.rs:261-266 | F memory entry 0 reads as 0, any other entry as stored |
| ControlRegisters.FixedIndex | cpu/src/control/mod.rs:270-281 | the eight fixed reset buttons are numbered 0..7 |
| ControlRegisters.UnwrapUnsigned18 | cpu/src/control/mod.rs:282-292 | converting to an 18-bit value succeeds exactly when the number is below 2^18, and keeps the number |
| ControlRegisters.ResetAddressAsWritten | cpu/src/control/mod.rs:270-292 | the reset address as written: the toggle start point gives none; a fixed button's address is its discriminant |
| ControlRegisters.FixedResetAddressesAbort | cpu/src/control/mod.rs:270-292 | every fixed reset button aborts as written, because its discriminant (0o3777710 + i) does not fit 18 bits |
| ControlRegisters.ResetAddress | cpu/src/control/mod.rs:282-292 | corrected: none exactly for the toggle start point; each fixed button names an unmarked physical address among 0o377710..0o377717 |
| ControlRegisters.ResetAddressInjective | cpu/src/control/mod.rs:270-292 | different reset buttons give different start points |
| Control.NewControlUnit | cpu/src/control/mod.rs:326-341 | a new control unit keeps X0 = 0, has no flag raised, no current sequence, no trap on change sequence, and sets no meta bits |
| Control.Reset | cpu/src/control/mod.rs:365-378 | RESET loads only SPR: the toggle start point for the TSP button, the button's fixed address otherwise (corrected, see Findings: uses `ResetAddress`) |
| Control.Startover | cpu/src/control/mod.rs:380-384 | STARTOVER raises flag 0 and changes nothing else |
| Control.Codabo | cpu/src/control/mod.rs:340-363 | CODABO leaves exactly flag 0 raised, so sequence 0 is chosen next; SPR is set as RESET sets it; the current sequence is not runnable; nothing else changes (corrected, see Findings: uses `ResetAddress`) |
| Control.SetProgramCounter | cpu/src/control/mod.rs:445-501 | a sequence change loads P from SPR for sequence 0 and from Xk otherwise; a counter update or jump keeps P's mark bit and sets its physical part to the successor or the target |
| Control.AuditWord | cpu/src/control/mod.rs:423-431 | the E register records the previous sequence in the top bits, the next sequence in the next nine, and P in the low 18 |
| Control.SwitchSequence | cpu/src/control/mod.rs:399-443 | the change of sequence for a given trap sequence: E records the change; K becomes the trap sequence (whose flag is raised) exactly when the trap fires, and the next sequence otherwise; the outgoing sequence (if not 0) saves P in its index register; P is loaded from SPR for sequence 0 and from the index register otherwise; X0 stays 0; nothing else changes |
| Control.ChangeSequence | cpu/src/control/mod.rs:399-443 | corrected change of sequence: no change for the current sequence; otherwise E records the change, the outgoing sequence (if not 0) saves P in its index register, the new sequence's P is loaded from SPR or its index register, and nothing else changes |
| Control.ChangeSequenceAsWritten | cpu/src/control/mod.rs:399-443 | as written: aborts exactly when leaving sequence 0 for another sequence; otherwise no change for the current sequence, and for a real change E, the flags, K, the saved P, the other index registers and the new P are as for the corrected version but with the trap sequence 0o52; nothing else changes |
| ControlProperties.AsWrittenAgreesWithoutTrap | cpu/src/control/mod.rs:399-443 | without trap on change sequence and not leaving sequence 0, the change of sequence as written and the corrected one give the same unit |
| Control.Schedule | cpu/src/control/mod.rs:503-535 | the flag scan in fetch: nothing changes when the previous instruction held, no flag is raised, or the highest-priority raised sequence is already current; otherwise that sequence becomes current, or the trap sequence exactly when the trap fires (corrected, see Findings: uses `ChangeSequence`) |
| Control.TrapFires | cpu/src/control/mod.rs:413-417 | the trap on a sequence change fires exactly when trapping is on, the next sequence's index register is a marked placeholder, the current sequence is not the trap sequence and the next one is numbered above it; the sequence-change members state their effect through it |
| Control.UpdateNRegister | cpu/src/control/mod.rs:570-578 | N always receives the word; the decoded form is set exactly when the word decodes; otherwise OCSAL names the word and the old decoded form stays |
| Control.FetchInstruction | cpu/src/control/mod.rs:503-568 | idle gives Ok(false) with nothing changed; otherwise after scheduling P is advanced, an unmapped address raises PSAL with that address, an undecodable word raises OCSAL, and a good word is loaded into N; only P, N and its decoded form differ from the scheduled unit, and PSAL leaves N, its decoded form and memory as they were (corrected, see Findings: scheduling uses `ChangeSequence`) |
| Control.Idle | cpu/src/control/mod.rs:508-520 | the fetch has nothing to do exactly when there is no hold, no flag is raised and the current sequence is not runnable; `FetchInstruction` then returns Ok(false) with nothing changed |
| Control.MetaOp | cpu/src/control/mod.rs:546-548 | a memory access sets the meta bit exactly when the unit's meta-bit mode names that kind of access (instructions, operands or deferred addresses) |
| Control.ExecuteDispatch | cpu/src/control/mod.rs:590-613 | an instruction runs exactly when it was decoded and its opcode has a handler; OCSAL when nothing was decoded; ROUNDTUITAL naming the opcode otherwise |
| Control.DismissUnlessHeld | cpu/src/control/mod.rs:787-794 | unless N holds, exactly the current sequence's flag is lowered and it is marked not runnable; nothing else changes |
| Control.FetchOperandFromAddress | cpu/src/control/mod.rs:620-641 | an operand fetch succeeds exactly when the address is mapped and returns the stored word; otherwise QSAL names the instruction and the address |
| Addressing.SpliceRightHalf | cpu/src/control/mod.rs:747-750 | a deferred cycle keeps N's left half and takes the fetched word's right half |
| Addressing.SpliceKeepsOperand | cpu/src/control/mod.rs:747-756 | after a deferred cycle, N's operand address is the fetched word's operand address |
| Addressing.DeferLoop | cpu/src/control/mod.rs:696-751 | the deferred cycles change only N (its left half is kept, and memory words are never changed); on completion N holds a direct address; an unmapped deferred address raises an alarm |
| Addressing.ResolveOperandAddress | cpu/src/control/mod.rs:687-785 | on completion the operand address is N's direct address offset by the index register chosen by the override or by N's index field, and it is left in Q; Q is unchanged otherwise |
| Addressing.OperandAddressWithOptionalDeferAndIndex | cpu/src/control/mod.rs:680-685 | without an override the index register is the one named by the instruction |
| Addressing.DeferredChainLength | cpu/src/control/mod.rs:696-751 | a chain of n deferred addresses is followed to its direct address given n cycles, and not with fewer |
| Addressing.IndexRegisterFor | cpu/src/control/mod.rs:765-772 | the index register used is the override when one is given, and otherwise the one N's index field names |
| Addressing.DeferCycle | cpu/src/control/mod.rs:696-751 | a deferred cycle through a mapped address whose word decodes once spliced into N carries on from the spliced unit with one less cycle |
| Addressing.ChainAdvance | cpu/src/control/mod.rs:747-751 | after the first cycle of a longer chain, the rest of the chain is still a chain in memory, N defers to its first address, and N still decodes with any right half |
| Addressing.ChainLastCycle | cpu/src/control/mod.rs:696-751 | the cycle through the last address of a chain ends at the chain's direct address |
| Addressing.LongerChain | cpu/src/control/mod.rs:696-751 | on a chain of more than one address, the outcome with n cycles is the outcome for the rest of the chain with n - 1 |
| Addressing.ChainIndexedOnce | cpu/src/control/mod.rs:687-785 | following a deferred chain and then indexing gives the chain's final address offset by the index register exactly once |
| ControlProperties.ResumeRestoresProgramCounter | cpu/src/control/mod.rs:399-443 | a sequence (other than 0) that hands over control and gets it back resumes at the program counter it had |
| ControlProperties.CodaboThenFetchRunsSequenceZero | cpu/src/control/mod.rs:343-363 | CODABO with the toggle start point followed by a fetch runs sequence 0 from the toggle start point |
| ControlProperties.ApplyKeepsIndexZero | cpu/src/control/mod.rs:248-254 | every control operation keeps X0 = 0 |
| ControlProperties.IndexZeroAfterAnyRun | cpu/src/control/mod.rs:248-254 | after any series of control operations X0 is still 0 |
| ControlProperties.HandOffFromSequenceZero | cpu/src/control/mod.rs:436-441 | sequence 0 dismissing itself while a device raises flag s leads to a change from sequence 0, which aborts as written and hands over to s (or the trap sequence) as corrected |
| ControlProperties.TrapSequenceDiffers | cpu/src/control/mod.rs:413-421 | a marked sequence 0o50 is not diverted as written, but is diverted to the trap sequence as corrected |
| ControlProperties.TrapAsWrittenRunsPaperTapeReader | cpu/src/control/mod.rs:413-421 | as written, a marked sequence is diverted to 0o52 (the paper tape reader); as corrected, to 0o42 |
| LincolnCharset.SubscriptChar | base/src/charset.rs:26-42 | a subscript form exists exactly for digits, '-' and '.'; digit d becomes U+2080+d; '.' stays itself |
| LincolnCharset.SuperscriptChar | base/src/charset.rs:59-98 | a superscript form exists exactly for digits and 'A'..'X', and it differs from the character |
| LincolnCharset.Display | base/src/charset.rs:291-304 | normal script shows the base character; subscript and superscript show something exactly when that form exists |
| LincolnCharset.DescribeLincolnChar | base/src/charset.rs:182-305 | codes above 0o77 are out of range; six codes have no mapping; shift codes change exactly the case, script or colour and show nothing; character codes keep the state and show the base character in the current script |
| LincolnCharset.Meaning | base/src/charset.rs:192-289 | the code table; its partition of the codes is stated by `MeaningClasses` |
| LincolnCharset.MeaningClasses | base/src/charset.rs:192-289 | codes below 0o60 other than 0o14-0o17 are case-dependent characters; 0o60-0o62, 0o70, 0o72, 0o73 and 0o77 are fixed characters; black, superscript, normal, subscript and red are 0o63-0o67, lower and upper case are 0o74 and 0o75; 0o14-0o17, 0o71 and 0o76 have no mapping; nothing above 0o77 is a code |
| LincolnCharset.DecodeFrom | base/src/charset.rs:310-348 | decoding yields no more characters than codes, and any error names a code of the input (which error, and where, is `DecodeFailsAtFirstFailure` and `DecodeSucceedsIff`) |
| LincolnCharset.LincolnToUnicodeStrict | base/src/charset.rs:310-348 | decoding from the default state: at most one character per code, and errors name an input code (the first-failure rule is `StrictFailsAtFirstFailure`) |
| LincolnCharset.Failure | base/src/charset.rs:315-345 | the error a code raises in a state names that code; there is none exactly for shift codes and for character codes with a form in the current script; in normal script only out-of-range and unmapped codes fail |
| LincolnCharset.CharacterFailure | base/src/charset.rs:323-339 | a character code fails exactly when it has no form in the current script, never in normal script; in subscript with CannotSubscript and in superscript with CannotSuperscript, carrying the code and its base character |
| LincolnCharset.DecodeErrorStep | base/src/charset.rs:315-345 | a first code that fails ends decoding with its own error |
| LincolnCharset.DecodeGoodStep | base/src/charset.rs:315-345 | after a first code that does not fail, decoding succeeds exactly when the rest does in the shifted state, and otherwise reports the rest's error |
| LincolnCharset.FailsAtTail | base/src/charset.rs:314-346 | the failing positions after the first code are those of the rest decoded from the shifted state |
| LincolnCharset.DecodeFailsAtFirstFailure | base/src/charset.rs:314-346 | decoding stops at the first code that fails, in the state the codes before it leave, with that code's error |
| LincolnCharset.DecodeSucceedsIff | base/src/charset.rs:314-347 | decoding succeeds exactly when no code fails in the state the codes before it leave |
| LincolnCharset.StrictFailsAtFirstFailure | base/src/charset.rs:310-348 | `lincoln_to_unicode_strict` succeeds exactly when no code fails from the default state on, and otherwise returns the first failing code's error |
| LincolnCharset.CharactersOnly | base/src/charset.rs:314-322 | a run of character codes that all show something in one state decodes to those characters in order |
| LincolnCharset.ShiftCodesOnly | base/src/charset.rs:310-348 | input made only of shift codes decodes to the empty string |
| LincolnCharset.DecodeCharacterStep | base/src/charset.rs:315-345 | a character code that shows a character in the current state puts that character in front of the rest |
| LincolnCharset.DecodeShiftStep | base/src/charset.rs:315-345 | a shift code adds nothing and decodes the rest under the shifted state |
| LincolnCharset.DecodeShiftFirst | base/src/charset.rs:315-345 | a shift code written in front of a decodable rest adds nothing to its text |
| LincolnCharset.DecodeCharacterFirst | base/src/charset.rs:315-322 | a character code written in front of a decodable rest puts its displayed character in front of the rest's text |
| LincolnCharset.DecodeHello | base/src/charset.rs:350-388 | the codes for HELLO decode to "HELLO" |
| LincolnCharset.DecodeSuperscriptLetters | base/src/charset.rs:358-364 | in superscript, the HELLO codes show the superscript capitals |
| LincolnCharset.SuperscriptShiftFirst | base/src/charset.rs:358-364 | a leading superscript shift makes the rest decode in superscript |
| LincolnCharset.DecodeSuperscriptHello | base/src/charset.rs:358-364 | a superscript shift followed by the HELLO codes decodes to "ᴴᴱᴸᴸᴼ" |
| LincolnCharset.DecodeSubscriptTail | base/src/charset.rs:350-388 | in subscript, code 2 shows '₂' and a shift back to normal script lets 'O' follow |
| LincolnCharset.DecodeWater | base/src/charset.rs:350-388 | the codes for H₂O decode to "H₂O" |
| LincolnCharset.DecodeParenthesesAfterShift | base/src/charset.rs:350-388 | after a shift to upper case, the bracket codes show "()" |
| LincolnCharset.DecodeBracesThenParentheses | base/src/charset.rs:350-388 | the same codes show "{}" in lower case and "()" in upper case |
| LincolnCharset.DecodeBrackets | base/src/charset.rs:350-388 | the bracket example of the source decodes to "{}()" |
| LincolnCharset.MissingSuperscript | base/src/charset.rs:554-568 | 'Y' in superscript fails with CannotSuperscript for code 0o50 |
| LincolnCharset.ReadInHasNoMapping | base/src/charset.rs:570-576 | the READ IN code 0o14 has no mapping |
| LincolnEncoding.Pass | base/src/charset.rs:420-443 | each of the 384 entries belongs to exactly one pass of 64 codes |
| LincolnEncoding.EntryState | base/src/charset.rs:420-443 | every state the mapping records is black |
| LincolnEncoding.EntryValue | base/src/charset.rs:420-443 | every code the mapping records is a 6-bit code |
| LincolnEncoding.Visit | base/src/charset.rs:420-443 | an entry contributes exactly when its code shows a character in its state, and it contributes that character, state and code |
| LincolnEncoding.BuildMapping | base/src/charset.rs:420-443 | every entry of the mapping decodes back to its own character, and every character shown by a visited entry is mapped |
| LincolnEncoding.MappingDomain | base/src/charset.rs:420-443 | every mapped character is shown by some visited entry |
| LincolnEncoding.VisitShows | base/src/charset.rs:420-443 | an entry that shows a character contributes it with its state and code |
| LincolnEncoding.LastVisitWins | base/src/charset.rs:420-443 | when several entries show the same character, the last one visited is kept |
| LincolnEncoding.NewMapping | base/src/charset.rs:420-443 | the full mapping is sound and covers every character any code shows in any script and case |
| LincolnEncoding.CaseCodeShifts | base/src/charset.rs:445-479 | the case code chosen by the encoder is a shift code that sets exactly that case |
| LincolnEncoding.ScriptCodeShifts | base/src/charset.rs:445-479 | the script code chosen by the encoder is a shift code that sets exactly that script |
| LincolnEncoding.CasePrefix | base/src/charset.rs:456-462 | a case code is emitted exactly when the character's case differs from the case last emitted (or none was), and it is the code of the character's case |
| LincolnEncoding.ScriptPrefix | base/src/charset.rs:464-473 | a script code is emitted exactly when the character's script differs from the script last emitted (or none was), and it is the code of the character's script |
| LincolnEncoding.DecodeCasePrefix | base/src/charset.rs:456-462 | the emitted case prefix, when decoded, puts the decoder in the wanted case |
| LincolnEncoding.DecodeScriptPrefix | base/src/charset.rs:464-473 | the emitted script prefix, when decoded, puts the decoder in the wanted script |
| LincolnEncoding.EncodeFrom | base/src/charset.rs:445-479 | encoding succeeds exactly when every character is mapped; otherwise the error names an unmapped character of the string; one to three codes per character |
| LincolnEncoding.ToLincoln | base/src/charset.rs:445-479 | encoding succeeds exactly when every character is mapped, and a non-empty result starts with a case code and then a script code |
| LincolnEncoding.NoShiftStep | base/src/charset.rs:451-476 | a first character in the case and script last emitted is encoded by its code alone, in front of the rest |
| LincolnEncoding.SameStateNeedsNoShifts | base/src/charset.rs:445-479 | characters all in the case and script last emitted are encoded one code each, with no shift codes |
| LincolnEncoding.OneStateText | base/src/charset.rs:445-479 | a non-empty text in one case and one script is encoded as one case code, one script code, then one code per character, two codes more than the text has characters |
| LincolnEncoding.DecodeEncodedStep | base/src/charset.rs:456-476 | the shifts emitted for a character, its code, and codes for the rest decode to the character followed by the rest |
| LincolnEncoding.RoundTripFrom | base/src/charset.rs:445-479 | from a decoder state that agrees with the encoder's, decoding an encoding gives back the string |
| LincolnEncoding.SoundMappingRoundTrip | base/src/charset.rs:445-479 | with any mapping whose entries decode to their own characters, a text of mapped characters encodes, and decoding the codes gives the text back |
| LincolnEncoding.RoundTrip | base/src/charset.rs:482-552 | every string that encodes decodes back to itself |
| LincolnEncoding.YZMapped | base/src/charset.rs:482-552 | 'Y' and 'Z' have codes |
| LincolnEncoding.EntryShowsY | base/src/charset.rs:420-443 | the visit of code 0o50 in the upper-case normal pass shows 'Y' |
| LincolnEncoding.EntryShowsZ | base/src/charset.rs:420-443 | the visit of code 0o51 in the upper-case normal pass shows 'Z' |
| LincolnEncoding.YZRoundTrips | base/src/charset.rs:482-552 | "YZ" encodes and decodes back to itself |
| LincolnEncoding.SubscriptTwoRoundTrips | base/src/charset.rs:482-552 | "₂" encodes and decodes back to itself |
| AssemblerDriver.Instructions | assembler/src/asmlib/driver.rs:154-161 | a block takes nothing that is not one of its instruction statements, has no more instructions than statements, and a block of only assignments has none |
| AssemblerDriver.InstructionsKeepAll | assembler/src/asmlib/driver.rs:154-161 | every instruction statement of a block is among its instructions |
| AssemblerDriver.InstructionsAppend | assembler/src/asmlib/driver.rs:119-197 | the instructions of two runs of statements are those of the first followed by those of the second |
| AssemblerDriver.Location | assembler/src/asmlib/driver.rs:119-197 | a block's location is unknown exactly for a symbolic origin; a literal origin gives its address, no origin the default address |
| AssemblerDriver.ConvertBlocks | assembler/src/asmlib/driver.rs:119-197 | conversion keeps the number and order of the blocks |
| AssemblerDriver.ConvertSourceFileToDirective | assembler/src/asmlib/driver.rs:119-197 | one directive block per manuscript block, in order, at that block's origin and holding exactly that block's instructions; the entry point is set exactly when the punch command names an address, and is that address |
| AssemblerDriver.OriginAsAddress | assembler/src/asmlib/driver.rs:305-336 | a literal origin is its own address; a symbolic origin is reported with its name and resolved through the final symbol table, falling back to the next free address |
| AssemblerDriver.BlockBase | assembler/src/asmlib/driver.rs:338-368 | a block with no origin starts at the next free address, or at the default address for the first block |
| AssemblerDriver.MaxAddr | assembler/src/asmlib/driver.rs:338-368 | the larger of two addresses |
| AssemblerDriver.MaxEnd | assembler/src/asmlib/driver.rs:338-368 | the highest end address of the first n blocks bounds each of their end addresses |
| AssemblerDriver.MaxEndPrefix | assembler/src/asmlib/driver.rs:338-368 | the highest end of the first n blocks depends only on their origins |
| AssemblerDriver.MaxEndMonotone | assembler/src/asmlib/driver.rs:338-368 | the highest end address never decreases as more blocks are placed |
| AssemblerDriver.CalculateBlockOrigins | assembler/src/asmlib/driver.rs:338-368 | on success every block fits in memory and starts where its origin, or the end of the furthest block so far, puts it; on failure the error names the first block that does not fit: every block before it fits and was placed as on success, and the reported origin is the one computed for it from the furthest end of those blocks |
| AssemblerDriver.PlaceNext | assembler/src/asmlib/driver.rs:338-368 | placing the next block at its calculated origin keeps every block in memory and placed by the rule, and moves the next free address to the larger of the old one and the new block's end |
| AssemblerDriver.FirstOccurrences | assembler/src/asmlib/driver.rs:370-383 | the de-duplicated symbols have the same names as the input, each once |
| AssemblerDriver.FirstOccurrencesAreFirst | assembler/src/asmlib/driver.rs:370-383 | every de-duplicated entry, span included, is an entry of the input |
| AssemblerDriver.FirstIndices | assembler/src/asmlib/driver.rs:370-383 | the positions of the first occurrences of the names: strictly increasing, each the first position of its name, and every first position is among them |
| AssemblerDriver.FirstOccurrencesInOrder | assembler/src/asmlib/driver.rs:370-383 | the de-duplicated list is the input taken at the first-occurrence positions, in increasing order |
| AssemblerDriver.UniqueSymbolsInOrder | assembler/src/asmlib/driver.rs:370-383 | the result keeps the first occurrence of each name in input order: same names, no repeats, and its c-th entry is the input entry at the c-th first-occurrence position |
| AssemblerDriver.NewlineCount | assembler/src/asmlib/driver.rs:538-556 | a text has no more newlines than characters |
| AssemblerDriver.ColumnAfter | assembler/src/asmlib/driver.rs:538-556 | the column is 1 exactly at the start of the text or just after a newline |
| AssemblerDriver.ColumnOnFirstLine | assembler/src/asmlib/driver.rs:538-556 | on the first line the column is one more than the offset |
| AssemblerDriver.PosLineColumn | assembler/src/asmlib/driver.rs:538-556 | a position inside the text gets line 1 + the newlines before it and the column after them; a position past the end is an error |
| AssemblerDriver.CountWords | assembler/src/asmlib/driver.rs:273-303 | a binary with no chunks has no words |
| AssemblerDriver.ChunkWordsAppend | assembler/src/asmlib/driver.rs:273-303 | the word count of two lists of chunks is the sum of their counts |
| AssemblerDriver.NonEmptyFrom | assembler/src/asmlib/driver.rs:489-536 | only blocks with instructions produce chunks |
| AssemblerDriver.NonEmptyFromOrdered | assembler/src/asmlib/driver.rs:489-536 | the blocks that produce chunks are taken in increasing block order, and every block with instructions is among them |
| AssemblerDriver.ChunksFrom | assembler/src/asmlib/driver.rs:489-536 | chunk layout fails exactly when some block, with or without instructions, has no origin, naming the first such block; otherwise every block with instructions becomes one chunk at its origin holding its words |
| AssemblerDriver.ChunkStep | assembler/src/asmlib/driver.rs:489-536 | a block put in front of a layout of the blocks after it gives a layout from that block on: one more chunk at its origin holding its words if it has instructions, and no chunk otherwise |
| AssemblerDriver.AssemblePass3 | assembler/src/asmlib/driver.rs:489-536 | pass 3 fails exactly when some block, with or without instructions, has no origin; otherwise it keeps the entry point, emits no empty chunk, its word count equals the instruction count, and it lays out one chunk per block with instructions, in block order, at that block's origin and holding that block's words |
| AssemblerDriver.ItemsFromConverted | assembler/src/asmlib/driver.rs:119-197 | conversion keeps the number of instructions of every suffix of the blocks |
| AssemblerDriver.AssembledWordsAreInstructions | assembler/src/asmlib/driver.rs:489-536 | the binary holds exactly one word per instruction of the manuscript |
| Clock.DurationCheckedAdd | cpu/src/clock.rs:146-172 | adding durations fails exactly when the sum exceeds `Duration::MAX`, and is otherwise exact |
| Clock.DurationCheckedSub | cpu/src/clock.rs:118-144 | subtracting durations fails exactly when the result would be negative, and is otherwise exact |
| Clock.OneSubtractionSucceeds | cpu/src/clock.rs:118-144 | of two durations one can always be taken from the other, so the "inconsistent" panics cannot happen |
| Clock.FromDuration | cpu/src/clock.rs:108-115 | a duration becomes a non-negative signed duration of the same value |
| Clock.Value | cpu/src/clock.rs:95-106 | a signed duration stands for a value between -`Duration::MAX` and `Duration::MAX` |
| Clock.ValueDetermines | cpu/src/clock.rs:95-106 | without negative zero, a signed duration is determined by its value |
| Clock.CheckedSub | cpu/src/clock.rs:118-144 | signed subtraction is exact, fails exactly when the result is below -`Duration::MAX`, and creates no negative zero |
| Clock.CheckedAdd | cpu/src/clock.rs:146-172 | signed addition is exact, fails exactly when the result is above `Duration::MAX`, and never yields negative zero |
| Clock.AddThenSub | cpu/src/clock.rs:118-172 | adding and then subtracting the same duration gives back the original signed duration |
| Clock.NewBasicClock | cpu/src/clock.rs:70-77 | a new clock reads zero |
| Clock.Now | cpu/src/clock.rs:86-88 | the clock reading; `NewBasicClock` states that it starts at zero and `Consume` that it moves on by exactly each interval consumed |
| Clock.Consume | cpu/src/clock.rs:90-93 | consuming an interval moves simulated time on by exactly that interval |
| Clock.ConsumeAll | cpu/src/clock.rs:90-93 | consuming a series of intervals moves time on by their total |
| Clock.ClockMonotone | cpu/src/clock.rs:90-93 | simulated time never goes backwards as intervals are consumed |
| Clock.NewMinimalSleeper | cpu/src/clock.rs:198-205 | a new sleeper owes no sleep and has slept for no time |
| Clock.Sleep | cpu/src/clock.rs:243-263 | the debt grows by exactly the duration; the sleeper really sleeps exactly when the debt now exceeds the minimum sleep; nothing else changes |
| Clock.NoSleepWhileInCredit | cpu/src/clock.rs:243-263 | while the debt stays at or below zero the sleeper never sleeps |

## Left out

- LincolnCharset.DecodeFrom: its own contract gives only the length bound and that an error names an input code; which code fails and with which error is stated by `DecodeErrorStep`, `DecodeGoodStep`, `DecodeFailsAtFirstFailure` and `DecodeSucceedsIff`, and the text of a success by `CharactersOnly`, `DecodeCharacterStep` and `DecodeShiftStep`.
- LincolnCharset.LincolnToUnicodeStrict: likewise bounds only in its own contract; the first-failure rule from the default state is `StrictFailsAtFirstFailure`, and the round trip with the encoder is `LincolnEncoding.RoundTrip`.
- Instruction decoding (`Instruction::try_from`, the `SymbolicInstruction` form) is a parameter `decode`. The model only needs to know which words decode and to what opcode.
- Addressing.DeferLoop: the deferred-address loop takes a fuel argument. `FuelExhausted` stands for chains longer than the fuel, which the source would follow for ever (a cycle of deferred words); `DeferredChainLength` shows that enough fuel always reaches the end of a finite chain.
- The bit positions of the instruction fields (hold bit, defer bit, opcode, index) follow the TX-2 word layout; the bit-level extraction code of the `base` crate is not part of this model.
- Index registers are read in one's complement (`Signed18Bit`). The arithmetic of the `base` crate's signed types is not part of this model beyond `SignedValue` and `IndexBy`.
- The toggle start point is a field of the unit, not the hard-wired `STANDARD_PROGRAM_CLEAR_MEMORY` constant, so that the properties hold for any value.
- Control.Reset, Control.Codabo, Control.Schedule, Control.FetchInstruction and the properties built on them use the corrected `ResetAddress` and `ChangeSequence` (see "## Findings"), so they do not promise the program's aborts on the fixed reset buttons or on leaving sequence 0, nor its trap sequence 0o52; those are stated only by the `...AsWritten` members.
- `get_config` (the configuration field of N looked up in the F memory) is used only by `memory_store_with_exchange`, which is not modelled, so it is left out with it.
- The handlers of individual opcodes (`op_skx`, `op_jmp` and the rest) and the stores `memory_store_with_exchange` and `memory_store_without_exchange` are not modelled; `ExecuteDispatch` covers only the choice of handler and the alarms.
- Memory is a map of cells. The memory unit's internals (mapping of V memory, the plugboard, read-only areas) are not part of this model, beyond an unmapped address failing.
- The `println!` tracing, `Debug` output and the wording of alarm messages are left out.
- ControlRegisters.GetFMem: requires n < 0o37, as the source asserts (`get_f_mem` panics for 0o37).
- Clock: `really_sleep`, the wall-clock `Instant`, the `Drop` handler and `std::thread::sleep` are I/O and are left out. `Sleep` stops where `really_sleep` would be called and reports whether it would be.
- Clock.Consume: requires that the total fits a `Duration`; the source panics otherwise.
- Clock.Sleep: requires that the debt does not overflow; the source panics otherwise.
- The floating-point time scaling in the simulator's time keeping is left out.
- Assembler passes 1 and 2 (parsing, symbol table construction), `assemble_source`, `assemble_file` and `fail_with_diagnostics` are left out: they are the parser and file I/O.
- The symbol table is an oracle: `lookupFinal` (`lookup_final`) and `offsetFromOrigin` are parameters, and symbol lookup is taken to be a pure function even though the source's table caches results.
- AssemblerDriver.CountWords: states only the empty case itself; the additive count is `ChunkWordsAppend`, and the count of an assembled binary is `AssembledWordsAreInstructions`.
- Assembler error values keep only the block number and addresses, not spans or message text.
- LincolnEncoding.NewMapping: states soundness and coverage of the mapping, not which of several codes is chosen for a character shown by more than one; `LastVisitWins` says the last visited one is kept.
- Colour is tracked by the decoder but ignored by the displayed character, as in the source; the encoder never emits colour shifts.

## Findings

| source | as written | input that shows it | evidently intended | confidence | as-written member | corrected member |
|---|---|---|---|---|---|---|
| cpu/src/control/mod.rs:270-292 | the fixed `ResetMode` discriminants are 0o3777710 + i, and `address()` unwraps their conversion to an 18-bit value | any fixed reset button, e.g. `Reset0`: 0o3777710 ≥ 2^18, so the unwrap panics | the fixed start points 0o377710..0o377717 | not executed | ControlRegisters.ResetAddressAsWritten | ControlRegisters.ResetAddress |
| cpu/src/control/mod.rs:438-441 | on leaving a sequence, P is saved with `set_index_register(prev)`, which asserts that the register is not X0 | sequence 0 (after CODABO) dismisses itself while another flag is raised: `change_sequence(Some(0), s)` fails the assertion | sequence 0's P is not saved (it restarts from SPR) | not executed | Control.ChangeSequenceAsWritten | Control.ChangeSequence |
| cpu/src/control/mod.rs:413-421 | the trap sequence is `Unsigned6Bit::try_from(42)`, decimal 42 = 0o52 | a marked sequence 0o50 with trap on change sequence is not diverted, and marked sequences above 0o52 go to the paper tape reader's sequence 0o52 | sequence 0o42, the trap sequence in the octal sequence list at mod.rs:45-68 | not executed | Control.ChangeSequenceAsWritten | Control.ChangeSequence |
