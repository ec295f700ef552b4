# Cheeky: dispatcher generator and CPU core

The repository is an ARM64 emulator. This project models its two linked halves and proves what they promise.

**The dispatcher and its generator.** `generate_tree.py` reads rows of `0`, `1` and `.` from `patterns.txt`,
groups them recursively by the AND of their masks and writes nested C++ switches; `ops/src/base_op.cpp` is its
checked-in output.

- `Patterns`, `DecisionTree` - the grouping recursion over arbitrary pattern lists, exactly as written: nothing
  checks for progress, so only the interpreter's recursion limit (a parameter) stops it; its exact termination
  condition.
- `Routing` - which word reaches which pattern; meaning preservation, exactness, order independence.
- `TreeShape` - depth, strictly growing masks, conservation of the rows.
- `CodeGen` - the emitted lines, a parser for them, C++ `switch` semantics with fall-through, and the proof that
  running the emitted code is looking up the tree.
- `PatternText` - the row syntax and what a row means, bit by bit. `Builder` - the script as loops, a dictionary
  and a recursive writer, proved against the functions above.
- `RowText` - writing a pattern as a row, the inverse of reading one.
- `RowList`, `Dispatcher` - the rows of `patterns.txt` as constants, the shipped tree, the shipped switches, and
  the proof that the generator produces this tree from these rows.
- `BaseOp` - the text of `handle_instruction`, fragment by fragment, and the proof that the generator writes it.
- `PatternsFile` - the characters of `patterns.txt`, and the whole way from them to the checked-in switches.

**The CPU core.**

- `Ints`, `Shifts`, `Bitwise`, `Memory`, `Fields`, `Arith` - machine integers as naturals, the shift rules and what
  they do to single bits, the byte stack, field extraction, flags and conditions.
- `Isa` - the state as a value and the effect of every handler, of one turn of the session loop and of a run.
- `CoreState`, `Handlers`, `Session` - the mutable `State` class (registers and stack are arrays), every handler
  and the run loop statement by statement, each proved to have the effect given in `Isa`.
- `Assembler` - instruction words by the layouts of the headers, through dispatcher and field extraction.
- `Arm` - the same instructions as the Arm Architecture Reference Manual for A-profile has them (shared pseudocode
  functions `AddWithCarry`, `ConditionHolds`, `SignExtend`; A64 base instructions).
- `Conformance`, `Addressing`, `Pairs` - for every handler, exactly when the state it leaves is the architecture's:
  data processing and branches; addresses, single loads and stores; pairs, push and pop.
- `Turns` - the conditions put together: one turn of the session against one turn of the architecture for every
  listed instruction, whole runs in step, and programs that are always in step.
- `Witnesses` - for the departures, one instruction word and one state each.
- `LoadStore` - which dispatched loads and stores succeed, and what a load reads back.
- `Instructions` - every assembled instruction in plain numbers: registers, bytes of the stack, and how it ends.
- `Loop` - the session loop decided by the checked-in text. `Samples` - the words and states of the repository's tests.
- `CompareSet`, `Calls`, `CallChain` - properties of whole runs: compare-and-set, nested calls, and assembled
  programs for both.

## How the code is followed

The model does what the code does, including where that departs from the architecture or from the code's own
comments; each departure has an exact condition:

| departure | what it concerns is right exactly when | member |
|---|---|---|
| SUBS subtracts the unshifted immediate (`ops/src/subs.cpp:63`) | the immediate is not shifted or is zero | `Conformance.SubsConformance` |
| 64-bit ADDS sets V for every negative operand (`ops/src/adds.cpp:54`) | not (64-bit and negative) | `Conformance.AddsConformance` |
| index 31 as a destination is the stack pointer, never the zero register (CMP, CMN, CSINC, ORR, MOVZ, ADRP; `ops/src/subs.cpp:63`, `ops/src/adds.cpp:68`, `ops/src/csinc.cpp:79-98`) | the value equals what the stack pointer holds at that width | `Conformance.SubsConformance`, `AddsConformance`, `CsincConformance`, `OrrConformance`, `MovzConformance`, `AdrpConformance` |
| index 31 as ORR's second operand is read as the stack pointer (`ops/src/orr.cpp:18,31`) | the shifted stack pointer adds no bit to the first operand | `Conformance.OrrConformance` |
| a load into index 31 overwrites the stack pointer (`ops/src/ldr.cpp:41,57`, `ops/src/ldp.cpp:42-43`) | the loaded value equals what it holds | `Addressing.LdrConformance`, `Pairs.LdpConformance` |
| 32-bit writes keep the upper half (`core/src/state.cpp:61-64`) | the upper half is zero | `Conformance.WriteConformance` and the lemmas above |
| LS and LE use a conjunction, against the comments at `ops/src/csinc.cpp:14,18`; NV never holds | LS: C differs from Z; LE: Z equals N != V; NV: never; or both sources give the same value | `Arith.CondTrueIffArm`, `Conformance.CsincConformance`, `Conformance.CsetConformance` |
| MOVZ shifts a 32-bit value (`ops/src/movz.cpp:18,24`) | the shift is 0 or 16; the other C++ shifts have no defined meaning | `Conformance.MovzConformance` |
| ADRP adds a truth value (`ops/src/adrp.cpp:9`) | the page offset is 0 or 1 | `Conformance.AdrpConformance` |
| RET clears its register and halts on zero (`ops/src/ret.cpp:7,12`) | never; the target is right unless the register is index 31 | `Conformance.RetConformance` |
| TBNZ does not sign-extend imm14 (`ops/src/tbnz.cpp:11`) and reads index 31 as the stack pointer | not taken, or the field below 0x2000; for index 31 not taken, or one | `Conformance.TbnzMoves` |
| LDUR is routed to the STUR handler (`patterns.txt:38`, `ops/src/base_op.cpp:104`); the test at `tests/src/ops_tests.cpp:173-183` expects a load | the address is within reach or rejected and, if the access succeeds, the cell already holds the register, whose upper half is clear (index 31 aside) | `Addressing.LdurConformance`, `LoadStore.LdurExample` |
| 32-bit loads and stores cut the base to its lower half (`ops/src/stp.cpp:40,45`, `ops/src/str.cpp:36,41`, `ops/src/stur.cpp:13,16`) | the 64-bit address is within reach of 32 signed bits, or the accessor rejects the cut one | `Addressing.AddressConformance`, `StrConformance`, `LdrConformance` |
| STP/LDP read imm7 unsigned, post-index adds it to the address (`ops/src/stp.cpp:44-46,62-64`) | for the address: the field is below 64, for post-index zero; for the outcome: so, or both accesses fail alike, or memory and registers already hold what would show the difference | `Pairs.PairAddressConformance`, `Pairs.StpConformance`, `Pairs.LdpConformance` |
| their writeback adds the unsigned offset, at the width of the data (`ops/src/stp.cpp:21-34`, `ops/src/ldp.cpp:22-35`) | the field is below 64 and nothing carries out of a 32-bit base | `Pairs.StpWriteback`, `Pairs.LdpWriteback`, `Pairs.PushPop` |
| post-index STR/LDR: the two-bit code is shifted by 11 and refused (`ops/src/str.cpp:19`, `ops/src/ldr.cpp:18`) | the architecture's access fails as the handler's does | `Addressing.StrIndexedConformance`, `Addressing.LdrIndexedConformance` |
| pre-index STR/LDR: imm9 unsigned (`ops/src/str.cpp:44,61`, `ops/src/ldr.cpp:43,59`), 64-bit STR changes a copy of its base (`ops/src/str.cpp:53`) | both accesses fail alike, or both succeed with a field below 256 (64-bit STR: zero) and no carry out of a 32-bit base; a load of index 31 from base 31 iff the value loaded happens to be the moved base | the same two |
| arithmetic shift by width - 1 of a negative number (`ops/include/ops/base_op.h:78,125`) | not that: the C++ shift is undefined exactly there | `Shifts.ShiftByRule` |
| the builder recurses forever on some disjoint tables | every sub-collection of two or more rows splits | `DecisionTree.TerminatesIffSeparable`, `DecisionTree.DisjointTableMayNotTerminate` |
| leaves do not re-test the whole row | every path tests its whole row | `Routing.TreeExactIffFullMasks`, `Dispatcher.LooseHandlers` |

Where several departures meet in one instruction the member gives the whole condition, and `Turns.Right` collects
them; accidental agreement counts as right.

A handler ends in one of four ways: it returns true (`Continue`), it returns false (`Stop`), a stack accessor
throws (`Throw`), or the C++ has no defined meaning there (`Undefined`: a failed `assert`, a shift by the full
width, an access past the end of the stack array, a fetch past the program). Signed intermediate values of
`shift_by_rule_32` are taken to wrap; stack cells are little-endian.

## Model

| member | source | states |
|---|---|---|
| PatternText.RowSemantics | generate_tree.py:7-9 | a row matches exactly the words that carry its 0s and 1s from bit 31 down, and its pattern fixes no bit outside its mask |
| PatternText.ParsePatterns | generate_tree.py:51-62 | the loop fails iff some non-comment row is not correct; otherwise it yields the parsed rows in file order |
| RowText.SpaceCodes | generate_tree.py:9 | the code points that count as white space, written out |
| RowText.ValidRowIs | generate_tree.py:7-9 | a line of 32 characters, one more and any rest is correct iff the 32 are dots, zeros and ones and the next is white space; 32 characters alone are not |
| RowText.NoRowInLine | generate_tree.py:53-56 | white space followed by nothing, or by `#` and any text, contributes no row |
| RowText.OneRowInLine | generate_tree.py:53-56 | white space followed by anything else contributes exactly that |
| RowText.NameIs | generate_tree.py:62 | the name is what follows the 32 characters without blanks and without white space at the end; a tab in front stays |
| RowText.RemoveBlanksIs | generate_tree.py:62 | blanks go, all other characters stay in order |
| RowText.RowRoundTrip | generate_tree.py:53-62 | every pattern that fixes no bit outside its mask has a row, with any gap and trailing white space, and reading it returns the pattern |
| RowText.RowDetermined | generate_tree.py:60-61 | writing what was read returns the characters: a pattern has one row |
| Patterns.CommonWithinEach | generate_tree.py:19-24 | the common mask lies within every row's mask |
| Patterns.CommonIsGreatest | generate_tree.py:19-24 | it is the largest mask with that property |
| Builder.CommonMask | generate_tree.py:22-24 | the loop computes the common mask |
| Builder.GroupByValue | generate_tree.py:25-30 | the dictionary holds, per value, the rows with that value in order, and its keys in order of first appearance |
| Builder.PatternGroup | generate_tree.py:17-35 | the constructor builds the tree of the recursion, or runs out of stack exactly when the recursion does |
| Builder.GenerateDecisionTree | generate_tree.py:37-48 | the recursive writer appends exactly the text of the tree to the file |
| Builder.Generate | generate_tree.py:51-74 | the script fails exactly on an incorrect row or an unfinished recursion; otherwise the file holds the text of the tree of its rows |
| DecisionTree.TerminatesIffSeparable | generate_tree.py:17-35 | the recursion ends iff every sub-collection of two or more rows takes two values under the AND of its own masks, and then within as many levels as there are rows less one |
| DecisionTree.BuiltSplits | generate_tree.py:25-35 | a finished recursion shows that each sub-collection splits |
| DecisionTree.SeparableBuildsBySize | generate_tree.py:31-35 | a separable list builds with stack for its size |
| DecisionTree.SeparableBucket | generate_tree.py:31-33 | in a separable list each group is separable and strictly smaller |
| DecisionTree.SubTableTerminates | generate_tree.py:31-33 | every sub-collection of a table that builds also builds |
| DecisionTree.BuildMonotone | generate_tree.py:31-33 | more stack never changes the tree |
| DecisionTree.DisjointTableMayNotTerminate | generate_tree.py:31-33 | three pairwise disjoint rows on which the recursion never ends |
| Routing.LookupIsRoute | generate_tree.py:37-48 | looking a word up in the built tree follows the groups of the table |
| Routing.RouteExact | generate_tree.py:37-45 | a word reaches a pattern iff it agrees with it on every bit tested on the way |
| Routing.PathMaskBetween | generate_tree.py:19-35 | the innermost mask contains the outer ones and lies within the row's mask |
| Routing.DispatchedWords | generate_tree.py:37-45 | the set of words a built tree dispatches to a row, exactly |
| Routing.MeaningPreserved | generate_tree.py:37-48 | a matching word reaches its row, `default` means no row matches, and the tree agrees with a row-by-row search on every word that matches |
| Routing.BuiltIsDisjoint | generate_tree.py:31-35 | no word matches two rows of a table that builds |
| Routing.LeafExactIffFullMask | generate_tree.py:41-42 | a leaf accepts only words of its row iff its path tests the whole row |
| Routing.TreeExactIffFullMasks | generate_tree.py:37-48 | the tree answers like the search on all words iff every path tests its whole row |
| Routing.OrderIrrelevant | generate_tree.py:22-35 | permuting the rows changes neither whether the table builds nor any answer |
| TreeShape.BuiltNests | generate_tree.py:31-33 | every nested switch tests strictly more bits than the one around it |
| TreeShape.LookupIsShort | generate_tree.py:37-45 | a lookup evaluates at most 32 switches and, from two rows on, fewer than there are rows |
| BaseOp.ShippedTests | ops/src/base_op.cpp:8-171 | the shipped switches are three deep, and given words evaluate three, two and one of them |
| TreeShape.TerminatesWithin32 | generate_tree.py:31-33 | a table that builds at all builds with 32 levels of recursion |
| TreeShape.LeavesAreRows | generate_tree.py:25-35 | the leaves are the rows of the table, each as often as it occurs |
| CodeGen.ParseEmitted | generate_tree.py:37-48 | the written text reads back as the statement of the tree, whatever follows it |
| CodeGen.FallsThrough | generate_tree.py:38-45 | a block that does not return runs into the next one |
| CodeGen.EmptyCaseFallsThrough | generate_tree.py:38-45 | an empty case before a returning one returns on both labels, and a value without a label leaves the switch |
| CodeGen.LogGoesOn | generate_tree.py:47 | the logger line does not return |
| CodeGen.ExecIsLookup | generate_tree.py:37-48 | under fall-through rules and without `break` the switches always return, and return what the tree answers |
| CodeGen.EmittedCodeIsValid | generate_tree.py:37-48 | the case labels of every emitted switch are distinct and there is one `default` |
| CodeGen.DuplicatesInvalid | generate_tree.py:39-46 | two equal labels in a switch are refused |
| CodeGen.EmittedCodeIsLookup | generate_tree.py:37-48 | the emitted text is one statement and running it is looking up the tree |
| CodeGen.GeneratedCodeImplementsTable | generate_tree.py:17-48 | end to end: the emitted code returns the handler of every row the word matches and returns false only if no row matches |
| RowList.ListBuild | generate_tree.py:17-35 | the recursion on a linked list of rows is the recursion on the sequence |
| Dispatcher.BuildTable | patterns.txt:4-40 | the recursion on the shipped rows, evaluated |
| Dispatcher.ShippedTableBuilds | patterns.txt:4-40 | the generator, run on the shipped rows, ends within three levels and yields the shipped tree |
| Dispatcher.DispatcherIsGenerated | ops/src/base_op.cpp:6-173 | the checked-in switches answer as the generated tree on every word |
| Dispatcher.RowsReachTheirHandlers | ops/src/base_op.cpp:6-173 | every word that matches a shipped row reaches the handler the row names |
| Dispatcher.ExactArithmetic | ops/src/base_op.cpp:11-29 | ADD, ADDS, SUB and SUBS receive exactly the words of their rows |
| Dispatcher.ExactBranches | ops/src/base_op.cpp:45-57 | B and BL receive exactly the words of their rows |
| Dispatcher.ExactPairs | ops/src/base_op.cpp:127-160 | STP and LDP receive exactly the words of their three rows |
| Dispatcher.ExactStur | ops/src/base_op.cpp:84-105 | the STUR handler receives exactly the STUR and LDUR rows; nothing reaches the LDUR handler |
| Dispatcher.LooseHandlers | ops/src/base_op.cpp:31-74 | the other handlers receive every word that agrees with their row on the tested bits |
| Dispatcher.LooseLoadsStores | ops/src/base_op.cpp:76-114 | the words that reach STR and LDR, exactly |
| Dispatcher.LooseWitnesses | ops/src/base_op.cpp:31-125 | for each of these handlers a word it receives that does not match its row |
| PatternsFile.ShippedFileIsTable | patterns.txt:1-40 | a file with the rows of `patterns.txt`, whatever its comments, is correct and read as exactly the shipped table |
| PatternsFile.CommentsVanish | generate_tree.py:53-56 | white space, alone or before `#` and any text, may stand between any lines |
| PatternsFile.FileHolds | patterns.txt:1-40 | the lines of the file, with its comments and blank lines, hold the rows of the table |
| PatternsFile.LinesHold | patterns.txt:4-40 | such files exist: the lines of a table of rows hold these rows |
| BaseOp.RootEmitted | ops/src/base_op.cpp:8-171 | the text the generator writes for the shipped tree is the checked-in text, fragment by fragment |
| BaseOp.TextIsHandlerOf | ops/src/base_op.cpp:8-171 | the checked-in text, read as C++ and run under fall-through rules, returns on every word what `Dispatcher.HandlerOf` returns |
| PatternsFile.GenerateShipped | generate_tree.py:51-74 | the script on such a file succeeds and writes the checked-in text |
| PatternsFile.GenerateFromFile | generate_tree.py:51-74 | the script on patterns.txt, line by line, writes the checked-in text |
| PatternsFile.TextReachesHandler | patterns.txt:4-40 | a word that carries the 0s and 1s of a row of the file reaches the handler the row names |
| Shifts.ShiftByRule | ops/include/ops/base_op.h:57-148 | both routines yield the reduced product, the quotient, the floor of the signed quotient or the bitwise rotation, except where the C++ shift is by the full width |
| Shifts.ArithmeticShift | ops/include/ops/base_op.h:117-132 | clearing the sign, shifting and setting the vacated bits is the floor of the signed quotient |
| Shifts.RotateByMasks | ops/include/ops/base_op.h:133-144 | moving the low bits to the top is the rotation bit by bit |
| Shifts.RotateIsSplit | ops/include/ops/base_op.h:86-97 | a rotation swaps the low and the high part of the word |
| Shifts.RotateRoundTrip | ops/include/ops/base_op.h:86-97 | rotations add up modulo the width, and rotating by the rest undoes a rotation |
| Bitwise.ShiftBitwise | ops/include/ops/base_op.h:57-148 | for every rule, width, operand and amount, which operand bit each result bit is |
| Memory.LoadAfterWrites | core/src/state.cpp:73-85 | after any stores of any sizes a load returns, byte by byte, the most recent covering write |
| Memory.LoadStored | core/src/state.cpp:73-85 | a cell reads back what was stored in it |
| Memory.LoadUnaffected | core/src/state.cpp:73-85 | disjoint cells do not interfere |
| Memory.StoreSame | core/src/state.cpp:77-84 | a store leaves memory as it was iff the cell already held the value |
| Memory.LoadHalves | core/src/state.cpp:73-85 | a stored double word reads back as its low and its high word |
| Memory.FromBytesRoundTrip | core/src/state.cpp:77-84 | bytes are determined by the value they encode |
| CoreState.State.constructor | core/include/core/state.h:12-20 | PC and flags start at zero, registers and stack at anything |
| CoreState.State.SetN | core/src/state.cpp:11-13 | the N flag and nothing else changes |
| CoreState.State.SetZ | core/src/state.cpp:19-21 | the Z flag and nothing else changes |
| CoreState.State.SetC | core/src/state.cpp:27-29 | the C flag and nothing else changes |
| CoreState.State.SetV | core/src/state.cpp:35-37 | the V flag and nothing else changes |
| CoreState.State.AdvancePc | core/src/state.cpp:45-48 | the PC moves by one word, modulo 2^64 |
| CoreState.State.UpdatePc | core/src/state.cpp:54-57 | the PC and nothing else changes |
| CoreState.State.GetR | core/src/state.cpp:61-69 | the 32-bit view is the low half of the register |
| CoreState.State.SetR | core/src/state.cpp:61-69 | a 32-bit write keeps the upper half; no other register changes |
| CoreState.State.Locate | core/src/state.cpp:73-85 | in numbers: a start outside the stack throws, a start inside with an end outside is past the array |
| CoreState.State.WriteVm | core/src/state.cpp:77-84 | the written bytes are the value, lowest first; all others stay |
| CoreState.State.ReadVm | core/src/state.cpp:77-84 | the value read is the one the bytes encode |
| Handlers.AddImm | ops/src/add.cpp:4-37 | the whole new state of ADD |
| Handlers.SubImm | ops/src/sub.cpp:4-37 | the whole new state of SUB |
| Handlers.UpdateNzcvAdd | ops/src/adds.cpp:14-60 | the masked comparisons set the flags of `AddWithCarry`, except V of the 64-bit form |
| Handlers.AddsImm | ops/src/adds.cpp:6-88 | the whole new state of ADDS |
| Handlers.UpdateNzcvSub | ops/src/subs.cpp:13-56 | the masked comparisons set the flags of `AddWithCarry` with the complement and carry one |
| Handlers.SubsImm | ops/src/subs.cpp:4-84 | the whole new state of SUBS |
| Handlers.OrrSh | ops/src/orr.cpp:4-42 | the whole new state of ORR, or the undefined shift |
| Handlers.Csinc | ops/src/csinc.cpp:64-103 | the whole new state of CSINC and its alias |
| Handlers.Movz | ops/src/movz.cpp:4-28 | the whole new state of MOVZ, or the undefined shift |
| Handlers.Adrp | ops/src/adrp.cpp:4-16 | the whole new state of ADRP, whose offset is a truth value |
| Handlers.TopFieldExtends | ops/src/b.cpp:6-8 | shifting a field to the top and back arithmetically is sign extension |
| Handlers.BranchDisplacement | ops/src/b.cpp:6-8 | the displacement is the sign-extended field |
| Handlers.B | ops/src/b.cpp:4-14 | the whole new state of B |
| Handlers.Bl | ops/src/bl.cpp:4-17 | the whole new state of BL |
| Handlers.Tbnz | ops/src/tbnz.cpp:7-31 | the whole new state of TBNZ |
| Handlers.Ret | ops/src/ret.cpp:4-15 | the whole new state of RET, or the halt on a zero register |
| Handlers.Stp | ops/src/stp.cpp:14-81 | the whole new state of STP in its three forms, and its failures |
| Handlers.Ldp | ops/src/ldp.cpp:15-84 | the whole new state of LDP in its three forms, and its failures |
| Handlers.StrImm | ops/src/str.cpp:13-75 | the whole new state of STR in its three forms, and its failures |
| Handlers.LdrImm | ops/src/ldr.cpp:12-72 | the whole new state of LDR in its three forms, and its failures |
| Handlers.UnscaledDisplacement | ops/src/stur.cpp:8 | the displacement is the sign-extended nine-bit field |
| Handlers.Stur | ops/src/stur.cpp:4-29 | the whole new state of STUR, and its failures |
| Handlers.Ldur | ops/src/ldur.cpp:4-28 | the whole new state of LDUR, and its failures |
| Session.HandleInstruction | ops/src/base_op.cpp:6-173 | dispatch and handler together |
| Session.RunLoop | session/include/session/session.h:48-49 | the loop runs turn after turn until one does not continue |
| Session.Start | session/include/session/session.h:41-50 | the initial stack pointer, PC and flags, then the loop |
| Session.RunSplits | session/include/session/session.h:48-49 | a run is its first part followed by the rest |
| Loop.TextDecides | ops/src/base_op.cpp:8-171 | a word for which the checked-in text returns false ends in false and changes nothing; otherwise the effect is that of the handler the text names |
| Loop.UnsupportedStops | ops/src/base_op.cpp:161-163 | a turn on a word for which the text returns false ends the session |
| Loop.RunEnds | session/include/session/session.h:48-49 | the first turn that does not continue ends the run, with the state as that turn leaves it |
| Loop.TurnAdvances | session/include/session/session.h:48-49 | a turn whose handler returns true goes on at the next word |
| Loop.AddRegisterStops | ops/src/base_op.cpp:161-164 | ADD X0, X0, X1 has no row and stops |
| Assembler.AddSubRoundTrip | ops/include/ops/adds.h:4-5 | assembled ADD, ADDS, SUB, SUBS words reach their handler, which extracts the assembled fields |
| Assembler.BranchRoundTrip | ops/include/ops/bl.h:4-5 | the same for B and BL |
| Assembler.RetRoundTrip | ops/include/ops/ret.h:4-5 | the same for RET |
| Assembler.TbnzRoundTrip | ops/include/ops/tbnz.h:4-5 | the same for TBNZ |
| Assembler.CsincRoundTrip | ops/include/ops/csinc.h:4-5 | the same for CSINC |
| Assembler.MovzRoundTrip | ops/include/ops/movz.h:4-5 | the same for MOVZ |
| Assembler.AdrpRoundTrip | ops/include/ops/adrp.h:4-5 | the same for ADRP |
| Assembler.OrrRoundTrip | ops/include/ops/orr.h:4-5 | the same for ORR |
| Assembler.PairHandlerRoundTrip | ops/include/ops/stp.h:4-31 | assembled pairs reach STP or LDP, which see the assembled width and form |
| Assembler.PairRoundTrip | ops/include/ops/ldp.h:4-31 | and extract the assembled registers and offset |
| Assembler.UnsignedRoundTrip | ops/include/ops/str.h:28-31 | the same for STR and LDR with unsigned offset |
| Assembler.IndexedHandlerRoundTrip | ops/include/ops/str.h:4-19 | indexed STR and LDR words reach their handler and fields |
| Assembler.IndexedFormRoundTrip | ops/include/ops/ldr.h:4-19 | and are told apart from the other forms |
| Assembler.UnscaledRoundTrip | ops/include/ops/ldur.h:6-7 | both STUR and LDUR words reach the STUR handler |
| Instructions.AddSubDoes | ops/src/add.cpp:11-37 | ADD and SUB, every field and state, in numbers |
| Instructions.AddsSubsDoes | ops/src/subs.cpp:13-84 | ADDS and SUBS with their flags |
| Instructions.MovzDoes | ops/src/movz.cpp:9-25 | MOVZ, and the shifts without a meaning |
| Instructions.AdrpDoes | ops/src/adrp.cpp:6-13 | ADRP |
| Instructions.CsincDoes | ops/src/csinc.cpp:64-103 | CSINC and its alias, given the truth of the condition |
| Instructions.OrrDoes | ops/include/ops/base_op.h:17-19 | ORR bit by bit for each of the four shift codes, and where it has no meaning |
| Instructions.TbnzDoes | ops/src/tbnz.cpp:7-31 | a turn on TBNZ |
| Instructions.RetDoes | ops/src/ret.cpp:4-15 | a turn on RET |
| Instructions.UnsignedDoes | ops/src/str.cpp:35-42 | STR and LDR with unsigned offset: the cell, or the failure, by its offset in numbers |
| Instructions.UnscaledDoes | ops/src/stur.cpp:8-22 | STUR, every LDUR, and the handler of LDUR |
| Instructions.PostIndexDoes | ops/src/str.cpp:18-33 | post-index STR and LDR return false when the cell is in bounds and fail as the accessor does otherwise |
| Instructions.PreIndexDoes | ops/src/ldr.cpp:17-32 | pre-index STR and LDR with their writeback |
| Instructions.PairDoes | ops/src/stp.cpp:39-78 | STP and LDP in their three forms |
| Instructions.NarrowRefused | ops/src/str.cpp:69-72 | a word without bit 31 that reaches STR or LDR is refused |
| Instructions.UnknownRefused | ops/src/stp.cpp:51-78 | sizes and forms the handlers do not know are refused, whatever the word |
| Instructions.UnsignedInStack | core/src/state.cpp:73-85 | from a base in the stack: when STR and LDR succeed, throw or leave the array, and the bytes |
| Instructions.UnscaledInStack | core/src/state.cpp:73-85 | the same for STUR and LDUR |
| Instructions.PairInBase | core/src/state.cpp:73-85 | the same for pairs |
| Arith.CondTrueIffArm | ops/src/csinc.cpp:23-61 | the code's condition is the architecture's except LS when C equals Z, LE when Z differs from N != V, and NV |
| Arith.InversionComplements | ops/src/csinc.cpp:78-79 | inverting the low bit complements the architecture's condition below 14 always, and the code's in an exactly given set of flag states |
| Arith.SubFlagsMeaning | ops/src/subs.cpp:13-56 | the flags of a subtraction, as equality, unsigned and signed order of the operands |
| Arith.ConditionsCompare | ops/src/csinc.cpp:4-21 | after a subtraction the architecture's conditions decide the comparisons they name |
| Arith.SignConditions | ops/src/csinc.cpp:34-41 | after a subtraction MI and PL are the sign of the difference, VS and VC its overflow; AL and NV |
| Conformance.AddConformance | ops/src/add.cpp:4-37 | ADD leaves the architecture's state iff the destination has no upper half to lose |
| Conformance.SubConformance | ops/src/sub.cpp:4-37 | the same for SUB |
| Conformance.AddsConformance | ops/src/adds.cpp:14-69 | sum always that of `AddWithCarry`; flags iff not 64-bit with a negative operand; whole state iff moreover the destination loses nothing or, as index 31, already holds the sum |
| Conformance.SubsConformance | ops/src/subs.cpp:13-65 | flags always those of `AddWithCarry`; difference iff no nonzero immediate is shifted; whole state iff moreover the destination loses nothing or, as index 31, already holds the value written |
| Conformance.WriteConformance | core/src/state.cpp:61-69 | a register write is the architecture's iff the value is right and the upper half is clear, and for a discarding index 31 iff the value is already there |
| Conformance.AliasIsGeneralPath | ops/src/csinc.cpp:72-99 | the alias path writes what the general path would, in an exactly given set of flag states |
| Conformance.CsincConformance | ops/src/csinc.cpp:64-103 | CSINC leaves the architecture's state iff its test decides rightly or both sources agree, and the destination loses nothing or, as index 31, already holds the value |
| Conformance.CsetConformance | ops/src/csinc.cpp:72-93 | CSET writes the architecture's value except for LS and LE in given flag states; whole state with the same condition on the destination |
| Conformance.OrrBits | ops/src/orr.cpp:11-37 | where the shift has a meaning each result bit is the OR of the operand's bit and the shifted one; elsewhere ORR has no meaning |
| Conformance.OrrConformance | ops/src/orr.cpp:14-39 | ORR leaves the architecture's state iff index 31 as second operand adds no bit and the destination loses nothing or, as index 31, already holds the value |
| Conformance.MovCopies | ops/src/orr.cpp:17-26 | ORR with the zero register copies the register |
| Conformance.MovzConformance | ops/src/movz.cpp:9-25 | MOVZ has a meaning iff the shift is 0 or 16, and is then the architecture's up to the destination |
| Conformance.AdrpConformance | ops/src/adrp.cpp:6-13 | ADRP is the architecture's iff the page offset is 0 or 1, up to the destination |
| Conformance.RetConformance | ops/src/ret.cpp:4-15 | a turn on RET halts iff the register is zero, otherwise goes to the architecture's target iff the register is not index 31, and clears it |
| Conformance.BranchMoves | ops/src/bl.cpp:6-14 | a turn on B or BL moves the PC by exactly the signed displacement; BL links |
| Conformance.DisplacementEncodes | ops/include/ops/b.h:8-10 | every displacement from -2^25 to 2^25 - 1 is the one its encoding yields |
| Conformance.BranchBy | ops/src/b.cpp:6-11 | for every k from -2^25 to 2^25 - 1 a turn on the branch assembled for k moves the PC by k words |
| Conformance.TbnzMoves | ops/src/tbnz.cpp:7-31 | a taken TBNZ moves by its unsigned field; the turn is the architecture's iff it is not taken or the branch is forward, and for index 31 iff not taken or by one word |
| LoadStore.StpNeverRejected | ops/src/stp.cpp:21-78 | a dispatched STP word never reaches an error branch, neither of the size, the form nor the second index test |
| LoadStore.LdpNeverRejected | ops/src/ldp.cpp:22-81 | the same for LDP |
| LoadStore.StrUnsignedExact | ops/src/str.cpp:35-72 | the size test recovers the bit the tree leaves untested: the store succeeds iff the word matches its row and the cell is in bounds |
| LoadStore.LdrUnsignedExact | ops/src/ldr.cpp:34-69 | the same for LDR |
| LoadStore.IndexedOutcome | ops/src/str.cpp:18-33 | post-index STR and LDR never succeed and change nothing |
| LoadStore.LdurStores | ops/src/base_op.cpp:104-105 | every LDUR word stores its target register and changes no register |
| LoadStore.LdurExample | tests/src/ops_tests.cpp:173-183 | the word of the LDUR test stores the register it should load, whatever that holds |
| LoadStore.StrLdrRoundTrip | ops/src/ldr.cpp:38-57 | what STR stores LDR loads |
| LoadStore.SturLdurRoundTrip | ops/src/ldur.cpp:14-21 | what STUR stores the LDUR handler loads |
| Addressing.AddressConformance | ops/src/stur.cpp:13-16 | for any register and displacements, the address used is the architecture's 64-bit one iff the displacements agree and, for 32 bits, the address is within reach |
| Addressing.StrConformance | ops/src/str.cpp:39-42 | STR with unsigned offset, and STUR, end as in the architecture iff the address is within reach or rejected |
| Addressing.LdrConformance | ops/src/ldr.cpp:38-41 | LDR with unsigned offset, and the LDUR handler, iff moreover the destination loses nothing or, as index 31, already holds the cell |
| Addressing.LdurConformance | ops/src/base_op.cpp:104-105 | every LDUR, run by the STUR handler, ends as the architecture's load iff the address is reached and the cell already holds the register, which loses nothing |
| Addressing.IndexedAddressConformance | ops/src/str.cpp:43-45 | the pre-index address is the architecture's iff the field is below 256 and the address within reach |
| Addressing.StrWriteback | ops/src/str.cpp:18-33 | the registers after a pre-index STR that succeeds are the architecture's iff the 64-bit offset is zero, the 32-bit one below 256 and without carry |
| Addressing.LdrWriteback | ops/src/ldr.cpp:17-32 | a pre-index LDR that succeeds writes base and destination as the architecture would with the value it loaded iff the offset is below 256 without carry and the destination loses nothing |
| Addressing.StrIndexedConformance | ops/src/str.cpp:18-33 | the outcome of an indexed STR is the architecture's iff both accesses fail alike, or both succeed, pre-index, with the right base |
| Addressing.LdrIndexedConformance | ops/src/ldr.cpp:17-32 | the same for indexed LDR, with the condition on the destination, index 31 as base and destination included |
| Addressing.UnscaledEncodes | ops/src/stur.cpp:8 | every displacement from -256 to 255 is the one its encoding yields |
| Addressing.SignedDisplacement | ops/src/stur.cpp:4-29 | for every k from -256 to 255 the word assembled for k stores at, and the LDUR handler loads from, base + k |
| Pairs.StpLdpRoundTrip | ops/src/ldp.cpp:64-70 | a pair stored by STP is what LDP loads, both with signed offset |
| Pairs.IndexedStpLdp | ops/src/stp.cpp:18-37 | a pair stored by an indexed STP is what any form of LDP with offset zero loads |
| Pairs.PairAddressConformance | ops/src/stp.cpp:44-64 | the address of a pair is the architecture's iff the field is below 64, for post-index zero, and, for 32 bits, the address is within reach |
| Pairs.StpWriteback | ops/src/stp.cpp:18-37 | indexed STP leaves the architecture's registers iff the field is below 64 and nothing carries out of a 32-bit base |
| Pairs.LdpWriteback | ops/src/ldp.cpp:19-38 | the same for the base register of indexed LDP |
| Pairs.PairsCoincide | ops/src/stp.cpp:57-68 | a pair stored some cells too high leaves the same memory iff memory already held what would show the difference |
| Pairs.StpConformance | ops/src/stp.cpp:14-81 | the outcome of every STP is the architecture's iff both accesses fail alike, or both succeed with the right base and the pair in place or already there |
| Pairs.LdpConformance | ops/src/ldp.cpp:15-84 | the outcome of LDP is the architecture's iff both accesses fail alike, or both succeed, the base is right and each destination receives the right value without loss or, as index 31, already holds it |
| Pairs.PushPop | ops/src/stp.cpp:21-34 | pre-index STP then post-index LDP restores the base iff both offsets are zero, and then reloads the pair |
| Pairs.ArmPushPop | ops/include/ops/stp.h:15-24 | in the architecture the base is restored iff the signed offsets cancel |
| Turns.ListedIsMatching | patterns.txt:4-40 | the instructions compared are exactly the words that match a row of the table |
| Turns.TurnConformance | session/include/session/session.h:48-49 | for every listed word with a defined meaning, a turn of the session is the architecture's iff the condition of its handler holds |
| Turns.RunConformance | session/include/session/session.h:48-49 | a program of such words runs in step with the architecture for any number of turns iff every turn is right |
| Turns.SafeIsRight | ops/src/base_op.cpp:6-173 | words away from the departures (64-bit, not into index 31, small offsets) are right in every state |
| Turns.SafeProgramConforms | session/include/session/session.h:48-49 | a program of safe words does from every state exactly what the architecture does |
| Witnesses.CmpMovesSp | ops/src/subs.cpp:58-80 | CMP X0, #5 with X0 = 5 zeroes the stack pointer |
| Witnesses.ShiftedSubs | ops/src/subs.cpp:63 | a shifted SUBS whose flags say zero and whose result is not |
| Witnesses.NegativeAdds | ops/src/adds.cpp:54 | a 64-bit ADDS of zero that sets V |
| Witnesses.UpperHalfStays | core/src/state.cpp:61-64 | a 32-bit ADD that leaves an upper half |
| Witnesses.EqualIsNotLowerOrSame | ops/src/csinc.cpp:45-53 | after comparing equal operands CSET LS and CSET LE write 0 |
| Witnesses.ZeroMoveCopiesSp | ops/src/orr.cpp:18-25 | MOV X0, XZR copies the stack pointer |
| Witnesses.SecondPage | ops/src/adrp.cpp:9 | ADRP two pages ahead yields one page ahead |
| Witnesses.BackwardTbnz | ops/src/tbnz.cpp:11 | a backward TBNZ jumps forward |
| Witnesses.PushThrows | ops/src/stp.cpp:62-64 | the usual push at the initial stack pointer throws |
| Witnesses.CutBase | ops/src/stp.cpp:40-46 | a 32-bit STP uses the lower half of its base |
| Witnesses.LoadOverwritesSp | ops/src/ldr.cpp:57-58 | a load into the zero register overwrites the stack pointer |
| Witnesses.NegativePreIndex | ops/src/str.cpp:43-45 | a negative pre-index is taken as positive |
| Witnesses.PostIndexRefused | ops/src/ldr.cpp:18-30 | a post-index load is refused |
| Samples.AddTest | tests/src/ops_tests.cpp:16-26 | the assertion of this test, for every state that fits it |
| Samples.SubTest | tests/src/ops_tests.cpp:28-37 | the assertion of this test, for every state that fits it |
| Samples.SubsTest | tests/src/ops_tests.cpp:39-53 | the assertions of this test, for every state that fits it |
| Samples.MoveTest | tests/src/ops_tests.cpp:55-67 | the assertion of this test, for every state that fits it |
| Samples.LslTest | tests/src/ops_tests.cpp:69-79 | the assertion of this test, for every state that fits it |
| Samples.LsrTest | tests/src/ops_tests.cpp:81-91 | the assertion of this test, for every state that fits it |
| Samples.AsrTest | tests/src/ops_tests.cpp:93-104 | the assertion of this test, for every state that fits it |
| Samples.MovzTest | tests/src/ops_tests.cpp:106-115 | the assertion of this test, for every state that fits it |
| Samples.StrTest | tests/src/ops_tests.cpp:117-128 | the assertion of this test, for every state that fits it |
| Samples.LdrTest | tests/src/ops_tests.cpp:130-141 | the assertion of this test, for every state that fits it |
| Samples.SturTest | tests/src/ops_tests.cpp:143-154 | the assertion of this test, for every state that fits it |
| Samples.StpTest | tests/src/ops_tests.cpp:156-171 | the assertions of this test, for every state that fits it |
| Samples.LdpTest | tests/src/ops_tests.cpp:185-198 | the assertions of this test, for every state that fits it |
| Samples.AdrpTest | tests/src/ops_tests.cpp:200-211 | the assertion of this test, for every state that fits it |
| Samples.CsetTests | tests/src/ops_tests.cpp:213-235 | the assertions of this test, for every state that fits it |
| CompareSet.ExecKeepsFlags | ops/src/base_op.cpp:6-173 | only ADDS and SUBS touch the flags, however an instruction ends |
| CompareSet.QuietRunKeepsFlags | session/include/session/session.h:48-49 | a run without ADDS and SUBS keeps the flags |
| CompareSet.ConditionAfterCompare | ops/src/csinc.cpp:23-61 | after a compare the code's condition is the comparison it names, for LS and LE iff that is false |
| CompareSet.CompareAndSet | ops/src/csinc.cpp:72-93 | SUBS, any run without ADDS and SUBS, CSET: the register is 1 or 0 as the comparison holds, with the exact exception of LS and LE |
| CompareSet.AssembledCompareSet | ops/include/ops/csinc.h:4-5 | the same for an assembled SUBS directly before an assembled CSET, all fields arbitrary |
| Calls.RetTurn | ops/src/ret.cpp:4-15 | a turn on RET goes to the link register and clears it, or halts on zero |
| Calls.LevelRuns | ops/src/bl.cpp:11-14 | what one level leaves behind, whatever its callee does within the contract |
| Calls.LevelReturns | ops/src/ldp.cpp:59-70 | a level keeps the contract of calls if its callee does |
| Calls.NestedCallsReturn | session/include/session/session.h:48-49 | for any number of levels and frames that fit: SP and x29 restored, saved return addresses reloaded, control at the caller, memory changed in the frames only |
| Calls.ProgramStops | ops/src/ret.cpp:7-8 | entered with a zero link register the outermost level ends the run at its RET, with SP, x29 and outside memory as before |
| Calls.SessionStops | session/include/session/session.h:43-49 | a session on such a program stops with its initial stack pointer |
| CallChain.AssembledIsLinked | ops/include/ops/bl.h:4-5 | for every list of frames the assembled code is such a program |
| CallChain.AssembledChainReturns | session/include/session/session.h:48-49 | so an assembled chain of any depth, placed anywhere, returns to its caller with SP and x29 restored |
| CallChain.AssembledSessionStops | session/include/session/session.h:41-50 | and a session on it stops with its initial stack pointer |
| CallChain.RunChain | session/include/session/session.h:41-50 | the session method started on such a chain, its link register zero, returns stopped with its stack pointer back |

## Left out

- Builder.GenerateDecisionTree: the script writes the default branch to the global `out` (`generate_tree.py:46-48`), which is the file passed as parameter because it has only one; the model writes to the parameter. The fragments of the text are values; their hexadecimal rendering and line breaks are left out, and the logger line is a statement without effect.
- Builder.Generate: the fixed header and footer are left out too. (`ops/src/base_op.cpp:7` lacks the `const` the script would write.)
- The digits and error text of Python's exceptions.
- Session.RunLoop: a program may run forever, so the loop takes the number of turns as a bound; every statement about it holds for every bound.
- Session.Start: the same bound; the instruction words and the entry point are parameters.
- Calls.NestedCallsReturn: levels call each other in a straight line with 64-bit STP/LDP in signed-offset form; data-dependent recursion enters through the callee contract of `Calls.LevelReturns`.
- Pairs.LdpConformance: two equal destinations, and for the indexed forms a destination equal to a base other than index 31, have no defined result in the architecture and are left out.
- Addressing.LdrIndexedConformance: the same for a destination equal to a base other than index 31.
- Pairs.StpConformance: an indexed STP that stores its own base (other than index 31) has no defined result either; here the architecture is taken to store the old base, as for `Addressing.StrIndexedConformance`. `Turns.Predictable` excludes these words.
- Turns.TurnConformance: words that reach a handler without matching a row of the table are not compared with the architecture.
- Turns.SafeProgramConforms: some words that are right in every state are not counted as safe.
- Loading of Mach-O files, `main.cpp`, logging, `madvise`: input and output only.
- `core/include/core/util.h` and the unused helpers at `ops/include/ops/base_op.h:22-44`: not on the live path.
- What compilers do where C++ leaves the meaning open (`Undefined`), host endianness, and uninitialised registers beyond being arbitrary.
