# A verified model of the Pascal compiler and its register machine

A one-pass Pascal compiler writes 16-bit code words for a register machine
(PVM). This project models both sides in Dafny and proves what each promises
the other. `dafny verify dfyconfig.toml` checks everything.

| module | what it models |
|---|---|
| Words, Isa, Codec, AddImm | integer widths, the instruction formats, both decoders, constant loads and adds, branch patching |
| Machine, Calls, SaveRegs, CallSites, Frames | the interpreter as a step function, call discipline over runs, PUSH/POP of register lists, whole emitted calls, locals across them |
| Statements, Preservation, Simulation, Loops, Counters | statements, their meaning, the words they end up as, and that running those words does what they mean |
| Backpatch, Patching, Compiler, Targets, Boundaries | the one-pass compiler as a class that emits words, keeps pending holes and patches them; where its branches go |
| Freeing | registers taken off the list while a variable still lives in them |
| Conditions, ShortCircuit, Arithmetic, Pointers | operands, comparisons, short-circuit `and` / `or` / `not` on the condition flag, sums, stored conditions, addresses |
| Registers, SpillMoves, Arguments, Layout, Linking | the register allocator with its spill stack, argument places, layout of variables, resolution of subroutine references |
| Chunks | the code chunk and its line table |
| Hashing, Probing, Rehash, Tombstones, Vartabs | the symbol table |
| Blocks, HeapRuns, Pools, Gpa | the general purpose heap |
| Grammar, Pratt | the grammar of expressions, and the parser proved to be the grammar's |

How the statement compiler is tied together: `Gen` gives the words of a finished
statement, `Simulate` proves that running them is what the statement means, and
`PascalCompiler` is proved to leave exactly those words after its single pass and
all its patching, for every statement no part of which, but what is compiled last,
takes the register of a variable off the list (`Compiles`); `CompiledRuns` puts the
three together. Expression code enters
by contract (`PieceOk`, `BoolOk`, `LoadOk`, `AssignOk`): it falls through to its
end, leaves a value in a register or a flag with a polarity, and keeps the live
registers. `Conditions` and `ShortCircuit` show emitted code that meets it.

## Where the code departs from what it says

The model follows the code. Each departure has a statement of exactly when the
code still does what is expected:

- A signed type selects the unsigned comparison and an unsigned one the signed
  (src/Compiler/Emitter.c:1706-1812): `RelationAgrees`, `ComparisonAgrees`. So
  counting down to 0 over a signed type never ends: `DowntoZeroNeverEnds`; and a
  for loop runs as often as it should exactly as `ForRoundsIff` says.
- BRI is patched as if it had one word (src/Compiler/Emitter.c:900-907):
  `PatchReaches`. No statement patches a BRI.
- A small addend goes into ADDI's type nibble (src/Compiler/Emitter.c:1351-1354):
  `AddImmAddsIff`.
- PVMEmitAdd negates a literal operand as PVMEmitSub does
  (src/Compiler/Emitter.c:1429-1434), so that `x + 100` is x - 100: `SumRightIff`.
- A flag moved to a register is moved whatever its polarity
  (src/Compiler/Emitter.c:500-503): `StoredRelation` says for which relations the
  register is right.
- The first value of a for loop is computed after its counter was moved to a
  fresh register (src/Compiler/Compiler.c:307-315): `FirstValueRightIff`.
- FreeExpr frees the register of a variable that lives in one
  (src/Compiler/Expr.c:87-99): behind an assignment of it
  (src/Compiler/Compiler.c:677), a case or a condition on it
  (src/Compiler/Compiler.c:835, 278, 412, 473), where it is the first value of a for
  loop (src/Compiler/Expr.c:152) or a left operand (src/Compiler/Expr.c:1463).
  `KeepsListIff` says exactly when the list survives. Inside a for loop the register
  is the counter's, and the next one handed out: `CounterFreed`,
  `CounterOverwritten`. So `for i := 1 to 10 do begin x := i; y := 5 end` never ends:
  `TenRoundsNeverEnd`.
- `and` / `or` return the location of their right operand although the left one
  may have decided (src/Compiler/Expr.c:1287-1382): `SkippedReadsRight`, and for
  whole trees `SaidIsTruthIff`.
- A register just unspilled is freed, against the comment above the test
  (src/Compiler/Emitter.c:749-758). That by itself loses no value,
  `GiveKeepsValues`, only the register list is wrong, `GiveIsSafeIff`; a register in
  use is handed out unsaved when one is taken before the list recovers:
  `NothingLostIff`. The
  spill victim is counted modulo all 16 registers: `ReservedHandedOutIff`. Slots are
  counted over both register files (src/Compiler/Emitter.c:704): unspilling one that
  was not the last spilled of both makes the next spill overwrite another,
  `UnspillTidyIff`.
- Registers are popped in the order they were pushed, and those of a high bank
  into the low one (src/Compiler/Emitter.c:2170-2185, src/PVM/PVM.c:234):
  `RestoresIff`.
- A running offset of -1 is taken for STACK_TOP, and the stack argument size
  ignores hidden parameters (src/Compiler/Emitter.c:1996,
  src/Compiler/Compiler.c:1193): `AllPlacesAgreeIff`, `ArgumentsFitIff`. A function
  call allocates before it saves but deallocates before it restores
  (src/Compiler/Expr.c:268-324): `FunctionCallRunsIff`.
- A resize probes the new table with the old capacity (src/Vartab.c:236), and a
  table's capacity is not rounded to a power of two (src/Vartab.c:29-36):
  `ResizeKeepsNamesIff`, `EverySlotIsReachable`.
- Reallocation splits at an unrounded size and returns a header
  (src/Memory.c:160, src/Memory.c:166): `ReallocateKeepsPromiseIff`, `RunsHeldIff`.

Where a line is plainly meant otherwise, a `repaired` variant (of the register
allocator, the pops, the resize, the reallocation) is proved right without the
condition.

## Model

| member | source | states |
|---|---|---|
| Words.SignExtendFits | src/Include/Common.h:102-112 | a value survives truncation to a field and sign extension exactly when it is in the field's signed range |
| Isa.Branch24 | src/PVM/PVM.c:202-203 | the three parts of a 24-bit branch offset, packed and read back, give the offset exactly when it fits 24 signed bits |
| Isa.Branch20 | src/PVM/PVM.c:204-205 | the same for the 20-bit offsets of BEZ and BNZ |
| Isa.ImmRoundTrip | src/PVM/PVM.c:282-300 | an immediate written in words of its type reads back exactly when the type holds it |
| Isa.GetSexImm | src/PVM/PVM.c:282-300 | the interpreter's loop yields the sign-extended value of the words it reads, and how many it reads |
| Isa.GetImmFromImmType | src/PVM/Disassembler.c:257-285 | the disassembler's loop yields the value of the words it reads, one word for an unknown type |
| Isa.DecodeBranch | src/PVM/PVM.c:514-593 | an emitted branch decodes to itself exactly when its offset fits its field |
| Isa.DecodeImmediate | src/PVM/PVM.c:657-667 | an emitted immediate decodes to itself exactly when its type holds it |
| Isa.DecodeEncode | src/Include/PVM/Isa.h:230-276 | every well-formed instruction, in any surroundings, decodes to itself and to the address behind it |
| Codec.StreamRoundTrip | src/PVM/PVM.c:318-350 | sequential decoding of any list of well-formed instructions recovers the list |
| Codec.DecodersAgree | src/PVM/Disassembler.c:431-639 | interpreter and disassembler advance by the same number of words exactly when an immediate has one of the seven types |
| Codec.MovImmLoads | src/PVM/Chunk.c:83-133 | the instruction chosen for a 64-bit value loads that value |
| Codec.MovImmShortest | src/PVM/Chunk.c:83-133 | no instruction that loads the value has fewer words |
| Codec.Splice | src/Compiler/Emitter.c:915-928 | the masking of the patch keeps opcode and register and replaces the offset bits only |
| Codec.PatchRetargets | src/Compiler/Emitter.c:889-943 | patching a branch site yields the same instruction with another offset, and no other word changes |
| Codec.PatchReaches | src/Compiler/Emitter.c:889-943 | a patched site transfers to its target exactly when the distance fits; a patched BRI aims one word further |
| AddImm.SmallAddIsMisread | src/Compiler/Emitter.c:1351-1354 | what the machine decodes from a small addend put in the type nibble |
| AddImm.AddImmAddsIff | src/Compiler/Emitter.c:1341-1406 | adding a constant adds it and goes on behind its words exactly when it is not a small constant added to a signed type |
| AddImm.AddInstrShortest | src/Compiler/Emitter.c:1341-1406 | no immediate type of the same sign that holds the constant takes fewer words |
| Chunks.Chunk.WriteCode | src/PVM/Chunk.c:68-78 | one word is appended and its address returned |
| Chunks.Chunk.WriteMovImm | src/PVM/Chunk.c:83-133 | the words of the shortest constant load are appended |
| Chunks.Chunk.WriteDebugInfo | src/PVM/Chunk.c:176-218 | the line table is extended at the current end, or the last entry's ranges are |
| Chunks.NotedSorted | src/PVM/Chunk.c:176-218 | entries stay strictly increasing, and the current address has one |
| Chunks.NotedSources | src/PVM/Chunk.c:176-218 | earlier entries stay, sources noted at one address stay in order, and the last of eight gives way |
| Chunks.NotedIsFound | src/PVM/Chunk.c:176-266 | a lookup at the current address finds what was noted last, one in front of it what it found before |
| Chunks.Chunk.Reset | src/PVM/Chunk.c:38-62 | code is cut, or extended over what the buffer holds, to the entry point, or emptied; the table is cut to a prefix, which stays sorted |
| Chunks.Chunk.GetDebugInfo | src/PVM/Chunk.c:221-266 | the halving and then linear search ends, and returns the floor entry of the address |
| Chunks.FloorUnique | src/PVM/Chunk.c:221-266 | the floor entry is unique, so the search equals a linear one |
| Machine.LoadStore64 | src/PVM/PVM.c:674-760 | a 64-bit store is read back, and reads elsewhere are unchanged |
| Machine.RunsDeterministic | src/PVM/PVM.c:310-320 | two runs that leave a span of code meet |
| Simulation.Simulate | src/Compiler/Compiler.c:215-502 | semantic preservation for every nesting of statements: the run from the first word reaches the end, or the break target, with the meaning's store; more iterations than the fuel keep the machine inside |
| Simulation.SimulateWhile | src/Compiler/Compiler.c:383-430 | the same for while, its breaks going behind it |
| Simulation.SimulateRepeat | src/Compiler/Compiler.c:252-281 | the same for repeat, which passes breaks on |
| Simulation.SimulateLoop | src/Compiler/Compiler.c:331-373 | the same for the loop of a for statement, from its comparison on |
| Simulation.SimulateFor | src/Compiler/Compiler.c:284-380 | the same for for, the counter moved to a register and back |
| Simulation.SimulateCase | src/Compiler/Compiler.c:724-838 | the same for case: the first arm that matches, else the else part |
| Simulation.SkipArms | src/Compiler/Compiler.c:757-806 | the arms in front of the first match are skipped |
| Loops.RunsOnlyAsMeant | src/Compiler/Compiler.c:215-502 | conversely, a run that leaves the words of a statement does so where, and with the store, the meaning says |
| Loops.DivergesTogether | src/Compiler/Compiler.c:215-502 | a statement whose meaning needs unboundedly many iterations never leaves its words |
| Loops.ComparisonAgrees | src/Compiler/Emitter.c:1706-1760 | the counter comparison emitted agrees with Pascal's exactly on operands of one sign bit |
| Loops.NegativeStartSkipsBody | src/Compiler/Emitter.c:1706-1732 | `for i := -1 to 1` does not enter its body as written |
| Loops.GuardedAgrees | src/Compiler/Compiler.c:284-380 | where no for loop compares a counter with a stop value of the other sign, the meaning with counters compared as written is that with counters compared as Pascal does; other conditions are the subject of ShortCircuit.TestBranches |
| Loops.MoreFuel | src/Compiler/Compiler.c:215-502 | the bound on iterations in the meaning only cuts off: a result within one bound is the result within every larger one |
| Loops.ForRounds | src/Compiler/Compiler.c:284-380 | counting up or down, over signed or unsigned counters, as written or as Pascal: where the body, from each store a round starts in, finishes and leaves the counter alone, it is run max(0, stop-first+1) (down: max(0, first-stop+1)) times and the counter ends one behind stop, when no comparison made is of different sign bits |
| Loops.ForBreaks | src/Compiler/Compiler.c:284-380 | a body that breaks in an earlier round ends the loop there, with the store it broke in |
| Loops.ForRoundsIff | src/Compiler/Emitter.c:1706-1760 | where no round ever breaks, that result is reached within some bound exactly under that condition on first and stop value |
| Loops.PiecesLeave | src/Compiler/Compiler.c:284-380 | every body of one piece of code that leaves the counter alone is one the count is about |
| Loops.DowntoZeroNeverEnds | src/Compiler/Emitter.c:1734-1760 | as written, counting down to 0 over a signed counter never ends, even where every round finishes and leaves the counter alone |
| Loops.ForCounts | src/Compiler/Compiler.c:284-380 | the finished words of a for statement run its body that many times, and leave the counter's last value in the variable's own place |
| Counters.FirstValueIsRead | src/Compiler/Compiler.c:307-315 | the words of the first value leave its value over whatever the counter's new register held |
| Counters.FirstValueRightIff | src/Compiler/Compiler.c:307-315 | from every state that represents a store they leave the right value, exactly when the expression does not depend on the counter |
| Counters.OperandIgnoresIff | src/Compiler/Compiler.c:307-315 | a variable or literal does not, exactly when it is not the counter itself |
| Counters.CounterReadsItself | src/Compiler/Compiler.c:307-315 | `for i := i to`, i being 0 and the register holding 7: the machine starts the loop at 7 |
| Backpatch.BreaksAreHoles | src/Compiler/Compiler.c:840-858 | the pending breaks of a statement are distinct addresses of emitted jumps inside it, in order |
| Backpatch.RetargetBreaks | src/Compiler/Compiler.c:242-249 | patching all pending breaks turns the emitted words into the finished ones and changes nothing else |
| Backpatch.OutsAreSites | src/Compiler/Compiler.c:801-802 | the jumps behind case arms are distinct emitted jumps too |
| Backpatch.RetargetOuts | src/Compiler/Compiler.c:827-831 | patching them all gives the finished arms |
| Backpatch.NextIsSite | src/Compiler/Compiler.c:242-249 | while earlier holes are filled, each later one still is the jump that was emitted |
| Patching.PatchBranch | src/Compiler/Emitter.c:889-943 | the switch over the opcode writes exactly the patched words |
| Patching.PatchBody | src/Compiler/Compiler.c:242-249 | the words of a loop body, once patched, are those whose breaks leave the loop |
| Targets.BranchesLand | src/Compiler/Compiler.c:215-502 | every branch of a finished statement is inside it and goes to the start or end of a part of it, or, for a break not taken inside, to the break target |
| Boundaries.StatementDecodes | src/Compiler/Compiler.c:215-502 | the words of a finished statement decode as a stream of instructions whose branches are all those enumerated, besides what expression code has of its own, and in which an instruction starts at every place enumerated |
| Boundaries.TargetsAreBoundaries | src/Compiler/Compiler.c:215-502 | so every branch goes to the start of an instruction of the statement, to its end, or to the break target |
| Compiler.PascalCompiler.constructor | src/Compiler/Emitter.c:40-47 | a fresh compiler has only GP, FP and SP in use and no pending break |
| Compiler.PascalCompiler.AllocateRegister | src/Compiler/Emitter.c:690-701 | the lowest free register is taken |
| Compiler.PascalCompiler.PatchBreaks | src/Compiler/Compiler.c:242-249 | exactly the breaks pending since the loop began are patched to the current end, and removed |
| Compiler.PascalCompiler.CompileLoopBody | src/Compiler/Compiler.c:230-240 | a body is compiled as inside a loop; its breaks are appended and no error is reported for them |
| Compiler.PascalCompiler.CompileList | src/Compiler/Compiler.c:215-226 | a statement list appends its words and its breaks in order |
| Compiler.PascalCompiler.CompileIfThen | src/Compiler/Compiler.c:432-502 | one-pass emission and patching of if leaves the specified words; variables and InLoop are as before, and so is the register list but for what FreeExpr takes off behind the condition |
| Compiler.PascalCompiler.CompileIfElse | src/Compiler/Compiler.c:432-502 | the same for if with else, both holes filled |
| Compiler.PascalCompiler.CompileWhile | src/Compiler/Compiler.c:383-430 | the same for while; no break stays pending |
| Compiler.PascalCompiler.CompileRepeat | src/Compiler/Compiler.c:252-281 | the same for repeat; breaks stay pending |
| Compiler.PascalCompiler.CompileCountedLoop | src/Compiler/Compiler.c:331-373 | the same for the loop of a for statement |
| Compiler.PascalCompiler.CompileLimits | src/Compiler/Compiler.c:307-327 | the counter moves to the lowest free register; the first value is put there and freed, the stop value put in a register of its own |
| Compiler.PascalCompiler.CompileFor | src/Compiler/Compiler.c:284-380 | the same for for; the counter's place and both registers are given back, and the list lacks the register of a first value that is another variable living in one, and what the body took at its end |
| Compiler.PascalCompiler.CompileTest | src/Compiler/Compiler.c:771-785 | the test of an arm and the branch behind it; the literal's register is given back |
| Compiler.PascalCompiler.CompileArm | src/Compiler/Compiler.c:757-806 | one case arm, its test patched to the next one; the address of the jump behind it |
| Compiler.PascalCompiler.CompileArms | src/Compiler/Compiler.c:757-815 | all arms, and the list of jumps behind them |
| Compiler.PascalCompiler.CompileCase | src/Compiler/Compiler.c:724-838 | the same for case; all jumps behind arms are patched to its end; the register list afterwards lacks the selector's own register if it is a variable living in one |
| Compiler.PascalCompiler.CompileStmt | src/Compiler/Compiler.c:860-905 | every statement no part of which, but what is compiled last, takes the register of a variable off the list leaves exactly its specified words and pending breaks, an error exactly for a break outside loops, and the register list as before less exactly the registers FreeExpr took (`Freed`) |
| Compiler.PendingCount | src/Compiler/Compiler.c:840-858 | the number of breaks a statement leaves pending is that of breaks no loop of it takes |
| Compiler.NoBreakEscapes | src/Compiler/Compiler.c:840-849 | a statement with no pending break never breaks out |
| Compiler.CompiledRuns | src/Compiler/Compiler.c:860-905 | the words so left by an error-free compilation run from the first one to the end of the code, with the store the statement means |
| Freeing.KeepsListIff | src/Compiler/Expr.c:87-99 | behind a statement of any kind the register list is as before exactly when every variable that it, or the part of it compiled last, hands to FreeExpr lives in memory, the counters of its own loops aside |
| Freeing.CounterFreed | src/Compiler/Compiler.c:677 | inside a for loop, behind a statement that hands its counter and nothing else to FreeExpr, the counter's register is the next one allocated |
| Freeing.CounterOverwritten | src/Compiler/Compiler.c:677 | so a literal loaded there is the counter's new value, on the machine |
| Freeing.TestFreesCounter | src/Compiler/Expr.c:1463 | so is the counter's register behind a comparison whose left operand it is, in what the condition decides on |
| Freeing.CompileBody | src/Compiler/Compiler.c:635-682 | the compiler, given `x := i; y := k` inside a loop over i, leaves the words of `BodyWords`, the second statement under the shorter list |
| Freeing.WholeNeverEnds | src/Compiler/Compiler.c:284-380 | a for loop around those words never leaves them, from any state of its variables, if its test holds for the first value and for the value one behind k |
| Freeing.CopyingMeans | src/Compiler/Compiler.c:284-380 | what such a loop means is as many rounds as its limits say |
| Freeing.TenRoundsMeant | src/Compiler/Compiler.c:284-380 | `for i := 1 to 10 do begin x := i; y := 5 end` means ten rounds |
| Freeing.TenRoundsNeverEnd | src/Compiler/Compiler.c:677 | its words never end |
| Freeing.TenRoundsNotCompilable | src/Compiler/Compiler.c:677 | it is none of the statements CompileStmt speaks of, a part being compiled behind the assignment |
| Freeing.CopyAloneCompiles | src/Compiler/Compiler.c:677 | with nothing behind the assignment, `for i := 1 to 10 do x := i`, it is one of them, and the list survives |
| Freeing.CopyAloneOk | src/Compiler/Compiler.c:284-380 | it meets every premise of semantic preservation |
| Freeing.CopyAloneRuns | src/Compiler/Compiler.c:284-380 | its words, run from any state of the variables, end with x 10 and i 11 |
| Conditions.OperandLoadOk | src/Compiler/Emitter.c:609-622 | loading a variable or literal meets the contract asked of expression code |
| Conditions.OperandAssignOk | src/Compiler/Emitter.c:953-1000 | moving one into a variable does |
| Conditions.StopLoadOk | src/Compiler/Expr.c:108-116 | the stop value of a for loop is copied to a register not in use, wherever it lives |
| ShortCircuit.RelationAgrees | src/Compiler/Emitter.c:1706-1862 | each comparison as emitted agrees with Pascal's exactly for (in)equality or operands of one sign bit |
| ShortCircuit.ComparisonOk | src/Compiler/Emitter.c:1706-1862 | a comparison's code leaves the flag, with the stated polarity, equal to the relation |
| ShortCircuit.ConditionRuns | src/Compiler/Expr.c:1287-1382 | for every and/or/not tree, whatever the polarities, the flag left and read with the tree's polarity says the right operand's value or, where that was skipped, the left flag read as the right one's; the store is that of the operands evaluated |
| ShortCircuit.SkipOrEnter | src/Compiler/Expr.c:1287-1382 | a skipped right operand is never executed: every step is in front of it |
| ShortCircuit.SkippedReadsRight | src/Compiler/Expr.c:1287-1382 | when the right operand is skipped the result is right, the left one being right, exactly when both operands have one polarity |
| ShortCircuit.SaidIsTruthIff | src/Compiler/Expr.c:1287-1382 | every part of a tree that is evaluated leaves its own truth exactly when every connective whose right operand is skipped has operands of one polarity |
| ShortCircuit.ConditionOk | src/Compiler/Emitter.c:830-871 | a tree of one polarity throughout meets the contract statements branch on |
| ShortCircuit.FreedAreLeftOperands | src/Compiler/Expr.c:1460-1466 | the variables whose registers a condition frees are exactly the left operands of its comparisons, skipped ones included |
| ShortCircuit.TestIsMeant | src/Compiler/Expr.c:1287-1382 | for every tree of and/or/not over comparisons, the value the emitted code computes is Pascal's, when every comparison evaluated is of (in)equality or of operands of one sign bit |
| ShortCircuit.TestBranches | src/Compiler/Emitter.c:830-871 | the branch behind such a condition jumps exactly when Pascal's value says so, and every variable is as before |
| Arithmetic.SumRuns | src/Compiler/Emitter.c:1424-1500 | the words of a sum or difference leave what is computed in a register not in use, the literal not being one AddImm.AddImmAddsIff excludes |
| Arithmetic.SumRightIff | src/Compiler/Emitter.c:1429-1434 | what is computed is the sum meant exactly when it is a difference, or of variables, or the literal is a multiple of 2^31 |
| Arithmetic.SumAssignOk | src/Compiler/Emitter.c:1424-1500 | assigned to a variable, it meets the contract asked of expression code |
| Arithmetic.AddingLiteralSubtracts | src/Compiler/Emitter.c:1429-1434 | `x + 100` leaves x - 100 |
| Arithmetic.StoredRelation | src/Compiler/Emitter.c:500-503 | a comparison moved to a register is read as its relation exactly for <, > and =, and as the opposite for the others |
| Arithmetic.NotRuns | src/Compiler/Emitter.c:1593-1603 | `not` of a boolean in a register turns it round |
| Arithmetic.FlagComesBack | src/PVM/PVM.c:642-646 | the flag put in a register is, taken back from it anywhere, as it was when put there |
| Pointers.AddressOfRuns | src/Compiler/Emitter.c:566-591 | the address loaded for a variable in memory points to it |
| Pointers.StoreThrough | src/Compiler/Expr.c:357-395 | what is stored through the pointer is the variable's value, and no other variable's |
| Pointers.LoadThrough | src/Compiler/Expr.c:357-395 | what is loaded through it is the variable's value |
| Hashing.HashIgnoresCase | src/Vartab.c:174-184 | names that fold alike hash alike |
| Hashing.FoldIff | src/Include/Common.h:176 | names fold alike exactly when they differ in bit 5 of their bytes at most |
| Hashing.LowerCaseFolds | src/Include/Common.h:176 | a name and its lower-case spelling fold alike |
| Hashing.IdentifiersFoldIff | src/Include/Common.h:176 | identifiers fold alike exactly when their lower-case spellings are equal |
| Hashing.HashOf | src/Vartab.c:174-184 | the loop computes the hash |
| Hashing.EqualNoCase | src/Tokenizer.c:265-275 | the loop decides whether the names differ in bit 5 of their bytes at most |
| Hashing.MaskIsModulo | src/Vartab.c:194-215 | masking with a power of two less one is the remainder |
| Hashing.EverySlotIsReachable | src/Vartab.c:23-43 | masking reaches every slot exactly when the capacity is a power of two |
| Probing.SearchOutcome | src/Vartab.c:191-218 | a probe returns the first match, or the first reusable slot before the first empty one |
| Probing.LookupsAgreeIff | src/Vartab.c:114-122 | lookups answer from the map the table stands for exactly when each live key is reached from its home through slots in use |
| Probing.PutBinds | src/Vartab.c:126-156 | storing binds the folded name, keeps all other bindings, reachability and freedom from duplicates |
| Probing.DeleteUnbinds | src/Vartab.c:159-171 | deleting removes exactly that binding and keeps the others reachable |
| Rehash.WrapsIffCrowded | src/Vartab.c:191-218 | some name wraps around the end exactly when some suffix is too small for the names at home in it |
| Rehash.ResizeKeepsNamesIff | src/Vartab.c:223-246 | as written a resize keeps lookups right exactly when every home stays in the lower half and none wraps |
| Rehash.RepairedResizeKeepsNames | src/Vartab.c:223-246 | probing with the new capacity always does |
| Rehash.FirstResizeLosesA | src/Vartab.c:223-246 | the name A in a table of four slots is lost by the first resize |
| Tombstones.PutTombstone | src/Vartab.c:74-93 | a tombstone stored under the empty name merges with the one there is and changes no binding |
| Vartabs.FindValidSlot | src/Vartab.c:191-218 | the probe loop, for any capacity, looks at the slots its mask leads to; under a power of two it computes the search |
| Vartabs.StepIsSound | src/Vartab.c:126-156 | on every run, as written too, the load stays at most three quarters and every probe of a Set ends |
| Vartabs.StepIsMap | src/Vartab.c:114-171 | each operation does to the map, and answers, what a map does |
| Vartabs.RunIsMap | src/Vartab.c:114-246 | over any run of sets, deletions, lookups, resets and clones whose resizes are safe the table is a map on folded names |
| Vartabs.RunAnswersLast | src/Vartab.c:114-171 | a new table answers a lookup or a deletion with what was last bound to the name in whatever spelling, unless deleted since in any |
| Vartabs.LoadInNumbers | src/Vartab.c:126-156 | at most three of four slots are used, and a Set doubles the table exactly when one more would be too many |
| Vartabs.RepairedRunsAreSafe | src/Vartab.c:223-246 | with the repaired resize every run is safe |
| Vartabs.Vartab.constructor | src/Vartab.c:23-43 | a new table has the capacity given, unrounded; it is an empty map, and probing is sound, exactly when that is a power of two |
| Vartabs.Vartab.FindWithHash | src/Vartab.c:114-122 | returns the lookup |
| Vartabs.Vartab.Set | src/Vartab.c:126-156 | the table, capacity and count become those specified, growing first if the load demands |
| Vartabs.Vartab.Delete | src/Vartab.c:159-171 | the same for deleting; the deleted binding is returned |
| Vartabs.Vartab.Resize | src/Vartab.c:223-246 | the new table is the specified one, whichever capacity it is probed with |
| Vartabs.Vartab.Rebuild | src/Vartab.c:229-241 | the loop copies the live slots in order |
| Vartabs.Vartab.Reset | src/Vartab.c:104-108 | all slots are cleared |
| Vartabs.Vartab.Clone | src/Vartab.c:74-93 | a clone is what storing every slot ever used in a blank table gives: it has the same bindings, never grows, and keeps at most one tombstone |
| Blocks.SpanIsDistance | src/Memory.c:187-274 | sizes and headers of a tiling add up to the distance covered |
| Blocks.PayloadsAreApart | src/Memory.c:187-274 | payloads in use share no byte, nor a header with one |
| Blocks.AllocateIsSafe | src/Memory.c:130-134 | allocation keeps the tiling and alignment, gives a payload not in use and larger than asked for, and moves or resizes no other |
| Blocks.FreeIsSafe | src/Memory.c:207-234 | freeing keeps the tiling and removes exactly that payload |
| Blocks.MergeUses | src/Memory.c:217-234 | coalescing takes no payload in use |
| Pools.RunsHeldIff | src/Memory.c:130-274 | in every heap reached from a fresh one by allocating, reallocating and freeing, the blocks tile the arena to the byte, the payloads in use are those handed out, and each holds what was last asked for it: with reallocation repaired always, as written exactly over the runs whose reallocations fit in place |
| Pools.StepServedIff | src/Memory.c:130-274 | on such a heap an operation fails exactly when the address was not handed out or no block has room: for an allocation a free one, for a reallocation the block with the free ones behind it or any other free one |
| Pools.RunServedIff | src/Memory.c:130-274 | a run stops only at an operation that cannot be served |
| HeapRuns.FreeDownRestoresIff | src/Memory.c:207-234 | freeing everything in decreasing address order leaves one free block exactly when no free block was in front of the first used one |
| HeapRuns.AllocationsAreUndone | src/Memory.c:187-274 | so it undoes any run of allocations from a fresh heap |
| HeapRuns.AllocationsFitIff | src/Memory.c:187-274 | a run of allocations from a fresh heap is served exactly when the rounded sizes and headers fit the arena and what is left in front of the last one can be a block of its own |
| HeapRuns.PayloadsAreConsecutive | src/Memory.c:187-274 | its payloads then lie one behind the other |
| HeapRuns.AllocateFailsIff | src/Memory.c:187-203 | an allocation fails exactly when every free block is smaller than the rounded size |
| HeapRuns.ReallocateFailsIff | src/Memory.c:137-167 | either reallocation fails exactly when the block and the free ones behind it are too small and, those taken in, every free block is smaller than the rounded size |
| HeapRuns.ReallocateKeepsPromiseIff | src/Memory.c:137-167 | as written, reallocation gives a payload large enough in a sound heap exactly when the size fits the block, or fits with the free blocks behind and is not split off at an odd multiple |
| HeapRuns.ReallocateBreaks | src/Memory.c:137-167 | otherwise the blocks no longer tile the arena, or the address returned is no payload of that size |
| HeapRuns.RepairedReallocateKeepsPromise | src/Memory.c:137-167 | with the size rounded and the payload returned it always does |
| HeapRuns.ReallocateToOddSize | src/Memory.c:137-167 | growing to 17 bytes in place leaves the payload marked free |
| Gpa.PascalGPA.constructor | src/Memory.c:107-121 | a fresh heap is one free block |
| Gpa.PascalGPA.FindFreeNode | src/Memory.c:187-205 | the walk along Next finds the first fit |
| Gpa.PascalGPA.SplitNode | src/Memory.c:237-274 | the headers written are those of the split list; Next and Prev stay inverse |
| Gpa.PascalGPA.ConsumeFree | src/Memory.c:217-228 | the loop adds the free nodes behind to the size |
| Gpa.PascalGPA.CoalesceNode | src/Memory.c:217-234 | the headers are those of the merged list |
| Gpa.PascalGPA.AllocateBytes | src/Memory.c:187-205 | the heap and the address are those specified; out of memory changes nothing |
| Gpa.PascalGPA.Deallocate | src/Memory.c:171-215 | the heap is the specified one |
| Gpa.PascalGPA.ReallocateBytes | src/Memory.c:137-167 | the heap and the address are those specified, as written |
| Gpa.PascalGPA.CutBack | src/Memory.c:157-161 | a block grown in place is split at the size asked for |
| Gpa.PascalGPA.MoveBytes | src/Memory.c:163-166 | another block is taken, this one freed, and the other's header returned |
| Pratt.ParsesPrinted | src/Compiler/Expr.c:1387-1474 | a printed expression, where it fits, is parsed and the loop goes on with exactly it |
| Pratt.ParsesWhole | src/Compiler/Expr.c:1435-1474 | parsing undoes printing: the tokens of the tree are consumed, the tree rebuilt, the rest left |
| Pratt.PrintIsShortest | src/Compiler/Expr.c:1387-1474 | no shorter token list parses to the same tree: the parentheses printed are needed |
| Pratt.ClassesAreLevels | src/Compiler/Expr.c:1387-1423 | the levels of the precedence table are the operator classes of the grammar, which lists them token by token |
| Pratt.DerivedParses | src/Compiler/Expr.c:1435-1474 | whatever derives from the grammar - relational over additive over multiplicative over prefix over postfix operators, binary ones from left to right - is parsed to its tree |
| Pratt.ParsedDerives | src/Compiler/Expr.c:1435-1474 | whatever is parsed derives from it |
| Pratt.ParseIsGrammar | src/Compiler/Expr.c:1387-1474 | so a parse gives a tree and a rest exactly when the tokens in front of the rest derive the tree and the rest does not go on |
| Pratt.OneTree | src/Compiler/Expr.c:1387-1474 | no token list derives two trees |
| Pratt.PrintedDerives | src/Compiler/Expr.c:1387-1474 | the printed tokens of every tree derive it |
| Pratt.TokenParser.ParseAssignmentLhs | src/Compiler/Expr.c:1435-1467 | the loop over infix routines computes the parse |
| Pratt.TokenParser.ParsePrecedence | src/Compiler/Expr.c:1469-1474 | consumes a token and parses with a bound |
| Pratt.TokenParser.PrefixRoutine | src/Compiler/Expr.c:734-741 | prefix routines: literals, variables, address-of, unary operators, grouping |
| Pratt.TokenParser.InfixRoutine | src/Compiler/Expr.c:1202-1217 | infix routines: binary operators one level tighter on the right, and the postfix accesses |
| Pratt.TokenParser.CompileExpr | src/Compiler/Expr.c:102-106 | a whole expression: what is returned and left is what the grammar reads off the tokens, and nothing is returned exactly when it reads nothing |
| Registers.StartIsSafe | src/Compiler/Emitter.c:40-47 | a fresh emitter has lost nothing and its register list is right |
| Registers.TakeKeepsValues | src/Compiler/Emitter.c:690-728 | taking the next register of the seating saves the one in use first and keeps every holder's value in its register or slot |
| Registers.TakeIsSafe | src/Compiler/Emitter.c:690-728 | with a right register list it is that register which is taken, and the list stays right |
| Registers.GiveKeepsValues | src/Compiler/Emitter.c:730-759 | freeing the newest holder brings back the value of the one before it and loses none, as written too and whatever the register list is |
| Registers.GiveIsSafeIff | src/Compiler/Emitter.c:730-759 | as written, the register list is right afterwards exactly when nothing was spilled; repaired, always |
| Registers.WriteKeepsValues | src/Compiler/Emitter.c:690-759 | a holder in its register can be written without touching the others |
| Registers.NothingLostIff | src/Compiler/Emitter.c:690-759 | over any last-in-first-out run, every value is kept in its seat and no register in use is handed out unsaved, exactly when no register is taken between an unspilling and the time nothing is outstanding, nor a fourteenth after more than 13 were spilled; the calls alone tell. Repaired, always |
| Registers.ServedIff | src/Compiler/Emitter.c:690-759 | repaired, the allocator serves a run of calls exactly when each frees something outstanding, writes to a register still held, or takes no more than the registers and the table of slots |
| Registers.CarelessTake | src/Compiler/Emitter.c:690-728 | as written, a register taken at such a time is one in use, and nothing is saved |
| Registers.CarelessTakeLoses | src/Compiler/Emitter.c:690-728 | the first other value written through it replaces that of the holder it belongs to |
| Registers.ReservedHandedOutIff | src/Compiler/Emitter.c:704 | GP, FP or SP is handed out exactly when the spill count modulo 16 is past the usable registers |
| Registers.LiveRegisterHandedOut | src/Compiler/Emitter.c:754-758 | with 14 outstanding, one free and one allocation hand out a live register unsaved |
| Registers.SpillStaysTidy | src/Compiler/Emitter.c:703-713 | while both files are unspilled last in first out, the slots in use are the cells directly below SP, and a spill takes the next one |
| Registers.UnspillTidyIff | src/Compiler/Emitter.c:730-749 | unspilling keeps that exactly when it is the last spilled of both files; otherwise the next spill overwrites a slot in use |
| Registers.FloatOverwritten | src/Compiler/Emitter.c:703-749 | one integer and one float spilled, the integer brought back: the next spill is put over the float |
| SpillMoves.MoveRuns | src/Compiler/Emitter.c:715-748 | run on the machine, a spill or an unspilling does what the allocator's model says |
| SpillMoves.SpilledComesBack | src/Compiler/Emitter.c:715-748 | a spilled register comes back, another slot written in between |
| Registers.RegisterAllocator.AllocateRegister | src/Compiler/Emitter.c:690-728 | fields, register and emitted moves are those specified |
| Registers.RegisterAllocator.FreeRegister | src/Compiler/Emitter.c:730-759 | the same for freeing, as written or repaired |
| SaveRegs.PushesInOrder | src/PVM/PVM.c:214-225 | a register list is pushed low to high |
| SaveRegs.PopOrderDescends | src/PVM/PVM.c:228-240 | with the index counted from the bank's base, a list is popped high to low |
| SaveRegs.PopsBack | src/PVM/PVM.c:213-240 | popping what was pushed, last first, restores every register and SP |
| SaveRegs.RestoresIff | src/Compiler/Emitter.c:2166-2185 | as written, saving and restoring around any call is the identity exactly for lists within R0-R7 or within F0-F7 |
| SaveRegs.RepairedRestores | src/Compiler/Emitter.c:2166-2185 | in the opposite order and with the right index it is for every list |
| Arguments.RoundingMirrors | src/Include/Common.h:224-243 | rounding a negative size mirrors rounding the positive one |
| Arguments.CallerPlaces | src/Compiler/VarList.c:395-416 | the caller's running base gives each argument's place |
| Arguments.CalleePlaces | src/Compiler/Compiler.c:1100-1132 | the callee's running offset gives each parameter's place |
| Arguments.PlacesAgreeIff | src/Compiler/Emitter.c:1888-1913 | the callee looks where the caller wrote exactly unless the running offset is -1, taken for STACK_TOP |
| Arguments.AllPlacesAgreeIff | src/Compiler/Emitter.c:1992-2001 | with no parameter of size 0, that is unless the first stack parameter has size 1 |
| Arguments.ArgumentsAreApart | src/Compiler/Emitter.c:1888-1913 | no two arguments share a register or a byte of the stack |
| Arguments.RegisterArguments | src/Compiler/Emitter.c:1894-1903 | the first four, hidden ones counted, are in the register of their number, integers in one file and floats in the other, never in GP, FP or SP |
| Arguments.ArgumentsArrive | src/Compiler/VarList.c:395-416 | once all are passed, one after the other, the callee finds each value where it looks for it, unless the first stack parameter has size 1 |
| Arguments.ArgumentsFitIff | src/Compiler/Compiler.c:1192-1198 | they lie in the area allocated exactly when the bytes counted, rounded, cover those passed; always without hidden parameter |
| Arguments.HiddenParameterOverflows | src/Compiler/Compiler.c:1192-1198 | with a hidden parameter and four others the fourth is outside |
| Calls.StepConserves | src/PVM/PVM.c:521-550 | whatever is executed, room left and depth of the return stack add up to the same |
| Calls.RunConserves | src/PVM/PVM.c:521-550 | over any run too |
| Calls.OverflowIff | src/PVM/PVM.c:521-524 | a call stops the machine exactly when no room is left, and otherwise goes to its target |
| Calls.ActivationKeepsLevel | src/PVM/PVM.c:323-345 | an activation's FP survives everything it executes and calls |
| Calls.CallReturns | src/PVM/PVM.c:323-345 | from CALL to the matching EXIT: into the callee with FP behind the old SP and SP raised by its frame, and back behind the call with FP, SP and the return stack as before |
| Calls.WithoutEnterReturnsIff | src/PVM/PVM.c:329-345 | without ENTER, SP is given back exactly when the caller's frame was empty |
| CallSites.ProcedureCallRuns | src/Compiler/Compiler.c:528-555 | the emitted words of a procedure call - pushes, SP up, arguments, CALL and return, SP down, pops - run to their end; before the pops SP is where the pushes left it, FP and the return stack as before |
| CallSites.ProcedureCallRestores | src/Compiler/Compiler.c:528-555 | with the registers saved in one low half, and their cells left alone, SP and every register saved are as before the call |
| CallSites.FunctionCallRunsIff | src/Compiler/Expr.c:268-324 | the same words in a function call's order, with the move of the return value to its register, run to their end with the value there, but the pops start where the pushes ended exactly when no argument is on the stack |
| CallSites.EmptyProcedureReturns | src/PVM/PVM.c:323-347 | a procedure that only enters and exits meets what is asked of a call |
| Frames.EnterMakesRoom | src/PVM/PVM.c:338-347 | ENTER lays the frame between what was on the stack and where the next push goes |
| Frames.CellsKeptBelow | src/PVM/PVM.c:213-240 | over an activation that lowers SP no further than it raised it, whose calls all enter, every push and every frame of what it calls is above what it had at the start; cells below keep their contents but for store instructions |
| Frames.FrameIsKept | src/PVM/PVM.c:338-347 | so from ENTER on a local that no store instruction writes keeps its value, whatever is pushed and called |
| Frames.LocalsSurviveCall | src/Compiler/Compiler.c:528-555 | the same for the caller's locals over the words of a whole procedure call |
| Frames.EnteredFindsArguments | src/Compiler/Compiler.c:1100-1132 | off the FP that ENTER gives it the callee looks where the caller put an argument off SP, exactly unless its running offset is -1 |
| Layout.PathInside | src/Compiler/Expr.c:404-467 | every access path of a record or array type stays inside the variable |
| Layout.PathsApart | src/Compiler/Expr.c:404-516 | two access paths neither of which is a prefix of the other denote disjoint bytes |
| Layout.ByteHasPath | src/Compiler/Expr.c:404-516 | no byte is wasted: each belongs to a scalar at the end of some access path |
| Layout.SelectedApart | src/Compiler/Emitter.c:1049-1077 | two different fields, or elements, do not overlap |
| Layout.Locate | src/Compiler/Expr.c:430-442 | the running location computes the path's offset |
| Layout.VariablesAreApart | src/Compiler/VarList.c:271-312 | variables of one scope are disjoint, in order, inside their space |
| Layout.VariablesAreClose | src/Compiler/VarList.c:284-292 | and less than one unit of alignment lies between neighbours |
| Layout.VariablesAreAligned | src/Compiler/VarList.c:284-292 | and aligned if the start is |
| Layout.FieldsArePacked | src/Compiler/VarList.c:133-152 | a record's fields are laid out as variables of alignment 1 |
| Layout.CompileVarList | src/Compiler/VarList.c:271-312 | one list gets consecutive addresses |
| Layout.CompileVarBlock | src/Compiler/Compiler.c:1285-1295 | lists one after the other, stopping at one that does not move the end |
| Linking.LinkPrefix | src/Compiler/Data.c:139-153 | resolving any number of references aims each at its subroutine's body and leaves the others and all other words as they were |
| Linking.LinkingIsExact | src/Compiler/Data.c:139-153 | each reference decodes to a call of, or a load of the address of, the body its subroutine was given, exactly when the distance fits 24 or 32 bits; no other word changes |
| Linking.UndefinedIsNotReached | src/Compiler/Data.c:139-153 | a reference to a subroutine without a body is aimed at 2^32 - 1, where no call gets to |
| Linking.ReferencesReachBodies | src/Compiler/Data.c:139-153 | over any run of calls, loads, other words and bodies, in any order, each call and load resolves to the last body of its subroutine exactly when the distance fits |
| Linking.LinkedCallArrives | src/PVM/PVM.c:514-550 | executed, such a call goes to the first word of the body |
| Linking.SubroutineReferences.EmitCall | src/Compiler/VarList.c:473-478 | a call is emitted and recorded |
| Linking.SubroutineReferences.EmitLoadAddress | src/Compiler/Emitter.c:1031-1039 | an address load is emitted and recorded |
| Linking.SubroutineReferences.Resolve | src/Compiler/Data.c:139-153 | all recorded references are resolved against the locations there are |

## Left out

- Floating-point arithmetic, strings, console output and file I/O, the REPL and the debugger.
- Literal folding and the pruning of literal conditions through ShouldEmit: conditions are not known at compile time and code is always emitted.
- The text and tokens of statements: the statement compiler takes syntax trees, so that Tokenizer.c, error recovery and debug information written by statements are not part of this model.
- Calls, `exit` and writes as statements or parts of expressions inside the statement compiler: expression code is the same words wherever it is placed.
- What else is compiled behind a part that took the register of a variable off the list: CompileStmt compiles such a part only where it comes last; Freeing follows a body in which another statement comes behind it.
- Registers freed and taken again inside one expression: its words are given, with the variables it frees.
- Spilling while a statement is compiled: Registers models spilling by itself, call by call, for integer registers, with the slots of both register files.
- Counters and case selectors other than 32-bit ones, more than 256 arms or pending breaks, `goto`, `with`, units, and all paths the source marks as still to do.
- Parser: calls with argument lists and type names as expressions; types and locations of expressions.
- Growth and capacity of the code, line and global buffers, which are sequences here; addresses are unbounded integers, and 32-bit wrap-around of code addresses is not modelled.
- Host pointers: VM memory is a map of bytes, heap addresses count from the first header; the 32-bit ADD of an array's base register is read as an addition.
- Bytes copied by reallocation, sizes within 16 of 2^32, whose rounding wraps, in runs of the heap, and the arena allocator.
- Instructions the statement compiler does not emit: the step function stops at MEMCPY, CALLPTR, float, string and long arithmetic instructions, although both decoders cover them.
- Registers.GiveIsSafeIff: does not model float spills in between, which change the offsets of integer slots; their number is a constant there, and UnspillTidyIff is about both.
- Compiler.PascalCompiler.AllocateRegister: does not model the case of no free register, where the source spills, because the words of a statement would depend on the spill stack; Registers models that allocator in full.
- Layout.PathsApart: does not model 32-bit wrap-around of sizes and offsets.
- Probing.PutBinds: does not model names sharing storage with the source text; a slot holds the bytes of its name.
