# Verification of scc: allocator, compiler passes, preprocessor and library codecs

A Dafny model of the parts of the Simple C Compiler (scc) whose correctness is hardest to see by
reading, with proofs about every input, run or reachable state.  `dafny verify dfyconfig.toml`
checks the project.

| files | what they model |
|---|---|
| `HeapTiles`, `HeapOps`, `HeapLinks`, `HeapSteps`, `Heap`, `HeapRealloc`, `HeapSession` | `malloc`, `free`, `realloc`: the circular free list in raw memory |
| `LowerSpec`, `LowerGen`, `LowerProof`, `LowerFresh`, `Lowering`, `LowerResolved`, `LowerBranch`, `LowerNested` | `sethi.c` of cc2: control operators to labels, branches and temporaries |
| `Switch` | `swtch.c` of cc2 and the case collection of its parser |
| `CfgGraph`, `CfgBlocks`, `CfgTrim` | `cfg.c` of cc2: blocks, reachability, trimming |
| `MacroStack`, `MacroText`, `MacroLevels`, `Preprocessor`, `MacroRuns` | macro expansion of cc1: input stack, hidesets, hide flags |
| `MacroRules`, `MacroStandard`, `MacroAgree`, `MacroExact`, `MacroFlat` | the rules of macro replacement one by one, replacement as section 6.10.3 of C99 has it, and when the code agrees |
| `MacroProcess`, `MacroMeaning`, `MacroForward`, `MacroLoop` | macro expansion move by move with the table, arguments read across inputs included: what it produces, and a text that never ends |
| `CalendarSpec`, `Calendar` | `gmtime`, `mktime`, `_systime` and the shared month table |
| `IrTree`, `IrParse`, `IrRoundTrip`, `IrUnique`, `IrLetters`, `IrParser` | the typed postfix text between cc1 and cc2 |
| `Utf8` | `wcrtomb`, `mbrtowc`, `_validutf8` |
| `Numbers`, `NumberText`, `NumberLetters` | `strtoimax`, `strtoumax`, `numtostr`, `getnum`, `_dtoi` |
| `Options`, `Figures` | the option type the others share; limits, tables and units of the source |

## How the model is built

- **Heap.** Memory is a sequence of 16-cell units; a header is a unit with `next` in cell 0 and `size`
  in cell 8, so a header write overwrites payload.  Addresses count units, `base` lies below the
  heap.  The answer of the system to `sbrk` is the parameter `grant`.  The class `Allocator` changes
  memory and `_freep` in place; a ghost sequence of tiles, free or live, says what the list denotes.
- **Lowering.** Atoms are effectful operands whose values come from an arbitrary oracle over the
  history of events, so equal histories and values mean equal behaviour.  Emitted code runs on a
  machine with labels, jumps and temporaries.  `Emitter` inserts statements as `prestmt` does.
- **Control-flow graph.** A function body is a sequence of statements with positions as labels; the
  doubly linked list of `node.c` is a pair of link sequences that skip what was deleted.
- **Macros.** Texts are sequences of tokens.  `MacroText.Expand` is the meaning of a text, and
  `Preprocessor.Lexer` is the code, pulling one token at a time, where arguments end in the input
  they begin in.  `MacroProcess.Move` is the code for all texts: the one move it makes next, given
  the table, the inputs, the phase and the copies of replacement lists under way.
  `MacroStack` is a machine of five steps without a table that covers all those moves.
  `MacroStandard.ExpandC99` is the expansion that C99 prescribes, with names that are never to be
  replaced again painted blue.  What two spellings joined by `##` lex to, and the string that `#`
  makes, are parameters of the macro table.
- **Calendar.** The month table `_daysmon` is a field of a class, and every method says for which
  year it leaves it right.
- **Postfix text.** cc1 trees keep their arguments in a chain from the last one, cc2 nodes in a chain
  from the first; printing and parsing go through real strings, decimal and hexadecimal digits
  included.  The types of declared symbols are a parameter.
- **Numbers and UTF-8.** Integers are unbounded and the widths of C are written out.

## Where the code does not do what is expected

Where a member is named, it shows the case or states the condition under which the code is right.

- Requests of SIZE_MAX - 30 up to the guard's limit pass the guard of `malloc` although their size in
  bytes wraps to zero (`Heap.WrapExactly`); the allocator is proved for all others.
- A branch on a logical condition lands past what is hoisted for the statement behind it, because the
  label is put on that statement before it is lowered; and the label is lost when that statement is
  itself a control operator, which `replace` copies another node over, or a branch on a logical
  condition, which is deleted.  The result is right on all runs if and only if the statement is of a
  kind that can be told from its form (`LowerNested.BehindExactly`).  Statements of the other kind are
  `if (a && b) x = f() && g();` (`LowerBranch.LostCall`, `LowerBranch.StaleValue`),
  `if (a && b) f() && g();` (`LowerBranch.LostLabel`) and `if (a && b) { if (c && d) f(); }`
  (`LowerNested.NestedIf`).
- Two switches in one block: only the last one's cases stay edges, so reachable statements can be
  trimmed (`CfgTrim.SwitchRecorded`, `CfgTrim.NestedSwitchLost`).  Control flow is kept if and only if
  every case lost in this way is reachable all the same (`CfgTrim.GenCfg`).
- The block of the last statement has no exit unless a switch stands in it, so trimming it starts from
  a null pointer; that happens exactly when the block is unreachable and holds no switch
  (`CfgTrim.GenCfg`), as in a function that loops for ever (`CfgTrim.EndlessLoop`).  When it is
  unreachable and does hold a switch, what stands behind the switch stays in the list.
- The comparison that sorts the cases subtracts, and is right on all of them if and only if greatest
  minus least case value does not overflow (`Switch.CompareExactly`); the chain is right in any order.
- The loop of `swtch_dir` counts past the greatest case, which overflows when that is TINT_MAX
  (`Switch.SwtchDir`); the jump through the table is a TODO of the back end
  (src/cmd/scc-cc/cc2/z80-scc/cgen.c:509-511), so `Switch.Dispatch` is what the table is made for.
- Names expanded while an argument is prescanned stay hidden in the rescan, where section 6.10.3.4 of
  C99 hides the macro's own name only; the tokens can differ (`MacroRuns.ArgumentHides`).  At every
  invocation the code replaces what C99 replaces if and only if nothing replaced in the arguments is
  replaced again in the rescan (`MacroExact.SeparateExactly`), and then the tokens are the same
  (`MacroAgree.AgreesWithC99`); for instance when constants are passed to macros whose own lists use
  other constants (`MacroFlat.FlatAgrees`, `MacroFlat.SizesFlat`).
- Macro expansion need not end when an argument is read across the end of an input
  (`MacroLoop.Diverges`); it always ends when every argument list ends in the input it begins in
  (`MacroRuns.Preprocess`).
- Before both of its carries `norm` of `mktime.c` tests for the end of int the carry moves away from.
  `Calendar.NormExactly` says for which values it does what is wanted, `Calendar.WronglyRefused` and
  `Calendar.Unguarded` show the others.
- `_systime` is right exactly from 1970 on (`Calendar.Calendar.Systime`).
- `strtoimax` and `strtoumax` leave `*end` at the digit that overflows, not behind the last digit, and
  after `0x` without a digit report that nothing was converted; section 7.8.2.3 of C99 says otherwise
  in both cases, and in no other (`Numbers.EndRight`, `Numbers.BareMarkEnd`,
  `NumberText.OverflowEnd`).
- %hhd and %hd convert their argument as C99 asks only for some arguments
  (`NumberText.ShortConversion`).
- The 51 bytes of `vfprintf` for a number leave no room for a sign or a mark beside 50 digits
  (`NumberText.FitsBuffer`, `NumberText.SignDoesNotFit`).
- cc2 reads a line of cc1 only if it is shorter than 4095 characters, and its stack needs a free place
  for every type it reads, so a tree may overflow it although its own nodes fit; with
  `IrRoundTrip.Need` counting the places, `IrRoundTrip.RoundTrip` has both limits
  (`IrRoundTrip.LongSum` meets the first with three places).

## Model

| member | source | states |
|---|---|---|
| `HeapSession.Run` | src/libc/stdlib/malloc.c:15-167 | from program start, over any sequence of malloc, free, realloc (of null too) and writes, with any answers from the system: every call does to the program's memory what C99 7.20.3 promises, every block held still shows the bytes last written to it, the free list is one address-ordered cycle through `base` with `_freep` on it, and free plus live units are exactly the units got from the break |
| `HeapSession.StepMalloc` | src/libc/stdlib/malloc.c:133-167 | a non-null result is a new pointer to as many bytes as asked for, and the bytes of every other block held are unchanged; on null nothing changed |
| `HeapSession.StepFree` | src/libc/stdlib/malloc.c:44-73 | exactly the freed pointer leaves the set the program holds; every other block keeps its bytes |
| `HeapSession.StepRealloc` | src/libc/stdlib/realloc.c:25-79 | of null: as malloc; else the new block starts with the bytes of the old one up to the shorter length, and is either in the old place or at a pointer not held before; on failure everything is as before |
| `HeapSession.MallocFree` | src/libc/stdlib/malloc.c:44-73 | malloc that needs no new core followed by free of its result restores exactly the same sequence of blocks and every payload |
| `HeapTiles.UnitsConserved` | src/libc/stdlib/malloc.c:96-116 | free units plus live units equal the units obtained from the break |
| `HeapTiles.TiledOrder` | src/libc/stdlib/malloc.c:18-38 | list order is address order, and two blocks touch exactly when they are neighbours |
| `HeapOps.FreeListCanonical` | src/libc/stdlib/malloc.c:56-70 | with coalescing the list of free blocks is determined by the set of free units, in both directions |
| `HeapOps.ReleaseSeparate` | src/libc/stdlib/malloc.c:56-70 | freeing never leaves two adjacent free blocks |
| `HeapOps.ReleaseLive` | src/libc/stdlib/malloc.c:44-73 | freeing removes exactly the freed block from the live ones |
| `HeapOps.CarveSeparate` | src/libc/stdlib/malloc.c:147-160 | taking the right end of a free block never leaves two adjacent free blocks |
| `HeapOps.CarveLive` | src/libc/stdlib/malloc.c:147-160 | taking a block adds exactly that block to the live ones |
| `HeapOps.CarvedDisjoint` | src/libc/stdlib/malloc.c:147-160 | the block taken overlaps no block that was live |
| `HeapOps.CarveThenRelease` | src/libc/stdlib/malloc.c:44-73 | taking units from a free block and freeing them is the identity on the blocks |
| `HeapSteps.JoinNextTest` | src/libc/stdlib/malloc.c:56-62 | the address test of free succeeds exactly when the right neighbour is free |
| `HeapSteps.JoinPrevTest` | src/libc/stdlib/malloc.c:64-70 | the address test of free succeeds exactly when the left neighbour is free and not `base` |
| `HeapSteps.FreedInv` | src/libc/stdlib/malloc.c:52-72 | the header writes of free keep the whole list invariant for the joined blocks and touch no other payload |
| `HeapSteps.TakenInv` | src/libc/stdlib/malloc.c:147-159 | the header writes of malloc keep the whole list invariant, both for an exact fit and for a split, and touch no payload |
| `HeapRealloc.HalvedInv` | src/libc/stdlib/realloc.c:36-41 | splitting a live block in two keeps the list invariant and the payload of the part kept |
| `HeapRealloc.GrewInv` | src/libc/stdlib/realloc.c:46-67 | growing into the free block behind, wholly or in part, keeps the list invariant and every payload |
| `Heap.NUnits` | src/libc/stdlib/malloc.c:142-143 | the smallest number of units with room for a header and the bytes asked for |
| `Heap.WrapExactly` | src/libc/stdlib/malloc.c:139-143 | from the byte count alone: which requests are refused, which pass the guard although their size in bytes exceeds SIZE_MAX and then wraps to zero, and that all others are neither |
| `Heap.FitMeans` | src/libc/stdlib/malloc.c:145-165 | the search takes a free block with at least as many units, and on the way round the list passed over none |
| `Heap.Allocator.PrevChunk` | src/libc/stdlib/malloc.c:23-38 | the walk ends at the nearest free block below the given one, wherever it starts |
| `Heap.Allocator.Free` | src/libc/stdlib/malloc.c:44-73 | the block is joined with its free neighbours, `_freep` is its predecessor, all other payloads are kept, and null does nothing |
| `Heap.Allocator.MoreCore` | src/libc/stdlib/malloc.c:96-116 | either nothing changes, or the heap grew by the larger of the request and NALLOC units, released into the list |
| `Heap.Allocator.Lap` | src/libc/stdlib/malloc.c:145-165 | one lap of the list stops before the first fit after `_freep`, and finds none exactly when there is none |
| `Heap.Allocator.Search` | src/libc/stdlib/malloc.c:145-166 | at most one request for core, which suffices; the block used is the next fit, or the last one after growing |
| `Heap.Allocator.Malloc` | src/libc/stdlib/malloc.c:133-167 | null exactly for no bytes, for a size in bytes above SIZE_MAX, or when nothing fits and the break is refused; otherwise the right end of the next-fit block, disjoint from all live blocks, whose payloads are kept |
| `HeapRealloc.Shrink` | src/libc/stdlib/realloc.c:36-41 | the block keeps its start and its bytes, the rest is freed |
| `HeapRealloc.Absorb` | src/libc/stdlib/realloc.c:46-68 | the block grows in place by exactly what it needs of the free block behind it |
| `HeapRealloc.CopyBytes` | src/libc/stdlib/realloc.c:73-76 | the bytes are copied and nothing outside the destination's payload changes |
| `HeapRealloc.Move` | src/libc/stdlib/realloc.c:70-79 | a new block with the old bytes, the old one freed, bystanders kept; nothing changes if malloc fails |
| `HeapRealloc.Realloc` | src/libc/stdlib/realloc.c:9-80 | all paths: errno, when the result is null, when it is the same pointer, the bytes kept, the other blocks untouched |
| `LowerFresh.LoweringCorrect` | src/cmd/scc-cc/cc2/sethi.c:152-195 | for every expression over effectful atoms with `!`, logical and, logical or, `?:` and comma: running the hoisted statements and then evaluating the residual node gives the events, their order and the value of C's evaluation |
| `LowerFresh.ConditionCorrect` | src/cmd/scc-cc/cc2/sethi.c:32-63 | the code of a condition stops at exactly one of its two labels, at the first exactly when the condition holds, after exactly the events C prescribes |
| `LowerProof.BoolCorrect` | src/cmd/scc-cc/cc2/sethi.c:32-63 | the same wherever the code is embedded and whatever the landing labels are |
| `LowerProof.AndCorrect` | src/cmd/scc-cc/cc2/sethi.c:42-47 | the second operand of logical and runs exactly when the first holds |
| `LowerProof.OrCorrect` | src/cmd/scc-cc/cc2/sethi.c:48-53 | the second operand of logical or runs exactly when the first does not hold |
| `LowerProof.ExprCorrect` | src/cmd/scc-cc/cc2/sethi.c:152-195 | hoisted statements and residual node together mean the expression, and older temporaries keep their values |
| `LowerProof.LogicCorrect` | src/cmd/scc-cc/cc2/sethi.c:65-94 | the temporary of a logical expression ends up 1 or 0 as the expression is true or false |
| `LowerProof.CondCorrect` | src/cmd/scc-cc/cc2/sethi.c:108-137 | exactly the chosen arm of `?:` runs, and its value is in the temporary at the join |
| `LowerProof.CommaCorrect` | src/cmd/scc-cc/cc2/sethi.c:96-106 | left operands of commas are run for their effects, in order |
| `LowerFresh.GenFresh` | src/cmd/scc-cc/cc2/sethi.c:65-137 | all labels of the emitted code are new and mark one statement each |
| `LowerFresh.SelfEmbedded` | src/cmd/scc-cc/cc2/node.c:133-137 | code with distinct labels means the same at every place of a program: each of its labels is found where the code put it |
| `LowerResolved.GenRefs` | src/cmd/scc-cc/cc2/sethi.c:65-195 | what is hoisted for an expression jumps to labels it marks itself |
| `LowerResolved.BoolRefs` | src/cmd/scc-cc/cc2/sethi.c:32-63 | the code of a condition jumps to labels it marks itself and to both of its landing labels |
| `LowerGen.GenResidual` | src/cmd/scc-cc/cc2/sethi.c:139-150 | lowering what has been lowered emits nothing, so the repeated calls through `replace` and `assignnode` are harmless |
| `Lowering.Emitter.Bool` | src/cmd/scc-cc/cc2/sethi.c:32-63 | the statements inserted are those of the specification, in order, after what was there |
| `Lowering.Emitter.LogicExpr` | src/cmd/scc-cc/cc2/sethi.c:65-94 | the same for the value of a logical expression |
| `Lowering.Emitter.CommaList` | src/cmd/scc-cc/cc2/sethi.c:96-106 | the same for discarded operands |
| `Lowering.Emitter.Ternary` | src/cmd/scc-cc/cc2/sethi.c:108-137 | the same for a conditional |
| `Lowering.Emitter.Sethi` | src/cmd/scc-cc/cc2/sethi.c:152-195 | the same for any expression, with the residual node it returns |
| `LowerNested.BehindExactly` | src/cmd/scc-cc/cc2/sethi.c:139-191 | for a branch on a logical condition and any statement behind it, an expression or another branch: on all runs the code can be assembled and does what C prescribes if and only if the statement is an operand or an operation, or a branch on no logical condition, that reads no hoisted value and hoists nothing with effects |
| `LowerNested.TestLands` | src/cmd/scc-cc/cc2/sethi.c:168-181 | a branch behind a branch: when the first is not taken the second is met without what was hoisted for its condition, and one on a logical condition is not met at all |
| `LowerNested.LogicBehindLogic` | src/cmd/scc-cc/cc2/node.c:208-218 | a logical branch behind a logical branch never keeps the label that the first one jumps to |
| `LowerNested.NestedIf` | src/cmd/scc-cc/cc2/sethi.c:168-181 | a concrete nested if for which control ends at no statement |
| `LowerBranch.BranchLands` | src/cmd/scc-cc/cc2/sethi.c:168-181 | for every expression statement: a branch that is taken runs nothing more, and one that is not lands past everything hoisted for the statement behind it and runs just its residual node, or finds no statement when the label was lost |
| `LowerBranch.BranchResolved` | src/cmd/scc-cc/cc2/sethi.c:139-150 | the label jumped to marks a statement exactly when the statement behind is no control operator |
| `LowerBranch.BranchExactly` | src/cmd/scc-cc/cc2/sethi.c:152-191 | the if-and-only-if of `BehindExactly` for expression statements |
| `LowerBranch.QuietExactly` | src/cmd/scc-cc/cc2/sethi.c:152-195 | the syntactic test for effects is exact: an expression that passes adds no event and has the value computed for it, one that fails adds an event on every run |
| `LowerBranch.LostCall` | src/cmd/scc-cc/cc2/sethi.c:168-181 | a concrete branch and statement two of whose prescribed calls never happen |
| `LowerBranch.StaleValue` | src/cmd/scc-cc/cc2/sethi.c:168-181 | the same statement stores any value its temporary happens to hold |
| `LowerBranch.LostLabel` | src/cmd/scc-cc/cc2/sethi.c:139-150 | a concrete branch and statement for which control ends at no statement |
| `Switch.Frame.AddCase` | src/cmd/scc-cc/cc2/parser.c:337-363 | `min` and `max` stay the least and greatest case value, and the cases are kept in order |
| `Switch.Frame.AddDefault` | src/cmd/scc-cc/cc2/parser.c:337-350 | the last default label is the one kept |
| `Switch.Collect` | src/cmd/scc-cc/cc2/parser.c:337-383 | any sequence of case and default labels leaves the cases in order, their bounds and the default |
| `Switch.CompileSwitch` | src/cmd/scc-cc/cc2/swtch.c:10-93 | for any sequence of case and default labels with distinct values and any sorting of the cases collected from it: every discriminant goes to the case with its value, without one to the last default label, without either behind the body; the chain evaluates the discriminant once and lands there, and the table, missing only when a case is TINT_MAX, leads to the same label for every value |
| `Switch.DestinationGoes` | src/cmd/scc-cc/cc2/swtch.c:113-122 | the destination in terms of the positions of the labels, cases and defaults |
| `Switch.BoundsOfSorted` | src/cmd/scc-cc/cc2/parser.c:337-363 | the bounds kept while collecting are the first and last value after sorting |
| `Switch.SelectOrder` | src/cmd/scc-cc/cc2/parser.c:387-415 | with distinct values the order of the cases does not matter, so sorting them is safe |
| `Switch.CompareExactly` | src/cmd/scc-cc/cc2/parser.c:385-399 | the comparison given to qsort orders all cases of a switch if and only if greatest minus least value is a TINT |
| `Switch.SwtchIf` | src/cmd/scc-cc/cc2/swtch.c:10-50 | the discriminant is stored once and compared with every case in order |
| `Switch.SwitchCorrect` | src/cmd/scc-cc/cc2/swtch.c:10-50 | the chain evaluates the discriminant once and goes to the label the source switch selects, default or end included |
| `Switch.SwtchDir` | src/cmd/scc-cc/cc2/swtch.c:74-89 | the table has one entry for each value from min to max, and each entry is the label the switch selects for that value; there is none exactly when max is TINT_MAX |
| `Switch.TableAgreesWithChain` | src/cmd/scc-cc/cc2/swtch.c:10-93 | a table that is right from min to max selects what the chain selects for every discriminant, inside or outside that range |
| `CfgGraph.Visit` | src/cmd/scc-cc/cc2/cfg.c:219-239 | marks only what is reachable from the block and closes the marks under edges, on any graph, cycles included |
| `CfgGraph.Mark` | src/cmd/scc-cc/cc2/cfg.c:246-246 | exactly the blocks reachable from the entry end up marked |
| `CfgBlocks.MarkAll` | src/cmd/scc-cc/cc2/cfg.c:175-217 | a statement is a block entry exactly when some statement opens it, and the count of blocks is right |
| `CfgBlocks.EntryExactly` | src/cmd/scc-cc/cc2/cfg.c:175-217 | blocks begin at the first statement, behind returns, branches and jumps, where these and the cases of switches go to, and nowhere else |
| `CfgBlocks.NumberBlocks` | src/cmd/scc-cc/cc2/cfg.c:165-173 | blocks are numbered in order, a new one at each entry, as many as markbb counted |
| `CfgBlocks.BuildEdges` | src/cmd/scc-cc/cc2/cfg.c:127-163 | the exits and edges recorded are those of the statements, the last one of a block deciding |
| `CfgTrim.SwitchRecorded` | src/cmd/scc-cc/cc2/cfg.c:151-154 | the cases of a switch stay edges of its block exactly when no other switch follows in the same block |
| `CfgTrim.NestedSwitchLost` | src/cmd/scc-cc/cc2/cfg.c:202-209 | a concrete body with a switch right behind a switch, where a statement control can reach is not marked |
| `CfgTrim.FlowCovered` | src/cmd/scc-cc/cc2/cfg.c:127-163 | every step of control stays inside a block or follows a recorded edge |
| `CfgTrim.EdgeStands` | src/cmd/scc-cc/cc2/cfg.c:127-163 | every recorded edge stands for a step of control from a statement of the one block to one of the other |
| `CfgTrim.ReachedIsMarked` | src/cmd/scc-cc/cc2/cfg.c:219-239 | every statement control can get to lies in a marked block, if the cases of overwritten switches do |
| `CfgTrim.MarkedIsReached` | src/cmd/scc-cc/cc2/cfg.c:219-239 | nothing is marked that steps of control between blocks do not lead to |
| `CfgTrim.DelRange` | src/cmd/scc-cc/cc2/node.c:189-206 | the statements between the two ends, and no others, leave the doubly linked list, which stays well linked |
| `CfgTrim.LastBlockExit` | src/cmd/scc-cc/cc2/cfg.c:136-139 | when the block of the last statement has no exit recorded |
| `CfgTrim.TrimKeepsControlFlow` | src/cmd/scc-cc/cc2/cfg.c:241-254 | what can run stays in the list and whatever it falls into is still its neighbour |
| `CfgTrim.TrimLast` | src/cmd/scc-cc/cc2/cfg.c:241-254 | an unreachable last block that holds a switch leaves the list up to that switch, and what stands behind it stays |
| `CfgTrim.GenCfg` | src/cmd/scc-cc/cc2/cfg.c:256-273 | the statements that remain are exactly those of reachable blocks and, when the last block is unreachable, those behind its switch; steps of control between blocks lead to every reachable block, and with one switch per block to no other; the list is well linked; all control flow is kept if and only if every case of a reached switch that a later one of its block overwrites is reachable in the graph; the missing exit is dereferenced exactly when the last block is unreachable and holds no switch |
| `CfgTrim.EndlessLoop` | src/cmd/scc-cc/cc2/cfg.c:241-254 | the body of a function that loops for ever is such a case |
| `MacroStack.ReachableStacks` | src/cmd/scc-cc/cc1/cpp.c:370-480 | in every reachable input stack each macro input past copymacro has its symbol hidden, no two of them share a symbol, every hidden symbol is in the hideset of one of them, and nothing is hidden when no macro input is left |
| `MacroStack.ReachableHidesets` | src/cmd/scc-cc/cc1/cpp.c:370-390 | in no reachable stack does a hideset hold more than its 127 places |
| `MacroStack.ActKeeps` | src/cmd/scc-cc/cc1/cpp.c:402-480 | each single step (reading, beginning a macro, prescanning an argument, installing the replacement, ending an input) keeps the invariant behind that |
| `MacroRules.RawBesideCat` | src/cmd/scc-cc/cc1/cpp.c:216-245 | a parameter with `##` on either side puts in its argument as written, joined across the `##`, and replaces nothing |
| `MacroRules.ReplacedElsewhere` | src/cmd/scc-cc/cc1/cpp.c:246-269 | any other parameter puts in its argument replaced on its own |
| `MacroRules.OtherElements` | src/cmd/scc-cc/cc1/cpp.c:286-354 | tokens of the list are copied, `#` quotes the argument as written, `##` adds nothing |
| `MacroRules.AllRaw` | src/cmd/scc-cc/cc1/cpp.c:216-245 | where every parameter stands beside `##` nothing is replaced and the macros of the table do not matter |
| `MacroRules.RawByC99` | src/cmd/scc-cc/cc1/cpp.c:216-269 | the standard's list treats its parameters the same way |
| `MacroRules.ScannedOrRaw` | src/cmd/scc-cc/cc1/cpp.c:234-269 | and so do the moves: an argument beside `##` is not scanned, any other one is |
| `MacroRules.Joined` | src/cmd/scc-cc/cc1/cpp.c:303-310 | the list x ## y joins the last token of the one argument and the first of the other as they are written |
| `MacroRules.Stays` | src/cmd/scc-cc/cc1/cpp.c:440-458 | what is no unhidden macro name stays, and so does a function-like one without a parenthesis behind it |
| `MacroRules.StaysByC99` | src/cmd/scc-cc/cc1/cpp.c:440-458 | the same in the standard, where a name hidden by its own replacement is never replaced again |
| `MacroRules.Invocations` | src/cmd/scc-cc/cc1/cpp.c:178-213 | an object-like name, or a function-like one with one nested argument per parameter in parentheses, is an invocation with these arguments; with another number it is an error |
| `MacroRules.Invoked` | src/cmd/scc-cc/cc1/cpp.c:440-480 | an invocation becomes its list, scanned with the name and what its arguments replaced hidden, and then the rest |
| `MacroText.ArgumentsSpelled` | src/cmd/scc-cc/cc1/cpp.c:142-213 | arguments, commas and closing parenthesis spell exactly the text read, and every argument has matched parentheses and no comma outside them |
| `MacroText.ArgumentUnique` | src/cmd/scc-cc/cc1/cpp.c:127-176 | and that reading is the only one |
| `MacroLevels.ExpandFresh` | src/cmd/scc-cc/cc1/cpp.c:451-452 | only symbols that are macros and not hidden are ever expanded, however deep |
| `MacroLevels.GrowRemaining` | src/cmd/scc-cc/cc1/cpp.c:469-472 | adding symbols to the hidesets of the inputs below does not change what they still have to produce |
| `MacroLevels.InvokeAdvances` | src/cmd/scc-cc/cc1/cpp.c:440-480 | entering a macro leaves what is still to be produced unchanged and makes it strictly cheaper |
| `MacroLevels.FinishAdvances` | src/cmd/scc-cc/cc1/lex.c:133-165 | ending a macro input restores the symbols hidden before it and what remains below |
| `Preprocessor.ReadArgument` | src/cmd/scc-cc/cc1/cpp.c:127-176 | the loop with its nesting depth finds the argument of the specification, or that there is none |
| `Preprocessor.ReadArguments` | src/cmd/scc-cc/cc1/cpp.c:178-213 | the same for the whole argument list |
| `Preprocessor.ArgEnds` | src/cmd/scc-cc/cc1/cpp.c:247-261 | after an argument has been expanded the stack is as before but for grown hidesets, and exactly the same symbols are hidden |
| `Preprocessor.FullTable` | src/cmd/scc-cc/cc1/cpp.c:376-386 | a hideset overflows only when there are more than NR_MACROARG macros |
| `Preprocessor.Lexer.MoreInput` | src/cmd/scc-cc/cc1/lex.c:303-337 | the macro inputs that have ended are dropped and their hidesets unhidden, nothing else |
| `Preprocessor.Lexer.ExpandArg` | src/cmd/scc-cc/cc1/cpp.c:234-269 | the buffer gets the expansion of the argument; stack and hide flags are restored |
| `Preprocessor.Lexer.CopyMacro` | src/cmd/scc-cc/cc1/cpp.c:271-368 | the buffer gets the replacement list with expanded, raw, quoted and joined arguments |
| `Preprocessor.Lexer.ExpandName` | src/cmd/scc-cc/cc1/cpp.c:440-480 | the name is left alone, or replaced so that what remains to be produced is the same, or the error is the one the specification has |
| `Preprocessor.Lexer.Next` | src/cmd/scc-cc/cc1/lex.c:896-922 | each call returns the first token of what remains to be produced and leaves the rest, for every stack; it always terminates |
| `MacroRuns.Preprocess` | src/cmd/scc-cc/cc1/lex.c:896-922 | reading any text under any macro table terminates, gives the tokens of the specification and leaves no symbol hidden, when every invocation's arguments end in the same input |
| `MacroRuns.QuietArguments` | src/cmd/scc-cc/cc1/cpp.c:469-475 | when the arguments contain nothing to expand, the rescan hides the macro's own symbol and no other, as C99 asks, and the condition of `MacroAgree.AgreesWithC99` holds at the invocation |
| `MacroRuns.ArgumentHides` | src/cmd/scc-cc/cc1/cpp.c:469-475 | the code's expansion and that of C99 differ: with F(x) for `x B` and B for 1, F(B) gives `1 B` and not `1 1` |
| `MacroAgree.AgreesWithC99` | src/cmd/scc-cc/cc1/cpp.c:271-475 | for every table and text: if at no invocation a symbol replaced in the arguments is replaced again in the rescan, the code produces the tokens, or the failure, that section 6.10.3.4 of C99 prescribes |
| `MacroAgree.ExpandAgree` | src/cmd/scc-cc/cc1/cpp.c:440-475 | the same below any invocation: with more symbols hidden than C99 hides, none of which it replaces, tokens, symbols replaced and steps are the same |
| `MacroAgree.ExpandBlues` | src/cmd/scc-cc/cc1/cpp.c:271-368 | names not to be replaced again were hidden or replaced on the way, so the code, which has no such names, leaves them alone too |
| `MacroExact.SeparateExactly` | src/cmd/scc-cc/cc1/cpp.c:469-475 | for every text that C99 expands: at every invocation the rescan of the code gives the tokens of C99 by replacing the same symbols if and only if that condition holds |
| `MacroFlat.FlatAgrees` | src/cmd/scc-cc/cc1/cpp.c:271-475 | a condition on the text and the definitions it uses: constants anywhere, function-like macros only with constants as arguments and with lists that use other constants; there code and C99 agree |
| `MacroFlat.SizesFlat` | src/cmd/scc-cc/cc1/cpp.c:271-475 | a table and a text that meet it, although two tokens can be joined to the name passed |
| `MacroProcess.EveryProcess` | src/cmd/scc-cc/cc1/cpp.c:127-480 | for every table and text and after any number of moves, however arguments are spread over inputs: the move that comes next is defined, all moves so far were steps of the machine of `MacroStack.ReachableStacks`, and what that says of hide flags and hidesets holds |
| `MacroProcess.MoveSound` | src/cmd/scc-cc/cc1/cpp.c:127-480 | every single move is one step of that machine or none, and keeps the copies under way matched with the macros of the stack |
| `MacroProcess.ArgumentsMoveByMove` | src/cmd/scc-cc/cc1/cpp.c:127-213 | from whichever inputs the tokens come, a call gets exactly the argument list they spell |
| `MacroMeaning.ProcessExpands` | src/cmd/scc-cc/cc1/cpp.c:234-480 | for every table and every text whose invocations end in the input they begin in: the moves come to one end, with the tokens of the expansion function, with the error for a wrong number of arguments, or with a full hideset, the last only for a table of more macros than a hideset has places |
| `MacroMeaning.Level` | src/cmd/scc-cc/cc1/lex.c:896-922 | the same from any stack a run can have between two tokens, nested copies and arguments included: the inputs down to the parameter or file are read to their end and only hidesets below have grown |
| `MacroMeaning.Copies` | src/cmd/scc-cc/cc1/cpp.c:271-368 | from any element of a replacement list the moves build the rest of it as specified, prescans included |
| `MacroMeaning.ProcessIsC99` | src/cmd/scc-cc/cc1/cpp.c:234-480 | under the condition of `MacroAgree.AgreesWithC99` the moves end with the tokens of section 6.10.3.4 of C99, or with a full hideset as above |
| `MacroForward.NameFallsThrough` | src/cmd/scc-cc/cc1/cpp.c:178-213 | a function-like name that ends its list and finds its parenthesis below: the run ends as the run with the name in the input below and every macro above it ended |
| `MacroForward.ForwardedCall` | src/cmd/scc-cc/cc1/cpp.c:178-213 | with G standing for the function-like F, G and an argument list end as F and that list do, whatever the list |
| `MacroForward.ForwardedExpands` | src/cmd/scc-cc/cc1/cpp.c:178-213 | so G and the list give the tokens of F and the list |
| `MacroLoop.Diverges` | src/cmd/scc-cc/cc1/cpp.c:178-213 | with F(x) for `x` and G for `F ( ( G )`, the process that reads `( G )` still goes on after any number of moves, and for every n it comes, after n moves or more, to be 2n inputs deeper with nothing hidden and the same text to read |
| `MacroLoop.Lap` | src/cmd/scc-cc/cc1/cpp.c:178-213 | one lap: the argument of F is begun in G's list and ended by the text below, when G is no longer hidden |
| `MacroLoop.DivergenceFlagged` | src/cmd/scc-cc/cc1/cpp.c:178-213 | on that text the expansion function reports an invocation whose arguments leave the input |
| `CalendarSpec.YearStep` | src/libc/time/_daysyear.c:3-11 | the closed form of the day number grows by the length of each year |
| `CalendarSpec.NewYearAgrees` | src/libc/time/_newyear.c:4-15 | the closed-form weekday of 1 January agrees with counting days from Thursday, 1 January 1970 |
| `CalendarSpec.InstantUnique` | src/libc/time/gmtime.c:14-32 | fields in range are determined by the instant they denote |
| `Figures.Months` | src/libc/time/_daysyear.c:1-11 | the days of the months and the day each begins on, in common and leap years |
| `Figures.LeapRule` | src/libc/time/_daysyear.c:3-11 | a year has 366 days exactly when it is divisible by 4 and not by 100, or by 400 |
| `Calendar.Norm` | src/libc/time/mktime.c:8-31 | for every int: carried, refused, or a step that leaves int, each exactly when its condition holds |
| `Calendar.NormExactly` | src/libc/time/mktime.c:8-31 | that is the wanted outcome (value in range, carry the rounded-down quotient, refused only if the carry is not an int) exactly when the number carried into keeps a distance to the ends of int that the value determines |
| `Calendar.WronglyRefused` | src/libc/time/mktime.c:17-18 | a carry that is an int and is refused |
| `Calendar.Unguarded` | src/libc/time/mktime.c:13-27 | carries past either end of int that no guard stops, and values that cannot be negated or multiplied back |
| `Calendar.Calendar.NormalizeDate` | src/libc/time/mktime.c:60-86 | the two loops find the one date in range with the same day number, exactly when it lies in the years they can count |
| `Calendar.Calendar.Normalize` | src/libc/time/mktime.c:33-98 | for all int fields: a step leaves int exactly when a carry does; else accepted exactly when no carry is refused and start and end lie in the years 1900 to 9999; then all fields are in range, weekday and day of year are right and the instant is the same |
| `Calendar.Calendar.Systime` | src/libc/arch/posix/_systime.c:5-21 | the instant exactly when the year is 1970 or later |
| `Calendar.Calendar.Mktime` | src/libc/time/mktime.c:100-106 | for all int fields: -1 for what normalize refuses, else the instant of the normalised fields exactly from 1970 on |
| `Calendar.Calendar.Gmtime` | src/libc/time/gmtime.c:7-39 | for every t >= 0 the fields are in range, denote t, and `_daysmon[FEB]` is left right for the year |
| `Calendar.GmtimeThenSystime` | src/libc/arch/posix/_systime.c:5-21 | _systime of gmtime's fields is t |
| `Calendar.MktimeThenGmtime` | src/libc/time/mktime.c:33-106 | whenever mktime accepts a time at or after the epoch, gmtime of its result gives exactly the fields mktime stored, the weekday computed in two ways included |
| `Calendar.EpochBoundary` | src/libc/arch/posix/_systime.c:11-12 | fields in range are at or after the epoch exactly when the year is 1970 or later |
| `Utf8.ValidUtf8` | src/libc/wchar/_validutf8.c:11-31 | the scan of the table gives validity and length, for every value but -1 |
| `Utf8.Wcrtomb` | src/libc/wchar/wcrtomb.c:8-38 | the bytes of section 3 of RFC 3629 are written and no others, or -1 and an untouched buffer for a character the table excludes |
| `Utf8.Mbstate.Mbrtowc` | src/libc/wchar/mbrtowc.c:10-98 | result and saved state are those of feeding the bytes one at a time, from any state a call can leave |
| `Utf8.Mbstate.Flush` | src/libc/wchar/mbrtowc.c:25-30 | a null string reports a pending character and leaves the initial state |
| `Utf8.RoundTrip` | src/libc/wchar/mbrtowc.c:30-92 | what the encoder wrote is read back as the same character whatever follows, with the right count and the initial state |
| `Utf8.OnlyEncodings` | src/libc/wchar/mbrtowc.c:37-98 | nothing else is ever read as a character |
| `Utf8.AcceptsExactly` | src/libc/wchar/mbrtowc.c:37-98 | a call from the initial state gives wc if and only if its input starts with the encoding of wc, a character valid in the table |
| `Utf8.PrefixFree` | src/libc/wchar/wcrtomb.c:17-38 | no encoding is the start of another, so decoding is injective |
| `Utf8.FeedConcat` | src/libc/wchar/mbrtowc.c:59-87 | stopping in the middle of a character and going on with the next call gives what one call would have given |
| `Utf8.Resumable` | src/libc/wchar/mbrtowc.c:30-92 | however an encoding is split over calls, every call but the last answers -2 and uses its whole piece, and the last gives the character, uses exactly the missing bytes and leaves the initial state |
| `Numbers.Strtoimax` | src/libc/inttypes/strtoimax.c:11-64 | the exact value of the subject sequence whenever it is representable, INTMAX_MIN included, else clamped with ERANGE and `*end` at the first digit too many; `*end` is that of C99 exactly without ERANGE and without a bare `0x` |
| `Numbers.Strtoumax` | src/libc/inttypes/strtoumax.c:11-61 | the same for unsigned results, a minus sign negating modulo 2^64 |
| `Numbers.EndRight` | src/libc/inttypes/strtoimax.c:42-64 | where the readers leave `*end` is where C99 wants it if and only if the magnitude is within the limit and the text is not a `0x` without a digit |
| `Numbers.BareMarkEnd` | src/libc/inttypes/strtoimax.c:30-38 | on `0x` they end at the start, C99 behind the `0` |
| `Numbers.ScanPrefix` | src/libc/inttypes/strtoimax.c:20-38 | spaces, sign, and base from the `0` and `0x` marks |
| `Numbers.SubjectMaximal` | src/libc/inttypes/strtoimax.c:42-42 | the subject sequence is the longest run of digits of its base |
| `NumberLetters.SkipsSpaces` | src/libc/inttypes/strtoimax.c:21-22 | exactly the blanks and the control characters from tab to carriage return are skipped |
| `NumberLetters.DigitLetters` | src/libc/stdlib/_dtoi.c:7-17 | the digits of all bases up to 36 in either case, and no other character is one |
| `NumberText.NumToStr` | src/libc/stdio/vfprintf.c:73-101 | the buffer holds sign, mark, padding and digits ending at its top, and nothing else was written |
| `NumberText.FitsBuffer` | src/libc/stdio/vfprintf.c:73-101 | with a precision of at most 50, the text fits the buffer of vfprintf exactly when precision, sign and mark together take at most 50 characters |
| `NumberText.SignDoesNotFit` | src/libc/stdio/vfprintf.c:73-101 | `%+.50d` needs 51 |
| `NumberText.TextReadsBack` | src/libc/stdio/vfprintf.c:73-101 | the text reads back whole to sign and value in its own base, and in base 0 when it shows its base |
| `NumberText.GetNum` | src/libc/stdio/vfprintf.c:35-71 | the magnitude and sign of a signed argument, INTMAX_MIN included, or the argument modulo the width of its type; for %hhd and %hd what `ShortConversion` is about |
| `NumberText.PrintThenRead` | src/libc/stdio/vfprintf.c:35-101 | printing a signed argument in base 8, 10 or 16 and reading the text with strtoimax gives the argument |
| `NumberText.PrintThenReadUnsigned` | src/libc/stdio/vfprintf.c:35-101 | the same for unsigned arguments and strtoumax |
| `NumberText.ShortConversion` | src/libc/stdio/vfprintf.c:41-46 | for which arguments the signed conversions %hhd and %hd show what C99 asks for |
| `NumberText.DigitReads` | src/libc/stdlib/_dtoi.c:7-17 | every digit character of printf is read back as its digit and is no space, sign or mark |
| `NumberLetters.BodyInCase` | src/libc/stdio/vfprintf.c:80-84 | the digits printed are those of the conversion's case |
| `NumberLetters.TextParts` | src/libc/stdio/vfprintf.c:87-98 | what stands in front of them: the sign, and for `#` 0x or 0X before a hexadecimal number that is not zero and a zero before an octal one without |
| `NumberText.OverflowEnd` | src/libc/inttypes/strtoimax.c:42-52 | on a 20-digit number they end inside it |
| `IrTree.Printer.EmitNode` | src/cmd/scc-cc/cc1/code.c:161-166 | appends the words of the tree in postfix order, the colon of a conditional and a cast to void printing nothing |
| `IrTree.Printer.EmitPars` | src/cmd/scc-cc/cc1/code.c:465-479 | appends the arguments of a call in source order |
| `IrRoundTrip.Reads` | src/cmd/scc-cc/cc2/parser.c:140-283 | the words of a tree, met with any stack, leave the stack one deeper with exactly the tree rebuilt, if and only if the places it needs are free; otherwise cc2 stops with an overflow |
| `IrRoundTrip.ReadsPars` | src/cmd/scc-cc/cc2/parser.c:448-473 | the arguments of a call wait on the stack in source order above whatever calls are pending |
| `IrRoundTrip.TakesPars` | src/cmd/scc-cc/cc2/parser.c:458-473 | a call takes exactly its own arguments off the stack, however many calls are pending below |
| `IrRoundTrip.ArgumentsInOrder` | src/cmd/scc-cc/cc2/parser.c:458-473 | following the links of a rebuilt call meets its arguments in the order of the source |
| `IrRoundTrip.SplitLine` | src/cmd/scc-cc/cc2/parser.c:285-296 | strtok finds exactly the words that were printed |
| `IrRoundTrip.RoundTrip` | src/cmd/scc-cc/cc2/parser.c:298-323 | cc2 rebuilds from cc1's line, whatever follows it, the tree that was printed if and only if the line is shorter than the 4095 characters of its buffer and the tree fits the 50 places; otherwise it stops with the error for the first of the two that fails |
| `IrRoundTrip.LongSum` | src/cmd/scc-cc/cc2/parser.c:301-313 | a sum that needs three places and whose line is too long |
| `IrUnique.Unambiguous` | src/cmd/scc-cc/cc1/code.c:161-479 | two trees with the same line are the same tree, casts to void aside, which print nothing, and with constants in the range of their types |
| `IrUnique.SuffixSame` | src/cmd/scc-cc/cc1/code.c:161-479 | the last words of a text determine the tree they end, however far back it begins |
| `IrLetters.ConstantsArrive` | src/cmd/scc-cc/cc1/code.c:215-235 | every constant in the range of its type arrives unchanged and a negative one as its two's complement: 8 bits for C, K and B, 16 for I and N, 32 for W and Z, 64 for the rest |
| `IrLetters.KindLetters` | src/cmd/scc-cc/cc2/parser.c:45-135 | which letters begin unary, binary, assigning, conditional and calling words and constants |
| `IrLetters.UnaryWords` | src/cmd/scc-cc/cc2/parser.c:236-283 | a unary word takes one operand off the stack and puts its node there |
| `IrLetters.BinaryWords` | src/cmd/scc-cc/cc2/parser.c:236-283 | a binary word takes two, the left one from below |
| `IrLetters.AssignWords` | src/cmd/scc-cc/cc2/parser.c:236-283 | an assignment takes two, with the operator behind its colon if there is one |
| `IrLetters.LeafWords` | src/cmd/scc-cc/cc2/parser.c:184-234 | a symbol is pushed by identifier and storage class, a constant as the number it spells modulo 2^64, with the errors for identifiers out of range, characters that are no digits and a full stack |
| `IrLetters.BareOperators` | src/cmd/scc-cc/cc2/parser.c:196-206 | an operator without a type is a syntax error |
| `IrParser.HexValue` | src/cmd/scc-cc/cc2/parser.c:208-234 | the digits shifted in are the number they spell, modulo 2^64 |
| `IrParser.ReadLine` | src/cmd/scc-cc/cc2/parser.c:298-313 | fgets takes up to the end of the line or as much as the buffer holds |
| `IrParser.Parser.DoCall` | src/cmd/scc-cc/cc2/parser.c:458-473 | the loop that pops parameters does what the specification says, errors included |
| `IrParser.Parser.DoWord` | src/cmd/scc-cc/cc2/parser.c:285-296 | every word changes the stack in place as its specification says, or raises the same error |
| `IrParser.Parser.Eval` | src/cmd/scc-cc/cc2/parser.c:285-296 | a whole line is split and evaluated to the stack, or the error, of the specification; a word without a parse function ends it |
| `IrParser.Parser.DoLine` | src/cmd/scc-cc/cc2/parser.c:298-323 | one turn of the parser: empty lines are passed, the next one is taken, checked and evaluated, with the errors of the specification |
| `IrParser.Parser.Statement` | src/cmd/scc-cc/cc2/parser.c:316-321 | the end of a line that began with a tab: one node becomes a statement, and more than one is an error |
| `IrParser.Transport` | src/cmd/scc-cc/cc2/parser.c:140-323 | printing with cc1 and reading with cc2, the statement at the end of the line included, gives the rebuilt tree exactly when line and tree fit, else the error that says which does not |

## Left out

- Heap.Allocator.Malloc: requests whose byte count wraps (`Heap.WrapExactly`) are excluded; the source would take zero bytes from the break and write a header there.
- HeapSession.StepMalloc: the same requests.
- HeapSession.MallocFree: the same requests.
- HeapSession.StepRealloc: the same requests.
- HeapSession.Run: the same requests.
- HeapRealloc.Move: the same requests.
- HeapRealloc.Realloc: the same requests.
- Alignment of the break and `_getheap`: the break starts at a fixed unit.
- sethi numbers (`complex`, `address`), operand swapping by them, label reference counts, and the rewrites of the target-specific `tsethi`.
- Binary operators with two operands that both hold control operators: their order of evaluation is unspecified in C, and the model has operations on one operand.
- Switch discriminants with control operators, and the choice between chain and table.
- Switch.SwtchDir: takes the cases as sorted; `qsort` is not modelled, and Switch.CompileSwitch holds for any sorting, which the comparison of the source gives under the condition of Switch.CompareExactly.
- The jump optimiser of src/cmd/scc-cc/cc2/cfg.c.
- Preprocessor directives, `__FILE__` and `__LINE__`, line reading, comments, the INPUTSIZ limit on expansions, and white space inside arguments.
- Preprocessor.Lexer.Next: stops with `Crossed` where the arguments of an invocation are not ended in the same input; the source reads on in the inputs below, or ends with an error at the end of a parameter. MacroProcess.Move does so.
- Preprocessor.Lexer.ExpandName: the same.
- MacroMeaning.ProcessExpands: says nothing of texts with such an invocation; some of them end as another text does (MacroForward.NameFallsThrough), some never (MacroLoop.Diverges).
- MacroAgree.AgreesWithC99: one direction for the tokens; a symbol that is replaced again may have been defined as itself, and then the tokens do not differ. MacroExact.SeparateExactly has both directions for what is replaced.
- Times before 1970 and negative `time_t`, time zones, `tm_isdst`, and years beyond the range of int.
- String constants, builtins, unary plus, declarations and statements in the postfix text: a word with a parse function for one of these ends the model's reading with `Unmodelled`. A word whose type position holds no type letter, or a constant with a character that is no digit, is a syntax error in the model.
- The choice of surrogate bounds in the table of src/libc/wchar/_validutf8.c is taken as written, and the value -1, which is in no row, is excluded.
- IrParser.Parser.DoLine: the functions for lines of declarations; that for statements is IrParser.Parser.Statement.
- IrParser.Parser.DoWord: words of declarations, strings and statements, as above.
- IrParser.Parser.Eval: the same.
- LowerNested.BehindExactly: of a branch behind a branch, one over a call whose name does not occur in its condition, so that the call can be told in the events.
- printf width, floating point and format parsing.
- NumberText.NumToStr: takes a buffer with room for the text as a precondition; without it the source writes in front of the buffer.
- NumberText.PrintThenRead: the same.
- NumberText.PrintThenReadUnsigned: the same.
- Locales other than C in `isspace` and `toupper`.
- `simplify` of cc1, the linker, the assembler back ends, object files, and the rest of the C library.
