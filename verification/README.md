# T0 compiler and framed TLS servers: a verified model

This project models, in Dafny, two parts of the repository and proves what they promise.

**The T0 compiler and its virtual machine.** T0 is a Forth-like language. The compiler assembles words with
the help of a control-flow stack, checks their stack effects by an abstract interpretation over jump code and
an acyclic call graph, lays the code out as bytes of variable length with jump offsets found by a fixed-point
loop, and emits an interpreter in C with packed return addresses and coroutine suspension. The PEM decoder is
such a generated program.

**The length-prefixed JSON framing of the TLS servers.** Each client has an input and an output buffer that are
filled and emptied in place, with partial writes and back-pressure, in a table of slots.

## How it is built

| files | what is in them |
|---|---|
| `Bytes`, `SevenBit`, `CConst` | machine integers; the 7E number format; constants evaluated by the C compiler |
| `Gather` | the words that the output needs; the addresses of data blocks |
| `Layout`, `CodeGen`, `Generate` | code elements and the relaxation loop; the code block; the generator's passes |
| `Machine`, `Cpu` | the opcode machine as a step function; the CPU object that implements it |
| `ByteVM`, `Interpreter` | the generated interpreter as a step function; the loop over arrays that implements it |
| `Simulation` | the interpreter follows the opcode machine |
| `Flow`, `AnalyseFlow`, `OneResult` | what an analysis promises about runs; the worklist algorithm; uniqueness of its result |
| `Effects` | what stack effects and the control graph mean for the code behind them |
| `Traversal`, `TargetQueue`, `QueueLimit`, `NestedElse` | the order of exploration; the queue as coded; exactly when it is full |
| `SafeExecution`, `Compile` | everything put together, from resolved words to runs of the interpreter |
| `Arrays`, `Builder`, `Structured`, `Immediate` | the word builder; structured statements and their jump code |
| `Coroutine`, `Sessions`, `Decoder`, `SessionLaws` | the PEM decoder's snippets, its sessions, its push and event calls, and how they fit |
| `Framing`, `Connection`, `Delivery` | frames and streams; one client; end to end and capacity |
| `ServerLog`, `ServerLaws`, `Server` | the server as an abstract machine; its laws; the table of clients that follows it |

Two machines are modelled. The opcode machine runs resolved words; its data stack holds 32-bit patterns, its
frames hold locals whose initial contents are arbitrary. The byte machine is the generated interpreter: a byte
is fetched only inside the code block, a stack slot is touched only inside its array, everything else is the
outcome `Wrong`. A word with C code is run by that C code in both: an uninterpreted function of the data stack
and the context, which may suspend the machine. Where soundness needs it, that function is assumed to honour
the word's declared stack effect and nothing else.

Failures of the C# code (exceptions, index errors) are results of the modelled methods: an `Outcome`, an
`Option`, or an `ok` that is false. Library calls (`SSL_read`, `SSL_write`, `accept`, `select`, the BearSSL engine)
are parameters that range over everything their documentation allows.

## What the code does that its documentation does not say

- A jump target is queued each time its jump is processed, into an array of one entry per opcode, so that well-typed
  words can fail with a full queue. How many entries are made is known before: the heads are the opcodes that
  exploration enters without a jump, and each head adds one entry for every jump in the chain of jumps that begins at
  it. The analysis as coded fails exactly if, in some word that the entry point leads to, these chains have more jumps than the word has
  opcodes (`QueueLimit.CodedExactly`). Which opcodes are heads depends on the order of exploration, which is
  that of the code and of the words that do not return (`Traversal.After`); counting the chains from all opcodes gives
  a condition on the code alone that is sufficient (`QueueLimit.FewJumpsAccepted`). Two families fail: a reachable circle
  of jumps of any length (`QueueLimit.JumpCircle`), the shortest being `begin again` (`AnalyseFlow.BeginAgainRejected`),
  and loop-free code whose `else` jumps land on each other, as in conditionals nested eight deep in first branches
  (`NestedElse.NestRejected`). With queueing guarded by the result of `MergeSA` the queue always has room; both forms
  succeed on the same words but for those above, with the same results (`OneResult.SucceedsAgain`,
  `OneResult.SameResult`).
- The reported data-stack maximum of C and data words uses `Min` where `Max` is meant; the depth really reached
  can be higher by the largest net push of such a word, and no smaller slack is enough (`SafeExecution.SlackTight`,
  `SafeExecution.DupEqualOverruns`). With `Max` no slack is needed (`SafeExecution.SlackNeeded`).
- A data word takes a frame at run time that the reported return-stack maximum does not count
  (`SafeExecution.DataAddressOverruns`). Counted as 1, it would need no slot to spare (`SafeExecution.SpareNeeded`).
- In one-byte code the number of locals is written as a raw byte and read as 7E; the two agree exactly below 128
  (`SevenBit.RawByte`).
- Of a C constant for which five bytes are reserved, a non-negative value is not read back
  (`CConst.ConstantReadBack`, `CConst.WideConstantMisread`).
- A frame of length zero is never consumed, because an expected length of zero also means that no header has been
  read: the send functions accept empty messages, and everything behind one is lost
  (`Framing.AllArrive`, `Delivery.EndToEnd`).
- Picking at a negative depth of the control-flow stack reads stale entries above its top; the code
  that `Build` returns is closed all the same (`Builder.WordBuilder.CSPick`, `Builder.WordBuilder.Build`).

## Model

| member | source | states |
|---|---|---|
| `SevenBit.RoundTripU` | src/wrappers/c/bearssl/T0/CodeElement.cs:59-75 | decoding the unsigned 7E encoding of any 32-bit number, followed by any bytes, gives the number and consumes exactly the encoding |
| `SevenBit.RoundTripS` | src/wrappers/c/bearssl/T0/CodeElement.cs:77-99 | the same for every signed 32-bit number, with the sign pre-loaded from bit 6 of the first byte |
| `SevenBit.PrefixFreeU` | src/wrappers/c/bearssl/T0/CodeElement.cs:59-75 | no unsigned encoding is a prefix of the encoding of another number |
| `SevenBit.PrefixFreeS` | src/wrappers/c/bearssl/T0/CodeElement.cs:77-99 | no signed encoding is a prefix of the encoding of another number |
| `SevenBit.MinimalU` | src/wrappers/c/pemdec.c:12-27 | whatever bytes decode to a number, there are at least as many of them as the encoder would write |
| `SevenBit.MinimalS` | src/wrappers/c/pemdec.c:29-50 | the same for signed numbers |
| `SevenBit.LengthS` | src/wrappers/c/bearssl/T0/CodeElement.cs:77-88 | a signed encoding has at most n + 1 bytes exactly for the numbers of 7n + 7 bits, sign included |
| `SevenBit.DigitsU` | src/wrappers/c/bearssl/T0/CodeElement.cs:59-75 | the bytes of an unsigned encoding hold seven bits each, the lowest in the last byte, all but the last with the continuation bit; nothing is left over |
| `SevenBit.DigitsS` | src/wrappers/c/bearssl/T0/CodeElement.cs:77-99 | the same for signed numbers; what is left over is the sign, which bit 6 of the first byte repeats |
| `SevenBit.Encode7EUnsigned` | src/wrappers/c/bearssl/T0/CodeElement.cs:59-75 | the two loops append exactly the encoding and report its length; without a writer only the length |
| `SevenBit.Encode7ESigned` | src/wrappers/c/bearssl/T0/CodeElement.cs:77-99 | the same for signed numbers |
| `SevenBit.EncodeOneByte` | src/wrappers/c/bearssl/T0/CodeElement.cs:49-57 | one byte is appended, or the value is refused because it is above 255 |
| `SevenBit.Parse7EUnsigned` | src/wrappers/c/pemdec.c:12-27 | the decoding loop computes the decoder that the round trips are about |
| `SevenBit.Parse7ESigned` | src/wrappers/c/pemdec.c:29-50 | the same for signed numbers, through the complement that the C code uses |
| `SevenBit.RawByte` | src/wrappers/c/bearssl/T0/CodeElementUInt.cs:49-54 | the number of locals, written as one raw byte in one-byte code, is read back as 7E exactly if it is below 128 |
| `CConst.BitLengthLeast` | src/wrappers/c/bearssl/T0/TPointerExpr.cs:81-97 | the bit length is the least n such that the value is an n-bit signed number |
| `CConst.GetMaxBitLength` | src/wrappers/c/bearssl/T0/TPointerExpr.cs:62-96 | the two comparisons and the loops compute that bit length |
| `CConst.MaxBitLengthLeast` | src/wrappers/c/bearssl/T0/TPointerExpr.cs:62-74 | the bit length is the least that holds both ends of the shifted range, up to the cap at 32 |
| `CConst.ExprLengthLeast` | src/wrappers/c/bearssl/T0/CodeElementUIntExpr.cs:50-54 | so len bytes, up to four, are reserved or fewer if and only if len groups of seven bits hold the whole range |
| `CConst.ReservedEnough` | src/wrappers/c/bearssl/T0/CodeElementUIntExpr.cs:50-54 | when at most four bytes are reserved, every value of the declared range fits them |
| `CConst.ConstantReadBack` | src/wrappers/c/pemdec.c:52-59 | the bytes of T0_INT1 to T0_INT5, followed by anything, decode to the value and are consumed completely exactly if at most four are reserved or the value is negative |
| `CConst.StopsEarly` | src/wrappers/c/pemdec.c:54 | T0_SBYTE drops the continuation bit when the top nibble is below 8: one byte is consumed instead of five |
| `CConst.WideConstantMisread` | src/wrappers/c/bearssl/T0/CodeElementUIntExpr.cs:56-65 | a concrete misread: the constant 1 under a name declared to range over 0 to 2^31 - 1 |
| `Layout.RoundMonotone` | src/wrappers/c/bearssl/T0/T0Comp.cs:1665-1674 | more room everywhere never makes any element of the next round shorter |
| `Layout.StableTotal` | src/wrappers/c/bearssl/T0/T0Comp.cs:1675-1678 | comparing only the total length is enough: a round that leaves it unchanged has changed no element, and the layout is consistent with itself |
| `Layout.CeilingRoomy` | src/wrappers/c/bearssl/T0/T0Comp.cs:1663-1679 | for every list of elements there is a layout that the loop never exceeds, which is why it terminates |
| `Layout.Relax` | src/wrappers/c/bearssl/T0/T0Comp.cs:1663-1679 | the relaxation loop terminates; on exit every element's GetLength is its LastLength, addresses are running sums, and the layout is element by element the smallest of all layouts with enough room, so of all consistent ones |
| `Layout.NoAddressOverflow` | src/wrappers/c/bearssl/T0/CodeElementJump.cs:69-78 | below 2^31 / 10 elements no address or offset of the least layout leaves the 32-bit range |
| `CodeGen.ElementAt` | src/wrappers/c/bearssl/T0/T0Comp.cs:1785-1792 | in a consistent layout the bytes of every element stand in the code block at the address it was given, and the next element begins behind them |
| `Generate.AssignSlots` | src/wrappers/c/bearssl/T0/T0Comp.cs:1573-1616 | words with equal C code share a slot from 7 on, other words follow in order; fails exactly if a native word has no C code |
| `Generate.FixUpAll` | src/wrappers/c/bearssl/T0/OpcodeJump.cs:60-63 | every jump element gets the element of its target opcode as target; fails exactly if some jump leads out of its word |
| `Generate.GenerateWord` | src/wrappers/c/bearssl/T0/WordInterpreted.cs:106-121 | the elements of one word: its number of locals, then one element per opcode with jumps linked (or the three elements of a data word) |
| `Generate.CollectElements` | src/wrappers/c/bearssl/T0/T0Comp.cs:1631-1643 | all words without C code in order, the entry table pointing at the first element of each |
| `Generate.EncodeAll` | src/wrappers/c/bearssl/T0/T0Comp.cs:1785-1792 | what the elements append is the code block; fails exactly if a number does not fit the one byte it has |
| `Gather.GatherWords` | src/wrappers/c/bearssl/T0/T0Comp.cs:1478-1500 | the queue ends with the least set of words that holds the entry points and the references of its members; it fails exactly if every such set needs a name that the dictionary does not hold |
| `Gather.PlaceBlocks` | src/wrappers/c/bearssl/T0/T0Comp.cs:1534-1538 | data blocks of any lengths get addresses in order, pairwise disjoint, inside the data block and never at 0 |
| `Generate.Generate` | src/wrappers/c/bearssl/T0/T0Comp.cs:1564-1679 | the generator succeeds exactly if every word can be compiled, no entry point has C code and, in one-byte mode, no header exceeds a byte; code below 65536 bytes with readable headers and constants then describes the program to the interpreter (the premise of the simulation), and no layout of the same elements is shorter |
| `Simulation.ReadHeader` | src/wrappers/c/bearssl/T0/T0Comp.cs:1813-1822 | the number of locals reads back in both modes (below 128 locals in one-byte mode), and the first opcode stands behind it |
| `Simulation.JumpLands` | src/wrappers/c/bearssl/T0/CodeElementJump.cs:80-97 | a displacement decoded at run time leads from behind the jump exactly to the address of its target |
| `Simulation.SimStep` | src/wrappers/c/pemdec.c:279-521 | one opcode of the opcode machine is one dispatch of the interpreter (three for a data word), with the same kind of outcome, data stack, locals, call chain and context; return offset 0 is found exactly for the outermost frame |
| `Simulation.SimRun` | src/wrappers/c/pemdec.c:279-521 | code generation preserves meaning over whole runs of any length: for any host functions, one for each opcode, the opcode machine with these and with the new locals found in the interpreter's memory ends like the interpreter with the same functions at the dispatches of each opcode |
| `Simulation.VmNeverWrong` | src/wrappers/c/pemdec.c:279-521 | on a program whose opcode runs are safe the interpreter never reads or writes outside its arrays, for any number of dispatches; and if it ends, the run of the opcode machine with the same host functions and the same memory ends with the same stack and context |
| `Simulation.BootMatches` | src/wrappers/c/pemdec.c:209-218 | the entry stub brings the interpreter into the state that matches the outermost call |
| `Flow.FlowSound` | src/wrappers/c/bearssl/T0/WordInterpreted.cs:142-268 | soundness of the analysis over every run of every length: an analysed word called with at least its arguments never goes wrong, never touches what lies below them, stays within the reported data-stack maximum plus the slack and the reported return-stack maximum, and when it returns has its results in place of its arguments; a word that returns is never classed as no-exit |
| `Flow.StepInv` | src/wrappers/c/bearssl/T0/WordInterpreted.cs:174-210 | the invariant behind it, kept by every opcode, for declared effects accepted through IsSubOf as well |
| `Flow.InvSafe` | src/wrappers/c/bearssl/T0/Word.cs:150-172 | from a state with the invariant no run leaves stacks of the reported sizes (one return slot more if a reachable word calls a data word) |
| `Flow.NoCallCycle` | src/wrappers/c/bearssl/T0/WordInterpreted.cs:149-151 | among analysed words no chain of reached calls comes back to a word it went through; reported return-stack use decreases along it |
| `Effects.SubEffect` | src/wrappers/c/bearssl/T0/SType.cs:113-128 | IsSubOf accepts an effect for another if and only if all C code that honours the one honours the other |
| `Effects.ControlExact` | src/wrappers/c/bearssl/T0/WordInterpreted.cs:163-226 | the control graph of the analysis has an edge if and only if some run with honest C code takes it; never behind a call of a word that does not exit |
| `Effects.DeclaredStays` | src/wrappers/c/bearssl/T0/WordInterpreted.cs:253-267 | a declared effect stays, only a word without one gets the computed effect |
| `Effects.DefaultIsMin` | src/wrappers/c/bearssl/T0/Word.cs:150-171 | the two maxima that a word without T0 code reports, as coded with Min |
| `AnalyseFlow.MergeSA` | src/wrappers/c/bearssl/T0/WordInterpreted.cs:127-140 | sets an unset entry, accepts an equal one, reports a conflict or an index out of range; nothing else changes |
| `AnalyseFlow.AnalyseFlow` | src/wrappers/c/bearssl/T0/WordInterpreted.cs:142-268 | on success the word and all words it can call are correctly and exactly analysed, as coded with room for all their targets, and words done before are untouched; every failure is justified by control paths (two paths that disagree, a path out of the code, a cycle of reached calls, a contradicted declaration) or, for a full queue, by an order of exploration that queues more targets than there are opcodes, in a word that a chain of reached calls leads to |
| `AnalyseFlow.Explore` | src/wrappers/c/bearssl/T0/WordInterpreted.cs:154-226 | at most 2n turns for n opcodes, and as coded exactly one for each opcode that no jump led to and one for each entry of the queue; the stack actions found are those of the control paths, set exactly on the reachable opcodes, and every maximum is attained |
| `AnalyseFlow.FollowJump` | src/wrappers/c/bearssl/T0/WordInterpreted.cs:212-217 | the jump target is queued every time; the outcome is a full queue exactly if the array is full, and then the order of exploration makes more entries than the array has places |
| `AnalyseFlow.FollowGuarded` | src/wrappers/c/bearssl/T0/WordInterpreted.cs:212-217 | the repaired form: queueing only what MergeSA reports as new, the queue never overflows |
| `AnalyseFlow.PathTraced` | src/wrappers/c/bearssl/T0/WordInterpreted.cs:127-140 | the recorded stack action of an opcode is the one along every control path to it |
| `AnalyseFlow.BeginAgainTraced` | src/wrappers/c/bearssl/T0/WordInterpreted.cs:160 | the word `begin again` is consistently typed ... |
| `AnalyseFlow.BeginAgainRejected` | src/wrappers/c/bearssl/T0/WordInterpreted.cs:213-217 | ... and the only outcome that its analysis can have is the full queue |
| `OneResult.SameResult` | src/wrappers/c/bearssl/T0/WordInterpreted.cs:142-268 | a word that two analyses have finished has the same effect, maxima and stack actions in both, whatever the order of the work and however targets are queued |
| `OneResult.SucceedsAgain` | src/wrappers/c/bearssl/T0/WordInterpreted.cs:154-226 | once the analysis of a word has succeeded, every analysis of it does, but for a full queue as coded; with guarded queueing without exception |
| `Traversal.AllProcessed` | src/wrappers/c/bearssl/T0/WordInterpreted.cs:154-226 | in the order of first meetings (straight on while that is new, else the oldest target) every opcode is processed within n turns |
| `Traversal.FewJumps` | src/wrappers/c/bearssl/T0/WordInterpreted.cs:213-217 | a word whose chains of jumps, taken from every opcode, have together no more jumps than the word has opcodes is never overfull, whatever it calls |
| `Traversal.CircleOverfull` | src/wrappers/c/bearssl/T0/WordInterpreted.cs:213-217 | a word in which control meets a circle of jumps, of any length, is overfull |
| `TargetQueue.RoomTurn` | src/wrappers/c/bearssl/T0/WordInterpreted.cs:154-226 | one turn as coded: entries made and entries still to come are together the jumps in the chains from the opcodes that no jump led to |
| `QueueLimit.SameOrder` | src/wrappers/c/bearssl/T0/WordInterpreted.cs:154-226 | an unfinished exploration as coded meets the opcodes in the order of the finished one, whichever way that one queued its targets |
| `QueueLimit.CodedExactly` | src/wrappers/c/bearssl/T0/WordInterpreted.cs:154-226 | a word that can be analysed at all is accepted as coded if and only if no word that it leads to is overfull (the chains of jumps from the opcodes that no jump led to have more jumps than the word has opcodes); otherwise the outcome is the full queue, in an overfull word |
| `QueueLimit.FewJumpsAccepted` | src/wrappers/c/bearssl/T0/WordInterpreted.cs:213-217 | so with few enough jumps in every word, as counted on the code alone, the analysis as coded succeeds whenever the repaired one does |
| `QueueLimit.JumpCircle` | src/wrappers/c/bearssl/T0/WordInterpreted.cs:213-217 | a word in which a reachable jump leads back to itself over jumps alone is overfull, hence refused |
| `NestedElse.NestAnalysed` | src/wrappers/c/bearssl/T0/T0Comp.cs:706-745 | conditionals nested to any depth in first branches are loop-free and well typed: with guarded queueing the analysis succeeds |
| `NestedElse.NestRejected` | src/wrappers/c/bearssl/T0/WordInterpreted.cs:213-217 | from eight levels on, the only outcome of the analysis as coded on them is the full queue |
| `SafeExecution.SlackNeeded` | src/wrappers/c/bearssl/T0/Word.cs:150-162 | as coded with Min, the analysis table meets the premise of the safety theorem with slack d if and only if d is at least the net push of every C and data word; with Max it does with none |
| `SafeExecution.SpareNeeded` | src/wrappers/c/bearssl/T0/Word.cs:167-171 | as coded, one more slot of the return stack is asked for if and only if a data word is used; with 1 as the maximum of data words, none |
| `SafeExecution.SafeRun` | src/wrappers/c/pemdec.c:279-521 | an analysed program, its generated code, C code that honours its declared effects: started at any entry with enough arguments and stacks of the reported sizes plus the slack, the interpreter never leaves its arrays, for any memory, host and number of dispatches, and returns the results in place of the arguments |
| `SafeExecution.TwoCallsAnalysed` | src/wrappers/c/bearssl/T0/WordInterpreted.cs:191 | a word that calls two C words, the second taking what the first leaves, is analysed with success, whatever the numbers |
| `SafeExecution.TwoCallsReported` | src/wrappers/c/bearssl/T0/Word.cs:159 | and every analysis of it reports a data-stack maximum of 0 |
| `SafeExecution.SlackTight` | src/wrappers/c/bearssl/T0/Word.cs:159 | the slack is needed: for every net push and every slack below it, the interpreter overruns a data stack of the arguments, the reported maximum and that slack |
| `SafeExecution.DupEqualOverruns` | src/wrappers/c/bearssl/T0/Word.cs:159 | in particular `dup =`, reported to need nothing beyond its argument, overruns a data stack of just that |
| `SafeExecution.DataWordNeedsSlot` | src/wrappers/c/bearssl/T0/WordData.cs:89-95 | a data word called with the return stack full makes the interpreter write behind it |
| `SafeExecution.DataAddressOverruns` | src/wrappers/c/bearssl/T0/Word.cs:167-171 | a word that calls a data word is reported to need one return slot, and overruns it |
| `Compile.AnalyseAll` | src/wrappers/c/bearssl/T0/T0Comp.cs:1502-1520 | it succeeds if and only if the analysis of every entry point does, within both limits; otherwise either an analysis has failed, with its reason, in a word that an entry point leads to, or some entry point exceeds a limit |
| `Compile.CompileAll` | src/wrappers/c/bearssl/T0/T0Comp.cs:1502-1679 | it succeeds if and only if all entry points are analysed within the limits, every word can be compiled, no entry point has C code and, in one-byte mode, no header exceeds a byte; a success leaves consistent analyses and tables that describe the program, a failed analysis its reason |
| `Compile.CompiledSafe` | src/wrappers/c/bearssl/T0/T0Comp.cs:1502-1520 | a compiled program that meets the premises of the soundness theorem, run with stacks of its limits (plus the slack), never leaves them |
| `Compile.BuiltSafe` | src/wrappers/c/bearssl/T0/T0Comp.cs:1502-1679 | these premises follow: words made by the builder, a successful compilation and honest C code that pushes at most d elements net are enough for the interpreter to stay inside stacks of the limits plus d, and a slot to spare if data words are used |
| `Builder.WordBuilder.CSRoll` | src/wrappers/c/bearssl/T0/WordBuilder.cs:101-107 | the control-flow element at the depth moves to the top; fails exactly if there is none |
| `Builder.WordBuilder.CSPick` | src/wrappers/c/bearssl/T0/WordBuilder.cs:113-128 | pushes a copy; a negative depth reads a stale slot above the top, or fails behind the array |
| `Builder.WordBuilder.CallName` | src/wrappers/c/bearssl/T0/WordBuilder.cs:201-222 | a defined local is read or (behind `>`) written, any other name becomes a call to resolve later |
| `Builder.WordBuilder.DefLocal` | src/wrappers/c/bearssl/T0/WordBuilder.cs:272-279 | a new name gets the next number; a known one is refused |
| `Builder.WordBuilder.Ahead` | src/wrappers/c/bearssl/T0/WordBuilder.cs:306-332 | a jump without target, its number on the control-flow stack |
| `Builder.WordBuilder.Then` | src/wrappers/c/bearssl/T0/WordBuilder.cs:338-343 | succeeds exactly if the top is the number of an unresolved jump, which then leads to the next opcode |
| `Builder.WordBuilder.Again` | src/wrappers/c/bearssl/T0/WordBuilder.cs:358-384 | succeeds exactly if the top is a destination, to which the new jump leads back |
| `Builder.WordBuilder.Build` | src/wrappers/c/bearssl/T0/WordBuilder.cs:72-84 | whatever calls came before: with an empty control-flow stack the result is non-empty code whose last opcode cannot fall through, with every jump resolved inside it and every local defined; a ret is appended exactly if a jump leads behind the last opcode or the last one may fall through |
| `Builder.ClosedSuffices` | src/wrappers/c/bearssl/T0/OpcodeJump.cs:52-63 | of such code the generator always makes elements, and the analysis never runs off its end |
| `Builder.Resolve` | src/wrappers/c/bearssl/T0/WordInterpreted.cs:59-72 | names become words of the dictionary; fails exactly on an unknown name |
| `Structured.FlagSense` | src/wrappers/c/bearssl/T0/T0Comp.cs:706-745 | the meaning that the jump code is measured by: if on true, ifnot on false, until ends on true, while goes on on true, and any nonzero flag is true |
| `Structured.Simulates` | src/wrappers/c/bearssl/T0/WordBuilder.cs:306-384 | wherever the jump code of a structured statement stands, it leads to the end, return, failure or continued running that the statement's big-step meaning has |
| `Structured.WordMeaning` | src/wrappers/c/bearssl/T0/WordBuilder.cs:306-384 | structured control flow preserves meaning: the jump code of a word ends in a given way after some number of steps exactly if its structured meaning does with some amount of fuel |
| `Immediate.CompileStmt` | src/wrappers/c/bearssl/T0/T0Comp.cs:706-745 | the builder calls behind if, ifnot, else, then, begin, until, untilnot, again, while, repeat and ret produce the jump code of the statement and leave the control-flow stack as it was |
| `Immediate.Else` | src/wrappers/c/bearssl/T0/kern.t0:10 | else is ahead, 1 cs-roll, then: the jump over the second branch, and the first branch's target |
| `Immediate.BeginWhile` | src/wrappers/c/bearssl/T0/kern.t0:11 | while is if, 1 cs-roll |
| `Immediate.Repeat` | src/wrappers/c/bearssl/T0/kern.t0:12 | repeat is again, then |
| `Immediate.CompileWord` | src/wrappers/c/bearssl/T0/WordBuilder.cs:72-84 | a whole word around one statement is closed code of that statement |
| `Immediate.StructuredOnMachine` | src/wrappers/c/bearssl/T0/OpcodeJump.cs:47-50 | on the opcode machine, calls included, the word can be run to the end its structured meaning has; and if each thing it calls can come to one result only, any run that has left the word has left it in that way |
| `CpuObject.CPU.Push` | src/wrappers/c/bearssl/T0/CPU.cs:105-114 | the value on top, the array doubled when full, frames untouched |
| `CpuObject.CPU.Rot` | src/wrappers/c/bearssl/T0/CPU.cs:129-135 | the element at the depth moves to the top; fails exactly if there is none |
| `CpuObject.CPU.NRot` | src/wrappers/c/bearssl/T0/CPU.cs:141-147 | the inverse of Rot |
| `CpuObject.CPU.Enter` | src/wrappers/c/bearssl/T0/CPU.cs:65-73 | a new frame with zero locals over the linked frames |
| `CpuObject.CPU.Exit` | src/wrappers/c/bearssl/T0/CPU.cs:78-83 | back to what the frame saved |
| `CpuObject.CPU.RunOne` | src/wrappers/c/bearssl/T0/T0Comp.cs:1409-1417 | one turn of the loop that fetches and runs opcodes on the linked frames and the growing array is exactly a step of the opcode machine |
| `Machine.StoreThenLoad` | src/wrappers/c/bearssl/T0/OpcodePutLocal.cs:37-40 | what is put into a local is found there, the other locals are as they were |
| `Machine.CallThenReturn` | src/wrappers/c/bearssl/T0/CPU.cs:65-83 | a return, wherever in the callee it is reached, leads behind the call with the frames and locals of the caller |
| `Machine.JumpByFlag` | src/wrappers/c/bearssl/T0/OpcodeJumpIf.cs:38-44 | a conditional jump takes the flag off the stack and goes by it |
| `Arrays.RolledAt` | src/wrappers/c/bearssl/T0/CPU.cs:129-135 | rolling, place by place: the element at the depth comes to the top, those above it move down by one |
| `InterpreterObject.Interpreter.Enter` | src/wrappers/c/pemdec.c:199-207 | T0_ENTER on the return-stack array does what the specification machine does |
| `InterpreterObject.Interpreter.Return` | src/wrappers/c/pemdec.c:284-293 | ret unpacks the address and drops the locals; offset 0 ends the outermost word |
| `InterpreterObject.Interpreter.Turn` | src/wrappers/c/pemdec.c:279-521 | one turn of the loop on the two arrays and three registers is one dispatch; it reports failure exactly where the C code would leave an array |
| `InterpreterObject.Interpreter.Run` | src/wrappers/c/pemdec.c:269-526 | the loop, up to t0_exit |
| `Decoder.PemDecoder.Push` | src/wrappers/c/pemdec.c:86-97 | with an event unread nothing happens; else the decoder runs on the data to the state that the interpreter reaches, however that ends, and the number of bytes it has taken is returned, the rest being left in the input |
| `Decoder.PemDecoder.Event` | src/wrappers/c/pemdec.c:100-108 | the event, which is thereby cleared |
| `Decoder.RunConsumes` | src/wrappers/c/pemdec.c:476-486 | input is only ever taken from the front |
| `Coroutine.SnippetConserves` | src/wrappers/c/pemdec.c:409-514 | with a destination, bytes given to it and bytes in the buffer are together all bytes written, through every snippet |
| `Coroutine.FlushDelivers` | src/wrappers/c/pemdec.c:432-443 | flush-buf gives the destination everything written so far and empties the buffer; without a destination the bytes are dropped |
| `Coroutine.WriteDelivers` | src/wrappers/c/pemdec.c:503-514 | write8 stores its byte behind the others; exactly when that makes the buffer full, all of it goes to the destination |
| `Coroutine.ReadTakes` | src/wrappers/c/pemdec.c:475-486 | read8-native takes the bytes in order, one at a time, and reports when there is none; co suspends |
| `Sessions.NothingLost` | src/wrappers/c/pemdec.c:502-514 | the same at every moment of a whole session |
| `Sessions.Waits` | src/wrappers/c/pemdec.c:163-164 | the byte code of read8 with nothing to read: suspends, and when there is more is back at its start with the same stacks but for one stale slot |
| `Sessions.ChunkInvariance` | src/wrappers/c/pemdec.c:86-108 | for any byte code that reads input only through read8: however the same input is cut into pushes, a session stops in one way only, with the same events, stacks, registers and output |
| `SessionLaws.ResumeKeeps` | src/wrappers/c/pemdec.c:86-108 | between two pushes of a session an event is read once and cleared, no byte of the input is lost, and the session ends only when there is no more |
| `SessionLaws.StretchIsRun` | src/wrappers/c/pemdec.c:86-97 | a stretch of a session between two pushes is one run of the interpreter, as a push makes it, however that ends; but for a session that reads where it should not |
| `SessionLaws.AllConsumed` | src/wrappers/c/pemdec.c:86-97 | over a whole session input is consumed in order, events are only added, and a session that ends waiting has consumed everything |
| `Framing.ParseMore` | src/wrappers/c/tls_wrapper_v2.c:196-235 | the parse of a stream continues from what an earlier part has left over; a refused or zero header is final |
| `Framing.HeaderIsBigEndian` | src/wrappers/c/tls_wrapper_v2.c:138-152 | the header is the length in network byte order, for the sender as for the receiver |
| `Framing.RoundTrip` | src/wrappers/c/tls_wrapper_v2.c:138-153 | parsing the frames of any messages of at most 65536 bytes gives the messages up to the first empty one, nothing left over if there is none, blocked otherwise |
| `Framing.AllArrive` | src/wrappers/c/tls_wrapper_v2.c:196-208 | all non-empty messages arrive exactly if no empty one was sent before the last of them |
| `Connection.Client.Drain` | src/wrappers/c/tls_wrapper_v2.c:196-235 | all complete frames leave the buffer, in order; fails exactly on a header above 65536 |
| `Connection.Client.TryReceive` | src/wrappers/c/tls_wrapper_v2.c:179-239 | for any stream cut anywhere: what has been delivered is the parse of the stream, all of it is consumed unless a header is refused or zero, and the call fails exactly on a broken connection or a refused header |
| `Connection.Client.ReadPlain` | src/wrappers/c/tls_wrapper_v3.c:577-634 | the BearSSL side: chunks are taken one by one as long as each fits behind what is left over and no header is refused; on failure exactly the chunk that does not fit, or whose header is refused, is where it stops; what has been delivered is the parse of the bytes taken |
| `Delivery.Capacity` | src/wrappers/c/tls_wrapper_v3.c:577-634 | with chunks of at most k bytes and frames of at most 65537 - k bytes the overflow exit is never taken |
| `Delivery.CapacityTight` | src/wrappers/c/tls_wrapper_v3.c:591-592 | for every k from 2 on, frames of 65538 - k bytes can overflow it |
| `Delivery.TlsCapacity` | src/wrappers/c/tls_wrapper_v3.c:577-634 | for the plaintext limit of section 6.2.1 of RFC 5246, frames of up to 49153 bytes are safe |
| `Connection.Client.QueueSend` | src/wrappers/c/tls_wrapper_v2.c:138-153 | a message is accepted only by an open client with nothing pending; a refused one changes nothing; bytes written plus pending remain the frames of the accepted messages |
| `Connection.Client.Flush` | src/wrappers/c/tls_wrapper_v2.c:155-177 | a partial write moves exactly the written bytes from pending to written |
| `Connection.Client.WritePlain` | src/wrappers/c/tls_wrapper_v3.c:640-673 | as many pending bytes as the engine offers room for leave, in order; 1 exactly when all are gone |
| `Delivery.EndToEnd` | src/wrappers/c/tls_wrapper_v2.c:138-239 | the messages delivered at one end are the first ones accepted at the other, up to an empty one; once all bytes have arrived they are all non-empty ones exactly if no empty one came before |
| `Server.Table.Accept` | src/wrappers/c/tls_wrapper_v2.c:92-106 | the first free slot takes the descriptor with empty buffers and the connection is announced; without a free slot nothing changes |
| `Server.Table.Close` | src/wrappers/c/tls_wrapper_v2.c:108-132 | a slot in use becomes free and empty, its disconnection is announced once; a free one is left alone |
| `Server.Table.Receive` | src/wrappers/c/tls_wrapper_v2.c:379-383 | new messages are announced in order, then the disconnection if the connection is broken or a header was refused |
| `Server.Table.Shake` | src/wrappers/c/tls_wrapper_v2.c:362-377 | the handshake leads to an open client, stays under way, or ends in a disconnection |
| `Server.Table.SendJson` | src/wrappers/c/tls_wrapper_v2.c:501-513 | the message goes to the one slot that holds the descriptor, with the return code of its queue, or nowhere; no other slot changes |
| `Server.Table.Serve` | src/wrappers/c/tls_wrapper_v2.c:472-485 | one slot of a turn: table and log change exactly as the step of the abstract server for these events tells, about which the laws below say what it does |
| `Server.Table.Run` | src/wrappers/c/tls_wrapper_v2.c:437-494 | any number of turns: the log is the one the abstract server has after the same turns and the final closing, however the bytes were cut into reads; nothing announced before is taken back and at the end nobody is connected |
| `ServerLog.AgreesClosed` | src/wrappers/c/tls_wrapper_v2.c:108-132 | the agreement of log and connections is kept by a disconnection |
| `ServerLog.AgreesOpened` | src/wrappers/c/tls_wrapper_v2.c:329-348 | the same for an accepted connection, whose slot starts empty |
| `ServerLog.ReceiveOk` | src/wrappers/c/tls_wrapper_v2.c:379-383 | the same for bytes that arrive: what they complete is announced, and the frames heard before are the beginning of those heard now |
| `ServerLog.TurnsOk` | src/wrappers/c/tls_wrapper_v2.c:437-485 | after any turns, whatever happened in them, descriptors in use are distinct, connect and disconnect alternate in the log for each, messages come in between, and what was announced since the last connect is the parse of what that connection has offered |
| `ServerLog.TurnsGrow` | src/wrappers/c/tls_wrapper_v2.c:437-485 | the log after the first turns is the beginning of the log after all of them, so the agreement holds at every point of the history |
| `ServerLaws.ServeOpen` | src/wrappers/c/tls_wrapper_v2.c:379-406 | an open connection: what it offers is heard; of what waits to be written as much leaves as the write took, at least one byte; it ends exactly if a header is refused or reading or writing fails |
| `ServerLaws.ServeHandshake` | src/wrappers/c/tls_wrapper_v2.c:362-400 | a handshake is tried when something can be read, and again when something can be written; it ends in an open connection, goes on, or fails |
| `ServerLaws.OpenInTurn` | src/wrappers/c/tls_wrapper_v2.c:472-485 | the same for a whole turn of the select loop, whatever the other slots do and the application sends |
| `ServerLaws.HandshakeInTurn` | src/wrappers/c/tls_wrapper_v2.c:472-485 | and for a connection that is still shaking hands |
| `ServerLaws.HeardAll` | src/wrappers/c/tls_wrapper_v2.c:437-485 | over any turns, a connection that stays open has heard exactly what it offered in them, in order |
| `ServerLaws.ToldAll` | src/wrappers/c/tls_wrapper_v2.c:179-239 | and the application has been told exactly the frames of that |
| `ServerLaws.AcceptGets` | src/wrappers/c/tls_wrapper_v2.c:92-106 | a new descriptor gets one free slot, if there is one; no other slot changes |
| `ServerLaws.AcceptedInTurn` | src/wrappers/c/tls_wrapper_v2.c:318-348 | a descriptor that accept returns in a turn is announced in it, if there is a slot for it |
| `ServerLaws.SendReaches` | src/wrappers/c/tls_wrapper_v2.c:501-513 | a message reaches the holder of its descriptor if that is open and has nothing left to write; nothing else changes |
| `ServerLaws.SentInTurn` | src/wrappers/c/tls_wrapper_v2.c:472-513 | the first message sent to an idle open connection after its turn waits there at the end of the turn, whatever else is sent |
| `Server.Table.OneHolder` | src/wrappers/c/tls_wrapper_v2.c:506-511 | no two slots in use hold the same descriptor |

## Left out

- The T0 front end: command line, tokenizer, parsing of C snippets, file output. The model starts from calls of the
  word builder and ends with a byte sequence and the tables beside it.
- `execute`, and pointer values at compile time beyond their use as numbers: the stack effect of `execute` is
  unknown and the analysis rejects it. Values on the data stack are 32-bit patterns.
- Words that have both a T0 body and C code: both machines run the C code, as the generated program does.
- Meaning of C snippets other than read8-native, write8, flush-buf, co, dup, drop and `<`: uninterpreted functions.
  For the sessions they are taken not to touch the input or the output buffer; `set8` is used by the decoder on
  the event and the name only.
- Int32.MinValue as the marker for "not set" in the arrays of the analysis: stack actions are unbounded integers
  with a separate "none"; a word would need 2^31 opcodes to make the two meet.
- Generate.Generate: requires the numbers of locals and ten bytes per element to stay below 2^31, the range in which
  the C# integers do not wrap. It works on words numbered in the order of the output; that the gathered set of names
  is put in that order, and which data blocks a word refers to, is not modelled.
- CpuObject.CPU.RunOne: native words are functions on the whole stack, not delegates that pop and push one by one; a
  word with both a T0 body and C code runs its C code, as the generated program does, where the C# machine would enter
  its body.
- InterpreterObject.Interpreter.Run: the number of turns is given, because the loop of the C code need not end.
- Sessions.ChunkInvariance: sessions that read input outside read8, or inside it with an event still unread, are a
  separate outcome (`Stray`) about which nothing more is said.
- OneResult.SucceedsAgain: that the coded and the guarded form report the same kind of failure, on words that neither
  accepts, is not compared.
- Immediate.StructuredOnMachine: a call inside a statement counts as one step with a given result; words that never
  return have no result to give.
- Server.Table.Run: the application's calls of tlsv2_send_json are taken between two slots of a turn, not inside the
  callback; they touch output buffers only, which the receiving code does not look at.
- Sockets, TLS, certificates, logging and the allocation of message copies: their results are parameters.
- The blocking client functions, the second copy of them in tls_wrapper_v2.c, tls_wrapper_v3_old.c and the other
  wrappers: thin or duplicated code that would add only easy members.
- The select loop of tls_wrapper_v3.c: its table is that of tls_wrapper_v2.c with fewer slots; its framing and sending
  functions are modelled.
- Constant-time behaviour.
