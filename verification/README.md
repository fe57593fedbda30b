# A verified model of C_BDD

C_BDD is a small ptrace debugger. This project models its hard parts in Dafny and proves what they are
for: breakpoints that the traced program cannot notice, an ELF reader that returns what the file holds
and finds functions by name, and a start-up handshake that completes exactly when the debugger attaches
before its child asks to be traced. `dafny verify dfyconfig.toml` checks everything.

## How it is built

* `Memory`, `Machine`, `Status`: the traced process. Memory is a map from 64-bit addresses to bytes, a
  word is the eight bytes that PEEKTEXT and POKETEXT move, the processor is any deterministic function
  whose instructions are decided by their own bytes. INT3 advances the instruction pointer by one and traps. A
  program may exit or raise signals, and accesses to unmapped words fail.
* `Debugger`: as functions, what each operation of `Breakpoint` and `TracedProgram` makes of the
  debugger's state. `TracedProgram`: the classes with their fields updated in place, each method proved
  equal to its function.
* `Ideal`: the reference. A debugger that patches nothing and keeps no map; it watches the bare program
  and has a set of armed addresses.
* `Transparency`, `BareTrace`, `Refinement`: the debugger with its patched memory shows exactly what the
  ideal one shows, the ideal one shows the bare program, and the results about whole runs. `Unmistakable`:
  for which programs and points that holds whatever the commands.
* `ArmOrder`: any breakpoints, overlapping or repeated, disabled in any order.
* `Lifecycle`: queued breakpoints, runs and restarts. `Requests`: what every request to place or disable does
  and answers, in every state, in bytes of memory, entries of the map and of the queue.
* `ElfCodec`, `ElfFile`, `ElfRoundTrip`, `ElfFunctions`, `StringTable`, `SymbolRoundTrip`: the ELF64 reader
  (System V ABI, chapter 4) and the lookup of function names. `ElfLayout`, `ElfBytes`, `FunctionBytes`: the
  same reader said about the file's bytes at their literal offsets, without the decoder.
* `Handshake`: debugger and child as interleaved steps under one print lock. `Backtrace`: the unwinding
  loop. `AddressText`: addresses typed and printed.

## What the code does that its own documentation does not say

Each of these is proved, with the condition under which the expected behaviour holds.

* `enable` saves eight bytes and `disable` writes all eight back, so breakpoints less than a word apart
  can erase or resurrect each other. `ArmOrder.RestoredIff` says exactly which orders of disabling
  restore memory; `Refinement.NeighbourSurvivesIff` and `Refinement.NeighbourSurvivesResumeIff` say which
  neighbour survives.
* "Trapped at a breakpoint" is only `IP - 1` being in the map. Stepping over a one-byte instruction at a
  breakpoint is taken for a new hit and the instruction runs again (`Refinement.OneByteInstructionRunsTwice`,
  and `Refinement.TwoStepsLeaveBareRun` with a concrete program; `Refinement.MisledStepGoesBack` and
  `Refinement.MisledContinueGoesBack` say what happens from any such stop). No command sequence is ever misled
  if and only if the bare run never leaves the instruction pointer right behind a point
  (`Unmistakable.NeverMisledIff`); for those programs every sequence is faithful to the bare program.
* At a breakpoint whose instruction raises a signal, continue reports the breakpoint for ever and never the
  signal (`Refinement.ContinueHidesSignal`). The stops of continue are all hits of the bare run if and only
  if no armed instruction it reaches raises one (`Refinement.ContinueInventsNoHitIff`).
* The child sleeps before TRACEME so that the debugger can attach, but nothing enforces that order. If
  TRACEME comes first, every start ends with the program running on while the debugger waits for a stop
  (`Handshake.HandshakeCompletesIff`).
* A breakpoint disabled while the program is stopped at it is armed again by the next step or continue
  (`Refinement.DisabledAtPromptReturns`); disabled at any other time it stays off
  (`Refinement.DisabledStaysOff`). Its map entry stays, flagged enabled, either way.
* A function address queued before the first run is relocated only if it is below the load address; the
  same request after the start always is (`Lifecycle.PendingAddressIsPhysical`).
* A run after the process was seen dead keeps the old map and load address (`Lifecycle.RunStartsAfreshIff`).
* A process killed by a signal counts as alive (`Status.DeadMissesKilled`).
* Sections without file bytes (SHT_NOBITS) are read too; one that reaches past the end of the file makes
  the stream fail, and every later section then gets stale bytes (`ElfRoundTrip.ParsedIsInFileIff`,
  `ElfRoundTrip.OutsideSectionHidesLaterOnes`).

## Model

| member | source | states |
|---|---|---|
| Memory.WithTrapReplacesOneByte | include/bdd_ptrace.hpp:12-16 | the mask and the or exchange the byte at the breakpoint for INT3 and keep the seven others |
| Memory.ArmPatchesOneByte | lib/bdd_ptrace_breakpoint.cpp:12-22 | peeking a word and poking it back with the trap changes one byte of memory |
| Status.PredicatesNest | lib/bdd_signals.cpp:9-36 | for every status word: exiting implies trapped implies stopped implies alive, and a segfault is neither trapped nor exiting |
| Status.PredicatesAreWordTests | lib/bdd_signals.cpp:23-36 | on every status word: trapped is 0x057F and segfault 0x0B7F in the low half, exiting is the word 0x6057F |
| Status.ReportsDecode | lib/bdd_signals.cpp:9-36 | each encoded exit, kill and stop with its event satisfies exactly the predicates of its own class |
| Status.EncodeIsInjective | lib/bdd_signals.cpp:9-36 | no two reports share a status word, so the predicates lose nothing the kernel said |
| Status.DeadMissesKilled | lib/bdd_signals.cpp:9-16 | of the reports that end a process, isDead recognises exactly the exits; a killed process counts as alive |
| Machine.StatusTellsStop | lib/bdd_signals.cpp:9-36 | the status of each kind of stop: dead, exiting, segfault and trapped are told apart exactly, but a finished step and a breakpoint hit have the same status |
| Machine.BeforeAndWrap | lib/bdd_ptrace_breakpoint.cpp:72-85 | going back by one and adding addresses are arithmetic modulo 2^64 |
| Machine.PatchedElsewhereExecutesAlike | lib/bdd_ptrace.cpp:52-72 | patches that lie outside an instruction do not change its effect, so running patched memory runs the program |
| Transparency.ArmedOfOverlay | lib/bdd_ptrace_breakpoint.cpp:12-30 | the armed breakpoints can be read off memory: they are the placed addresses that hold an INT3 |
| Transparency.PlaceEffect | lib/bdd_ptrace_breakpoint.cpp:33-49 | a placement arms its address; the first one saves the clean word and its name, a later one leaves the map as it is |
| Transparency.PlaceKeeps | lib/bdd_ptrace_breakpoint.cpp:33-49 | placing and re-placing keep "clean memory but for INT3 at exactly the armed addresses, clean words saved", act as arming does in the ideal debugger, and succeed exactly where eight bytes are mapped in a live process |
| Transparency.ReplacingChangesNothing | lib/bdd_ptrace_breakpoint.cpp:33-49 | re-placing at an armed address changes neither memory nor map nor anything else, though the new object saved an INT3 |
| Transparency.DisableKeeps | lib/bdd_ptrace_breakpoint.cpp:136-150 | disabling by address keeps the invariant, disarms that address alone, and answers whether it was ever placed |
| Transparency.ResumeIsOneBareInstruction | lib/bdd_ptrace.cpp:52-58 | resuming executes exactly one instruction of the bare program, the one at the trapped address, and leaves every other patch and the whole map as before, that breakpoint being armed |
| Transparency.TrapStutters | lib/bdd_ptrace.cpp:60-72 | reaching an armed instruction moves the real instruction pointer past the INT3 and nothing the user sees |
| Transparency.TrappedUnlessMisled | lib/bdd_ptrace_breakpoint.cpp:124-134 | the debugger believes itself at a breakpoint exactly after a hit or at a misleading stop, never on a dead process |
| Transparency.RawStepKeeps | lib/bdd_ptrace.cpp:89-96 | a single step without breakpoint handling is a step of the ideal debugger and keeps the invariant |
| Transparency.StepKeeps | lib/bdd_ptrace.cpp:80-87 | from any stop that is not misleading, step is the ideal debugger's step and keeps the invariant |
| Transparency.RunKeeps | lib/bdd_ptrace.cpp:67-68 | running to the next stop is the ideal debugger's run, and one waits exactly as long as the other |
| Transparency.ContinueKeeps | lib/bdd_ptrace.cpp:60-72 | from any stop that is not misleading, continue is the ideal debugger's continue and keeps the invariant |
| Transparency.UnmisledRunIsTransparent | lib/bdd_ptrace.cpp:52-96 | over any one sequence of place, re-place, disable, step and continue that is never misled, the debugger shows what the ideal debugger shows and keeps the invariant |
| Unmistakable.CommandsAreSafe | lib/bdd_ptrace_breakpoint.cpp:124-134 | for a program that never comes to stand right behind a point, no command sequence is ever misled, and the condition holds again afterwards |
| Unmistakable.NeverMisledIff | lib/bdd_ptrace_breakpoint.cpp:124-134 | no command sequence at all is misled if and only if the program, breakpoint hits apart, neither stands nor in its bare run ever comes to stand right behind a placeable point |
| Transparency.RunsAreTransparent | lib/bdd_ptrace.cpp:52-96 | for such a program, over every sequence of place, re-place, disable, step and continue, the debugger shows what the ideal debugger shows and keeps the invariant |
| BareTrace.CommandsStayOnTrace | include/bdd_ptrace.hpp:174-182 | whatever the commands, the ideal debugger shows states of the bare program's own run, exit codes that this run exits with, and signals that the instruction shown raises |
| BareTrace.InventsNothingIff | include/bdd_ptrace.hpp:174-177 | in the ideal debugger, the stops of any number of continues are all the armed visits of a stretch of the bare run, if and only if no armed instruction of that run raises a signal |
| BareTrace.HitsAreStops | include/bdd_ptrace.hpp:174-177 | in the ideal debugger, repeated continue stops at the next armed visits, one after the other |
| Refinement.UnmisledRunRefines | lib/bdd_ptrace.cpp:52-96 | any one command sequence that is never misled is a stuttering run of the bare program and leaves clean memory but for the traps |
| Refinement.CommandsRefineBareRun | lib/bdd_ptrace.cpp:52-96 | for a program that never comes to stand right behind a point, every mix of commands is a stuttering run of it: states, exit codes and signals shown are its own, and session invariant and condition hold again |
| Refinement.MemoryIsCleanButForTraps | lib/bdd_ptrace_breakpoint.cpp:12-49 | after any commands on such a program memory is the clean image but for INT3 at exactly the addresses the ideal debugger has armed, and every map entry saves the clean word |
| Refinement.ContinueMissesNoHit | lib/bdd_ptrace.cpp:60-72 | k continues stop at the next k armed visits of the bare run, for every k, program and armed set: none missed |
| Refinement.ContinueInventsNoHitIff | lib/bdd_ptrace.cpp:60-72 | none invented: the stops of any number of continues, however long their waits, are all the armed visits of a stretch of the bare run, if and only if no armed instruction the run reaches raises a signal |
| Refinement.ContinueHidesSignal | lib/bdd_ptrace.cpp:52-72 | at a breakpoint on an instruction that raises a signal, continue returns to the very same state for ever, while step reports the signal |
| Refinement.MisledStepGoesBack | lib/bdd_ptrace_breakpoint.cpp:80-85 | from a misleading stop a step does what it would from a breakpoint hit at the address before: that instruction is executed instead of the one at the instruction pointer, and its address is armed |
| Refinement.MisledContinueGoesBack | lib/bdd_ptrace.cpp:60-72 | so does a continue, which runs on from the outcome of the instruction before |
| Refinement.OneByteInstructionRunsTwice | lib/bdd_ptrace.cpp:80-87 | two steps from a breakpoint on a one-byte instruction execute that instruction twice |
| Refinement.TwoStepsLeaveBareRun | lib/bdd_ptrace.cpp:80-87 | a concrete program and four commands that lead to a state the bare program never has |
| Refinement.DisabledStaysOff | lib/bdd_ptrace_breakpoint.cpp:144-150 | a breakpoint disabled while the program is not stopped at it is neither armed nor reported again, whatever the commands, until it is placed again |
| Refinement.UnmisledRunLeavesOff | lib/bdd_ptrace_breakpoint.cpp:144-150 | the same for any program in any one run that is never misled |
| Refinement.DisabledAtPromptReturns | lib/bdd_ptrace.cpp:52-58 | one disabled while the program is stopped at it is armed again by the next step, and by the next continue unless the program ends |
| Refinement.NeighbourSurvivesIff | lib/bdd_ptrace_breakpoint.cpp:24-30 | of two breakpoints placed one after the other among any others, the second survives disabling the first exactly when it is not inside the first one's word or its address already held an INT3 |
| Refinement.NeighbourSurvivesResumeIff | lib/bdd_ptrace.cpp:52-58 | resuming at the first erases the second in exactly the same cases |
| ArmOrder.SavedByte | lib/bdd_ptrace_breakpoint.cpp:12-22 | a byte of a saved word is the clean one unless a breakpoint armed earlier sits on it |
| ArmOrder.DisabledByte | lib/bdd_ptrace_breakpoint.cpp:24-30 | after any disables, each byte is that of the last word written over it |
| ArmOrder.RestoredIff | lib/bdd_ptrace_breakpoint.cpp:12-30 | for any addresses and any order of disabling, memory is restored byte for byte if and only if over each breakpoint's address the last one disabled was armed no later than it |
| ArmOrder.ReverseOrderRestores | lib/bdd_ptrace_breakpoint.cpp:12-30 | disabling in reverse order restores memory, whatever overlaps or repeats |
| ArmOrder.SpacedRestoresInAnyOrder | lib/bdd_ptrace_breakpoint.cpp:12-30 | breakpoints at least a word apart can be disabled in any order |
| ArmOrder.FirstInFirstOutOfTwo | lib/bdd_ptrace_breakpoint.cpp:12-30 | two breakpoints disabled in arming order: restored exactly when the first is not inside the second's word |
| Lifecycle.AliveUnlessGone | lib/bdd_signals.cpp:9-16 | with the last stop cached, the alive test tells exactly whether there still is a process |
| Lifecycle.PlaceAtFrame | lib/bdd_ptrace_breakpoint.cpp:33-38 | placing in a started program never appends to the pending list, which is being iterated, and never loses or changes a map entry |
| Lifecycle.OperationsKeepPendingXorPlaced | lib/bdd_ptrace_breakpoint.cpp:33-38 | over all runs of place, disable, step, continue, run and restart: not started means nothing placed, started means nothing pending |
| Lifecycle.PendingAddressIsPhysical | lib/bdd_signals.cpp:139-140 | a queued function is placed where a direct request places it exactly when its ELF value is below the load address |
| Lifecycle.QueueingCommutesWithRunning | lib/bdd_signals.cpp:135-146 | queueing functions below the load address and then running gives the same memory, map, names and everything else as running and then placing them in that order; only a sum that wraps to address zero is excluded, which a direct request refuses |
| Lifecycle.RunStartsAfreshIff | lib/bdd_ptrace.cpp:124-159 | a run establishes the session invariant for the new process and takes its load address exactly when the old process counts as alive, or nothing was placed and no other load address is remembered |
| Lifecycle.UnmisledWholeRun | lib/bdd_ptrace.cpp:124-159 | from the run, with its queued breakpoints, through commands that are not misled: what is shown comes from the program's own bare run |
| Lifecycle.WholeRunIsTransparent | lib/bdd_ptrace.cpp:124-159 | from the run, with its queued breakpoints, through any commands, for a program that never stands right behind a point: states, exit codes and signals shown come from its own bare run from the entry |
| Requests.PlaceAnswers | lib/bdd_ptrace_breakpoint.cpp:33-49 | in every state: before the first run the answer is true and the queue grows by exactly one entry with that address and name, not enabled; afterwards the answer is true exactly where eight bytes can be accessed, and then one byte is 0xCC, a first entry saves the eight bytes found there, and nothing else changes |
| Requests.PlaceFunctionAnswers | lib/bdd_ptrace_breakpoint.cpp:60-77 | the same for a function: its ELF value is queued before the first run, and afterwards load address plus value modulo 2^64 is placed, zero being refused |
| Requests.DisableAnswers | lib/bdd_ptrace_breakpoint.cpp:24-30 | in every state the answer is true exactly when the address was ever placed, and what changes is the eight bytes at the entry's address, which become the saved ones |
| Requests.DisableFunctionAnswers | lib/bdd_ptrace_breakpoint.cpp:136-142 | on a session the answer is true exactly when load address plus value modulo 2^64 is not zero and was placed; then that address alone is disarmed, its byte being the program's own again, and the map stays |
| Requests.DisableUndoesPlacingFunction | lib/bdd_ptrace_breakpoint.cpp:60-142 | placing a function and disabling it disarms exactly the address the placement armed, answers true, keeps every other trap and the map, and restores memory if the address was not armed before |
| Requests.DisableUndoesPlacing | lib/bdd_ptrace_breakpoint.cpp:33-150 | the same at an address |
| Requests.DisableUndoesEnable | lib/bdd_ptrace_breakpoint.cpp:12-30 | whatever memory holds, disabling what was enabled restores the process; where the word cannot be accessed both fail, the saved word is -1 and the flag ends cleared |
| Requests.PendingAnswers | lib/bdd_signals.cpp:135-146 | one answer for each queued breakpoint, in order, true exactly where eight bytes can be accessed; memory has an INT3 at exactly those targets, the map has them besides what it had, the first one placed at an address giving name and saved word, and the queue is empty |
| Requests.FailedRunIsForgotten | lib/bdd_ptrace.cpp:124-159 | a run whose fork fails keeps the queue, and the next run does as if it had not been |
| TracedProgram.Breakpoint.Enable | lib/bdd_ptrace_breakpoint.cpp:12-22 | the object's fields, the process and the answer after enable, failing writes included |
| TracedProgram.Breakpoint.Disable | lib/bdd_ptrace_breakpoint.cpp:24-30 | writes back the whole saved word; the flag is cleared only when that fails |
| TracedProgram.TracedProgram.constructor | lib/bdd_ptrace.cpp:45-49 | nothing placed, nothing pending, not started, and status zero reads as a dead process |
| TracedProgram.TracedProgram.GetIp | lib/bdd_ptrace_breakpoint.cpp:80-85 | the register minus one, modulo 2^64 |
| TracedProgram.TracedProgram.IsTrappedAtBreakpoint | lib/bdd_ptrace_breakpoint.cpp:131-134 | membership of that address in the map, disabled entries included |
| TracedProgram.TracedProgram.SetBreakpoint | lib/bdd_ptrace_breakpoint.cpp:33-38 | queues before the first run, later keeps the first entry at each address |
| TracedProgram.TracedProgram.BreakpointAtAddress | lib/bdd_ptrace_breakpoint.cpp:40-49 | the whole new state and the answer: arms and inserts, or changes nothing where the address is not mapped |
| TracedProgram.TracedProgram.BreakpointAtText | lib/bdd_ptrace_breakpoint.cpp:51-58 | the same for an address typed as text |
| TracedProgram.TracedProgram.BreakpointAtFunction | lib/bdd_ptrace_breakpoint.cpp:60-70 | queued with the ELF value before the start, placed at load address plus value afterwards |
| TracedProgram.TracedProgram.GetFunctionPhysicalAddress | lib/bdd_ptrace_breakpoint.cpp:72-77 | load address plus the value of the first matching symbol, modulo 2^64 |
| TracedProgram.TracedProgram.DisableAt | lib/bdd_ptrace_breakpoint.cpp:144-150 | restores the saved word through a copy and leaves the map as it is |
| TracedProgram.TracedProgram.DisableBreakpointAtText | lib/bdd_ptrace_breakpoint.cpp:144-150 | the same for an address typed as text |
| TracedProgram.TracedProgram.DisableBreakpointAtFunction | lib/bdd_ptrace_breakpoint.cpp:136-142 | disables at load address plus the value of the first matching symbol, refused at zero; Requests.DisableFunctionAnswers and Requests.DisableUndoesPlacingFunction say what that is |
| TracedProgram.TracedProgram.PtraceBackwardStep | lib/bdd_ptrace.cpp:75-78 | the instruction pointer goes back by one |
| TracedProgram.TracedProgram.PtraceRawStep | lib/bdd_ptrace.cpp:89-96 | one instruction, with the cached status following it |
| TracedProgram.TracedProgram.ResumeBreakpoint | lib/bdd_ptrace.cpp:52-58 | un-patch, rewind, step, re-patch as one change of the whole state, the map untouched |
| TracedProgram.TracedProgram.PtraceStep | lib/bdd_ptrace.cpp:80-87 | resumes when it believes itself at a breakpoint, steps otherwise |
| TracedProgram.TracedProgram.PtraceContinue | lib/bdd_ptrace.cpp:60-72 | resumes first if trapped, then runs to the next stop with the cached status following it |
| TracedProgram.TracedProgram.PlaceEveryPendingBreakpoints | lib/bdd_signals.cpp:135-146 | the loop places every queued breakpoint in order, reports each answer and empties the queue |
| TracedProgram.TracedProgram.GetTracedRamAddress | lib/bdd_ptrace.cpp:161-176 | with no load address remembered, the address is the base of the mapping whose line the kernel printed, for every base and every such line; a remembered one is not read again |
| TracedProgram.TracedProgram.ClearCurrentProcess | lib/bdd_ptrace.cpp:150-159 | forgets process, map, load address and status, keeps what is pending |
| TracedProgram.TracedProgram.InitBdd | lib/bdd_ptrace.cpp:27-34 | with the child at its exec stop: load address taken unless remembered, then the queue placed |
| TracedProgram.TracedProgram.Run | lib/bdd_ptrace.cpp:124-143 | clears a live process, retries the fork as long as told to, and sets up the child or records the failure |
| ElfCodec.ToLERoundTrip | include/bdd_elf.hpp:12-20 | little-endian fields of any width read back |
| ElfCodec.RecordSizes | include/bdd_elf.hpp:12-20 | the four structures have 64, 56, 64 and 24 bytes |
| ElfCodec.EhdrRoundTrip | lib/bdd_elf.cpp:208-214 | an encoded header decodes to itself |
| ElfCodec.EhdrBytesRoundTrip | lib/bdd_elf.cpp:208-214 | any 64 bytes are the encoding of the header they decode to |
| ElfCodec.PhdrRoundTrip | lib/bdd_elf.cpp:220-226 | an encoded program header decodes to itself |
| ElfCodec.ShdrRoundTrip | lib/bdd_elf.cpp:231-237 | an encoded section header decodes to itself |
| ElfCodec.SymRoundTrip | lib/bdd_elf.cpp:117-120 | an encoded symbol decodes to itself |
| ElfLayout.EhdrLayout | lib/bdd_elf.cpp:208-214 | every field of the header as its literal bytes at its literal offset among the 64, low byte first |
| ElfLayout.PhdrLayout | lib/bdd_elf.cpp:220-226 | the same for every field of a program header |
| ElfLayout.ShdrLayout | lib/bdd_elf.cpp:231-237 | the same for every field of a section header, the link being the four bytes at 40 and the info those at 44 |
| ElfLayout.SymLayout | lib/bdd_elf.cpp:117-120 | the same for every field of a symbol |
| ElfFile.InputStream.SeekTo | lib/bdd_elf.cpp:222-222 | a failed stream stays where it is, a negative offset makes it fail |
| ElfFile.InputStream.ReadInto | lib/bdd_elf.cpp:223-223 | a failed stream leaves the buffer alone, a short read fills part of it and fails the stream |
| ElfBytes.ReadGivesBytes | lib/bdd_elf.cpp:222-223 | byte by byte: from the file as far as it goes, otherwise what the buffer held; the stream fails exactly when the file ends first |
| ElfBytes.ReadsNothing | lib/bdd_elf.cpp:222-223 | at an offset from 2^63 on, or after a failure, the buffer stays as it was and the stream is failed |
| ElfFile.ReadSectionsData | lib/bdd_elf.cpp:241-250 | the loop over the section headers with its one reused buffer |
| ElfFile.Open | lib/bdd_elf.cpp:202-253 | the constructor: both exceptions, or header, tables and section bytes as the stream delivers them |
| ElfBytes.RejectedIff | lib/bdd_elf.cpp:49-54 | the constructor rejects a file exactly when it does not start with 7F 45 4C 46, short files included |
| ElfBytes.ProgramHeadersAreInFile | lib/bdd_elf.cpp:219-228 | program header k is decoded from the 56 bytes at the offset that bytes 32 to 39 of the file give plus 56 k, as many as bytes 56 and 57 say |
| ElfBytes.SectionHeadersAreInFile | lib/bdd_elf.cpp:230-239 | section header k is decoded from the 64 bytes at the offset that bytes 40 to 47 give plus 64 k, as many as bytes 60 and 61 say, if the program headers could be read |
| ElfBytes.FailedSectionsAreStale | lib/bdd_elf.cpp:241-250 | after a failure each byte of a later section is the buffer's at that place unless a section in between was shorter, and zero otherwise |
| ElfRoundTrip.PhdrsBytesRoundTrip | lib/bdd_elf.cpp:219-228 | any table of 56-byte entries is the encoding of the program headers read from it |
| ElfRoundTrip.ShdrsBytesRoundTrip | lib/bdd_elf.cpp:230-239 | any table of 64-byte entries is the encoding of the section headers read from it |
| ElfRoundTrip.SectionsReadBack | lib/bdd_elf.cpp:241-250 | sections inside the file are read with exactly their own bytes, whatever the buffer held before |
| ElfRoundTrip.ParsedIsInFileIff | lib/bdd_elf.cpp:202-253 | what the constructor returns stands in the file byte for byte if and only if the header, every table and every section, NOBITS included, lie inside the file |
| ElfRoundTrip.RoundTrip | lib/bdd_elf.cpp:202-253 | a file that holds well-formed contents, in any layout, is read back as exactly those contents |
| ElfRoundTrip.SerialiseRoundTrip | lib/bdd_elf.cpp:202-253 | writing contents whose parts do not overlap and running the constructor gives the contents back |
| ElfRoundTrip.FailedReadsIgnoreFile | lib/bdd_elf.cpp:241-250 | once the stream has failed the remaining sections no longer depend on the file |
| ElfRoundTrip.OutsideSectionHidesLaterOnes | lib/bdd_elf.cpp:241-250 | after a section that reaches past the end of the file, later sections' own bytes have no influence on the result |
| ElfRoundTrip.ExampleMeetsPremises | lib/bdd_elf.cpp:202-253 | the premises of the round trip can be met: a small file with one section and its header table |
| ElfFunctions.SymbolsAreInBounds | lib/bdd_elf.cpp:335-336 | every symbol read in the nested loop lies inside its section's bytes, and its 32-bit offset is not truncated |
| ElfFunctions.GetSectionHeaderIndexesByType | lib/bdd_elf.cpp:262-270 | the loop collects the indexes of all sections of a type |
| ElfFunctions.IndexesAreOfType | lib/bdd_elf.cpp:262-270 | those and only those, in increasing order |
| ElfFunctions.PositionsAreTheSymbols | lib/bdd_elf.cpp:332-336 | the nested loop visits every symbol of every symbol table, in section-then-index order |
| FunctionBytes.SymbolsAreWholeEntries | lib/bdd_elf.cpp:330-336 | the symbols are the whole entries of the sections of type 2 |
| ElfFunctions.GetSectionFunctions | lib/bdd_elf.cpp:335-342 | the inner loop appends one section's functions |
| ElfFunctions.GetFunctionsList | lib/bdd_elf.cpp:330-345 | the nested loop computes what each function symbol with a name contributes, in order |
| ElfFunctions.GetFunctionAddress | lib/bdd_elf.cpp:347-353 | the address in the first list entry with that name |
| ElfFunctions.FindsFirstMatchingSymbol | lib/bdd_elf.cpp:330-353 | a name is found if and only if some function symbol with a non-empty name matches it up to its first '(', and the address is that of the first such symbol in the file |
| FunctionBytes.ListedIsWhatBytesSay | lib/bdd_elf.cpp:335-342 | for any contents, from the bytes alone: a symbol is listed exactly when the low four bits of its byte 4 are 2 and its name is not empty, with the eight bytes at 8 as its value and the linked string table's bytes up to '(' or NUL as its name; "Unnamed" where there is no such table |
| FunctionBytes.MatchesIff | lib/bdd_elf.cpp:297-353 | in the same terms, when a symbol is the one of a name |
| FunctionBytes.CutsAtParenthesis | lib/bdd_elf.cpp:341-341 | a name without '(' is kept whole, and what follows a '(' is dropped |
| ElfFunctions.AddressesAreWords | lib/bdd_elf.cpp:347-353 | the address found is a 64-bit value |
| StringTable.LookupGivesSuffix | lib/bdd_elf.cpp:297-310 | in any table of NUL-terminated names, the lookup at a name's start gives the name and at any offset inside it the rest of it |
| SymbolRoundTrip.WrittenFunctionsAreListed | lib/bdd_elf.cpp:330-345 | symbols of any type and binding written into a table of type 2 with its string table are listed as written: exactly those of type 2 that have a name, in order, with their values and their names up to '(' |
| SymbolRoundTrip.WrittenFunctionsAreReadFromFile | lib/bdd_elf.cpp:202-345 | the same from a file: whatever its layout, opening it and listing its functions gives the ones written |
| AddressText.NumeralReadsBack | lib/bdd_ptrace_breakpoint.cpp:56-58 | parsing the digits of a number continues as if the number had been read, for every base, width and what follows |
| AddressText.StrtoulReads | lib/bdd_ptrace_breakpoint.cpp:56-58 | every number in every notation, decimal, 0 and 0x, after white space and a sign, up to the first character that is no digit: its value, 2^64 - 1 from 2^64 on, negated modulo 2^64 after a minus |
| AddressText.StrtoulOfNoNumber | lib/bdd_ptrace_breakpoint.cpp:56-58 | where no number is, zero |
| AddressText.PrintedAddressRoundTrip | lib/bdd_ptrace_breakpoint.cpp:56-58 | every 64-bit address printed as "0x%016lX" parses back to itself |
| AddressText.MapsLineGivesBase | lib/bdd_ptrace.cpp:170-175 | whatever follows the dash, the first line of a memory map gives the base address |
| Handshake.InterleavingsKeepInv | lib/bdd_ptrace.cpp:8-43 | what every interleaving keeps in which the attach precedes TRACEME, with or without the lock held |
| Handshake.StuckIsReadyOrDeadlocked | lib/bdd_ptrace.cpp:37-43 | such an interleaving cannot go on exactly when the handshake is done or the two processes wait for each other |
| Handshake.HandshakeCompletesIff | lib/bdd_ptrace.cpp:8-43 | with ptraceContinue(false), every interleaving ends after at most 18 steps; there the child is at its exec stop, the parent back from its wait and the lock free if and only if the attach came before TRACEME, and otherwise the program runs on while the parent waits |
| Handshake.SelfTracedKeepInv | lib/bdd_ptrace.cpp:8-43 | what every interleaving keeps in which TRACEME precedes the attach |
| Handshake.TracedByChildIff | lib/bdd_ptrace.cpp:8-43 | which of the two made the child traced is decided by the order of the two requests |
| Handshake.HandshakeHoldingLock | lib/bdd_ptrace.cpp:60-72 | holding the lock while waiting, an interleaving that ends is done exactly when the attach came first and the child got to its exec, deadlocked when it did not, and run away when TRACEME came first |
| Handshake.HoldingLockCanDeadlock | include/bdd_exclusive_io.hpp:63-69 | an interleaving in which the child's print waits for the lock the waiting parent holds |
| Backtrace.Trace | lib/bdd_unwind.cpp:17-39 | exactly the first 256 named frames before an unreadable one, or all there are; it ends although unnamed frames do not grow the queue |
| Backtrace.StopsAtUnreadable | lib/bdd_unwind.cpp:17-39 | the frames looked at are those before the first whose program counter cannot be read |
| Backtrace.NamesInOrder | lib/bdd_unwind.cpp:17-39 | their names come in the order of the frames, those without one leaving no trace |

## Left out

- The text interface, all printing (headers, symbols, status, registers, the breakpoint table), colours and number formatting except the hexadecimal form of an address.
- objdump, libunwind's internals and a cursor that cannot be initialised; the frame chain is a finite sequence with at least the current frame.
- The operating system itself: fork, exec, ptrace, waitpid, kill and usleep appear only by their effect on the process. A poke that the kernel performs in part at the end of a mapping is modelled as one that fails without effect.
- The stop and kill commands and signals from outside the program; threads; programs that read or write their own text as data.
- The DEBUG build, whose extra prints take the lock in other places.
- The child's branch of run: what happens when execv fails.
- Between fork and exec stop a process is modelled in Handshake only. In Debugger.Run the child arrives at its exec stop; a check of the forked child's instruction pointer against a stale map, after a restart from a dead process, is not modelled.
- The print lock in the methods of the class TracedProgram. The lock of ExclusiveIO is modelled in Handshake only, as a value that says who holds it, not as an object updated in place.
- Unknown function names and symbol tables whose reading leaves the section or the string table: the source's behaviour is undefined there.
- ELF tables with entry sizes below the structures, tables and sections of 2 GB and more, 32-bit and big-endian files.
- ElfFile.Open: returns what the constructor puts into the object's fields as a value; nothing changes them afterwards.
- ElfRoundTrip.ParsedIsInFileIff: tables that have entries have entries of the structures' sizes; the reader ignores larger strides, which the ABI allows.
- TracedProgram.TracedProgram.PtraceContinue: says nothing about the process while its wait has not returned; `fuel` is how long one waits, and every result holds for all of its values.
- Transparency.RunsAreTransparent: asks that the bare run never leaves the instruction pointer right behind a point; Unmistakable.NeverMisledIff shows this to be exactly when no command sequence is misled, Transparency.UnmisledRunIsTransparent covers single sequences on other programs, and Refinement.MisledStepGoesBack and Refinement.MisledContinueGoesBack say what happens from a misleading stop.
