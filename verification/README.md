# A verified model of the Z80 debug adapter

This project models the debugger core of a Z80 debug adapter in Dafny and proves what its
protocols, loops, caches and codecs guarantee. The adapter speaks the Debug Adapter Protocol
on one thread and emulates a Z80 on another; it steps by source line, undoes steps, disassembles
backward, loads Intel HEX programs, and maps SDCC debug records to addresses and back.

Three things enter only as parameters: what one instruction does and whether it ends (`exec` and `ends`, or
`step` where prefix bytes matter; `Processor` connects them), how long the instruction at an address decodes to (`decode`), and where a source path
leads (`resolve`). Every theorem holds for all of them, within the small contracts stated.

Machine words are `0 <= x < 65536` with explicit wrap-around (`Z80.Word`) and explicit `int16_t`
reading (`Z80.Signed`); the loader's 32-bit arithmetic is written out with `% 2^32`.

## Files

| file | contents |
|---|---|
| `Z80.dfy`, `Text.dfy`, `Util.dfy` | the machine; `std::stoi`/`std::stoul` and decimal printing; `split` and `trim` |
| `SourceData.dfy` | locations, lines, symbols, functions and modules, shared by the parser and the debugger |
| `RunControl.dfy`, `RunControlTheorems.dfy` | resume, pause and disconnect against the emulation worker, every interleaving |
| `Stepping.dfy`, `StepTheorems.dfy` | step over, in, out and back, with the bounded history; their meaning on traces of nested calls |
| `StepLandings.dfy` | which instructions call and return, and where each command ends, said of the machine and the source lines |
| `BlockCopy.dfy` | one call of `step_instruction` on any instruction; LDIR and LDDR in particular |
| `EndlessCalls.dfy`, `Processor.dfy` | which calls end; from processor steps to `exec` and `ends`, and what an endless instruction does to a session |
| `Disassembly.dfy` | backward and forward disassembly; the 64 KB listing (module `FullListing`) |
| `IntelHex.dfy`, `IntelHexTheorems.dfy`, `HexCase.dfy` | the Intel HEX loader, the meaning of records, digits in either case |
| `SourceIndex.dfy`, `Breakpoints.dfy` | the source index and the merged breakpoint set, against what they cache |
| `SourceNames.dfy` | paths, MAP line symbols, assembly lines, and which of several records the index gives |
| `SymbolLookup.dfy` | the index and the MAP symbols as the source of breakpoint addresses |
| `Framing.dfy` | `Content-Length` framing and numbered responses; threads on one stream (module `SharedOutput`) |
| `ReadMemory.dfy` | the `readMemory` request and its Base64 |
| `CdbParser.dfy`, `CdbText.dfy`, `CdbMembers.dfy`, `CdbTheorems.dfy` | reading, routing and merging CDB records; well-formed text of every kind of line; conservation |
| `CdbContents.dfy`, `CdbMarkers.dfy` | what each module holds; where its functions begin and end |
| `CdbFiles.dfy`, `CdbLoad.dfy` | the file a module is taken for, and its assembly lines in the index; from the text of a CDB file to the answers of the source index |

State that the program updates in place is a class (`Stepper`, `Emulator`, `Listing`, `Index`, `Table`,
`Session`, `Parser`) whose methods run the program's loops and are proved equal to a specification
function; the theorems are about that function. The two concurrent protocols are step relations, and
their theorems hold after any sequence of enabled steps.

## Results that are not simply "it works"

* **Step over** counts calls with `call_depth` and a comparison of signed stack pointers. The count is the
  true nesting depth, at every machine of an execution, *if and only if* the stack pointer stays below its
  start inside every callee and every call ends visibly: with a return instruction or, for an outermost call,
  by bringing the stack pointer back to the start (`DepthIsNestingIffTracked`). Matched calls and returns with
  call sites at or below the start are not enough: a callee that pops its return address and pushes it back
  makes the step stop inside it (`StepOverStopsInsideCallee`, on real CALL, POP, PUSH and RET). Callees that
  never rise above the stack pointer they were entered with are always fine (`DisciplineKeepsCalleesBelow`).
* **Step out** stops right after the return of the current function *if and only if* the stack pointer, when the
  command is given, is what the function was entered with (`StepOutLeavesFunctionIff`). With anything pushed since,
  it stops inside the function, for instance at its RET (`StepOutStopsAtRet`, on real PUSH, POP and RET).
* **Step in** from C ends at another C line or just called into code that has assembly lines only
  (`StepInFromSourceLine`); a call into code without any line does not stop it (`StepInPassesUnmappedEntry`).
* **An instruction need not end.** A call on anything but a block instruction returns *if and only if* some byte of
  memory is neither DD nor FD (`CallEndsIff`). A block copy that overwrites its opcode with a jump to its own address
  never returns, though memory holds ordinary bytes (`OverwrittenCopyNeverReturns`, `CopyBecomesJump`).
* **Disconnect** returns *if and only if* the worker is not on an instruction that never ends when the join begins
  (`DisconnectReturnsIff`, with `StuckIff` for the condition on memory). Otherwise nobody ever moves again
  (`StuckForGood`, `EndlessInstructionHangsDisconnect`, `CopyHangsDisconnect`).
* **Frames** are read back as the messages written *if and only if* each message has at least one character and
  at most INT_MAX (`ReadBackIffSendable`). An empty message cannot be told from the end of the input: wherever
  it is, it ends the session (`EmptyMessageEndsSession`).
* **Block copies** whose opcode survives run as a whole in one call *if and only if* the instruction does not lie
  across the end of memory, or has one byte to copy (`WholeBlockInOneCallIff`). At address 0xFFFF one call
  copies one byte (`SplitAcrossTheEndIsNotABlock`). A copy that overwrites its opcode goes on, inside the same
  call, with whatever the opcode has become (`OverwrittenOpcodeIsExecuted`).
* **Backward disassembly** scans with a 16-bit position until it passes the base plus 3. The scan ends for
  every decoder *if and only if* the base is at most 0xFFF8 (`ScanEndsForEveryDecoderIff`), and for some decoder
  *if and only if* it is at most 0xFFFB (`ScanEndsForSomeDecoderIff`): from 0xFFFC on no backward request is answered.
* **Backward alignment**: the entry after the requested number of instructions is the requested address *if and
  only if* the scan decodes an instruction there (`BackwardAlignedIffDecoded`); `BackwardCanMissBase` shows an
  input where it does not.
* **A finished run** of a launched target reports "breakpoint" *if and only if* it ends at one, whatever resumes,
  pauses, steps and launches are requested and whenever they arrive, as long as no disconnect is
  (`BreakpointReportedUnlessDisconnected`). With a disconnect a run at a breakpoint can report "pause", after an
  instruction (`DisconnectHidesBreakpoint`) or before the first one (`DisconnectBeforeFirstInstruction`).
* **Step back** crosses a launch: it restores the machine, memory included, from before the launch
  (`StepBackCrossesLaunch`).
* **A launch without a program** leaves every breakpoint at the address it had
  (`LaunchWithoutProgramKeepsAddresses`).
* **A module's file** is that of its first source line outside `name.c`, not of its first source line
  (`ModuleFiles`); a module known only by its assembly lines is taken for `name.s`, and is in the index
  (`UndeclaredIsIndexed`).
* **Responses** all carry a number *if and only if* every request that is read parses (`AllNumberedIff`).

## Model

| member | source | states |
|---|---|---|
| `RunControl.RunKeepsInv` | src/dbg.cpp:40-92 | Over every interleaving of requests, the session thread's accesses and the workers' accesses: control, worker history, machine and event log stay consistent |
| `RunControlTheorems.AtMostOneLiveWorker` | src/dbg.cpp:40-49 | In every reachable state at most one worker is live |
| `RunControlTheorems.ExchangeRevivesNoWorker` | src/dbg.cpp:42-48 | When the exchange finds the flag down, and until the new thread exists, no worker is inside its loop; and the new run starts with the pause flag clear |
| `RunControlTheorems.LeftLoopForGood` | src/dbg.cpp:51-72 | A worker that has left its loop never executes again, whatever follows |
| `RunControlTheorems.OneStoppedEventPerRun` | src/dbg.cpp:72-83 | Each worker emits exactly one stopped event, exactly when it is finished, after its own instructions and before every event of later runs |
| `RunControlTheorems.RunStopsAtFirstStop` | src/dbg.cpp:51-81 | A finished run executed its program step by step, went on only past machines that are neither breakpoint nor HALT, and, if it executed anything and was still launched at its last check, its reason is "breakpoint" iff it ended at one |
| `RunControlTheorems.BreakpointReportedUnlessDisconnected` | src/dbg.cpp:51-81 | From any launched, idle state and over any interleaving of resumes, pauses, steps and launches, without a disconnect: every run started since executes at least one instruction and reports "breakpoint" iff it ends at one |
| `RunControlTheorems.DisconnectHidesBreakpoint` | src/dbg.cpp:54-62 | For every program whose first instruction reaches a breakpoint: an interleaving with disconnect after which the finished run stands at the breakpoint and has reported a pause |
| `RunControlTheorems.DisconnectBeforeFirstInstruction` | src/dbg.cpp:51-81 | For every program: an interleaving in which the run ends where it was resumed, without an instruction, and reports a pause |
| `RunControlTheorems.ResumeSpawnsWorker` | src/dbg.cpp:40-48 | A resume that finds no live worker starts exactly one, on the machine as it is, with the running flag up and the pause flag down |
| `RunControlTheorems.UndisturbedRunIsSequential` | src/dbg.cpp:51-81 | A run with no pause or disconnect executes at least one instruction, even from a breakpoint, and ends at the earliest breakpoint or HALT of the sequential execution, whatever the interleaving |
| `RunControlTheorems.PauseStopsWithinOneInstruction` | src/dbg.h:99-101 | After a pause and until the next resume: no new worker, at most one more instruction, finished within nine accesses, and blocked only on an instruction that never ends |
| `RunControlTheorems.DisconnectReturnsIff` | src/dbg.cpp:87-92 | The join inside disconnect comes to an end iff the worker is not, when the join begins, on an instruction that never ends; then it has at most eight accesses left, at most one of them an instruction, and somebody can always move |
| `RunControlTheorems.StuckForGood` | src/dbg.cpp:51-52 | A worker on an instruction that never ends stays there whatever is requested: nothing runs, nothing is reported, and a disconnect that waits for it lets nobody move |
| `RunControlTheorems.EndlessInstructionHangsDisconnect` | src/z80_target.cpp:200-204 | For every program with an instruction that never ends: a reachable session that hangs in disconnect |
| `RunControlTheorems.DisconnectIsFinal` | src/z80_target.cpp:200-204 | Once disconnect has returned no worker is live, and no instruction runs and no event is sent until another resume |
| `Stepping.Stepper.PushHistory` | src/dbg.cpp:206-215 | The snapshot is appended, and the oldest one dropped once there are a thousand |
| `Stepping.Stepper.StepBack` | src/dbg.cpp:217-225 | The last snapshot replaces the machine and leaves the history; nothing changes when there is none |
| `Stepping.Stepper.StepOverLoop` | src/z80_target.cpp:235-252 | The loop with its call depth and signed stack pointers computes the step-over function |
| `Stepping.Stepper.WalkUnmapped` | src/z80_target.cpp:264-276 | From an unmapped address: up to 32 instructions to a mapped one or above the entry stack pointer |
| `Stepping.Stepper.Step` | src/z80_target.cpp:221-277 | The whole command, when the instructions it executes end: one snapshot, then the loop that fits the starting location |
| `Stepping.Stepper.StepIntoCall` | src/z80_target.cpp:292-307 | Stepping in from a C line ends at another C line or in an assembly function just called |
| `Stepping.Stepper.StepIn` | src/z80_target.cpp:279-311 | The whole command, with its three cases |
| `Stepping.Stepper.StepOut` | src/z80_target.cpp:313-321 | The whole command: runs until the signed stack pointer exceeds its value at the start |
| `StepLandings.CallsAre` | src/z80_target.cpp:227-229 | The call test holds exactly of CALL nn, the eight CALL cc and the eight RST |
| `StepLandings.ReturnsAre` | src/z80_target.cpp:230-233 | The return test holds exactly of RET, the eight RET cc, RETN and RETI |
| `StepLandings.TakenCallIs` | src/z80_target.cpp:243-246 | The loop counts a call exactly when such an instruction lowers the stack pointer by two modulo 65536 |
| `StepLandings.TakenRetIs` | src/z80_target.cpp:238-247 | It counts a return exactly when such an instruction raises it by two; the second byte is looked at inside memory only |
| `StepLandings.StepPassesCall` | src/z80_target.cpp:235-252 | On any machine, for any taken call of the Z80 to any taken return, wherever the function is mapped: the step ends on the next line of the caller after two instructions |
| `StepLandings.StepPassesCallWithArgument` | src/z80_target.cpp:246-249 | The same when the line pushes an argument first, so that only the return instruction ends the call for the loop |
| `StepTheorems.DepthIsNestingIffTracked` | src/z80_target.cpp:246-248 | `call_depth` is the true nesting depth at every machine of any nested execution, recursion included, iff the stack pointer stays below its start inside every callee, nested calls end with returns, and outermost calls end with a return or back at the start |
| `StepTheorems.DisciplineKeepsCalleesBelow` | src/z80_target.cpp:246-248 | Call sites at or below the start, pushes that do not cross 0x8000 and callees that never rise above their entry imply the stack condition |
| `StepTheorems.StepOverIterates` | src/z80_target.cpp:235-252 | Whatever the stop condition, the loop executes instructions one after the other, at most 500000 |
| `StepTheorems.StepOverSkipsWholeCalls` | src/z80_target.cpp:235-252 | The loop refines big-step execution: whole calls are skipped, and it ends at the first machine between outermost items that satisfies the stop condition, or at the machine after exactly 500000 instructions |
| `StepTheorems.StepOverEndsInOpenCall` | src/z80_target.cpp:235-252 | Over a call that does not come back within the limit, however deeply nested in calls by then, the command ends after exactly 500000 instructions |
| `StepLandings.StepEndsOnAnotherSourceLine` | src/z80_target.cpp:259-263 | From a C line the command ends at the first machine outside all callees whose C line has another file or number, or after 500000 instructions |
| `StepLandings.StepEndsOnAnotherAsmLine` | src/z80_target.cpp:254-258 | From an assembly line it ends at the first machine outside all callees on another C line, or another assembly line where there is no C line |
| `StepLandings.StepWalksToMappedCode` | src/z80_target.cpp:264-276 | From unmapped code: the fewest of 1 to 32 instructions that reach a C or assembly line or leave the function, or 32 |
| `StepLandings.StepInFromSourceLine` | src/z80_target.cpp:292-307 | From a C line with CDB data: the fewest of 1 to 10000 instructions that reach another C line, or an assembly line without a C line by a call that lowers the signed stack pointer by exactly two, or 10000 |
| `StepLandings.StepInStopsInAssembly` | src/z80_target.cpp:302-305 | A call into a function with assembly lines only ends the command after one instruction |
| `StepLandings.StepInPassesUnmappedEntry` | src/z80_target.cpp:302-305 | A call into code without any line does not end it |
| `StepLandings.StepInFromAsmLine` | src/z80_target.cpp:285-290 | From an assembly line: the first machine on another C or assembly line, or 10000 instructions |
| `StepLandings.StepInIsOneInstruction` | src/z80_target.cpp:308-310 | From an address without a line, or from C without CDB data, exactly one instruction |
| `StepTheorems.StepOverStopsInsideCallee` | src/z80_target.cpp:246-250 | Counterexample, on any machine that holds CALL, POP HL, PUSH HL and RET with their Z80 meaning: a matched callee that looks at its return address makes the step stop inside it |
| `StepTheorems.RunUntilStopsFirst` | src/z80_target.cpp:285-320 | The step-in, step-out and unmapped loops execute the fewest instructions (at least one) whose last satisfies their condition, or all of their limit |
| `StepTheorems.StepOutLeavesFunctionIff` | src/z80_target.cpp:313-321 | With the rest of the function up to its return given, nested calls included: step out ends right after that return iff the stack pointer is what the function was entered with; it ends before it when anything is on the stack since, and misses it when the return wraps the signed stack pointer |
| `StepTheorems.StepOutStopsAtRet` | src/z80_target.cpp:316-320 | On any machine that holds PUSH HL, POP HL and RET with their Z80 meaning: from the first instruction the function is left, from the second the command stops at the RET |
| `StepTheorems.DisciplinedIsAtMost` | src/z80_target.cpp:316-320 | The stack discipline implies the stack condition of step out |
| `StepTheorems.HistoryIsSuffix` | src/dbg.cpp:206-225 | Over any sequence of steps, step-backs and runs the bounded history is a suffix of the unbounded undo stack, of at most a thousand entries |
| `StepTheorems.StepsFillHistory` | src/dbg.cpp:206-215 | After consecutive steps the history is the last thousand pre-step machines |
| `StepTheorems.BacksUnwind` | src/dbg.cpp:217-225 | k step-backs restore the k-th last snapshot and remove exactly k |
| `StepTheorems.StepBackUndoesSteps` | src/dbg.h:219-221 | k step-backs after n steps restore registers and memory as they were before step n-k+1, for k up to n and 1000 |
| `StepTheorems.StepBackCrossesLaunch` | src/z80_target.cpp:108-198 | After n steps and then a launch or run, k step-backs still restore the machine before step n-k+1 |
| `BlockCopy.Emulator.StepInstruction` | src/emulator.cpp:57-78 | On any instruction on which it ends (`EndlessCalls` says which), one call takes the processor through the fewest steps after which no prefix is pending and a block instruction has left its address, and returns their clock states |
| `BlockCopy.BlockGoesOn` | src/emulator.cpp:61-75 | A call on any of the eight block instructions goes on while the processor comes back to their address and returns after the first iteration that leaves it |
| `BlockCopy.OtherTakesOne` | src/emulator.cpp:61-75 | Any other instruction with the ED prefix, and a block instruction at 0xFFFF, is one iteration, even if it comes back |
| `BlockCopy.BlockStates` | src/emulator.cpp:67-77 | The clock states of n copied bytes: 21 each, and 16 for the last of the block |
| `BlockCopy.CopySteps` | src/emulator.cpp:46-56 | However steps are spread over calls, 2n of them copy n bytes in order while the opcode is kept |
| `BlockCopy.WholeBlockInOneCallIff` | src/emulator.cpp:57-78 | BC iterations (65536 for BC = 0) complete the copy with PC advanced by 2, and they are one call iff the instruction is not at 0xFFFF or BC is 1 |
| `BlockCopy.OverwrittenOpcodeIsExecuted` | src/emulator.cpp:74-75 | When iteration k has overwritten the opcode the call has not returned, k bytes are copied, and the processor is about to execute the new bytes |
| `BlockCopy.OneIteration` | src/emulator.cpp:68-73 | One prefix step and one opcode step advance the copy by one byte |
| `BlockCopy.CopyOnlyMeetsContract` | src/emulator.cpp:46-56 | The contract assumed of the processor can be met |
| `BlockCopy.CopiedClosedForm` | src/emulator.cpp:49-56 | Byte-by-byte copying, overlaps included, has a closed form: position modulo the distance between the blocks |
| `BlockCopy.BlockCopyMeaning` | src/emulator.cpp:57-78 | Every address of memory after the whole block, in either direction and across the wrap at 0xFFFF |
| `BlockCopy.FillWithFirstByte` | src/emulator.cpp:57-78 | With DE = HL + 1 the first byte fills the block |
| `BlockCopy.CopyOntoItself` | src/emulator.cpp:57-78 | With DE = HL memory is unchanged |
| `BlockCopy.OpcodeKeptWhenNotTargeted` | src/emulator.cpp:74-75 | A condition on the registers before the call under which the opcode survives the copy |
| `BlockCopy.SplitAcrossTheEndIsNotABlock` | src/emulator.cpp:61-65 | One call on a block copy at 0xFFFF takes two steps and copies one byte |
| `EndlessCalls.CallEndsIff` | src/emulator.cpp:70-72 | A call on anything but a block instruction returns iff some byte of memory is neither DD nor FD |
| `EndlessCalls.KeptCopyEnds` | src/emulator.cpp:68-75 | A block copy whose opcode survives returns |
| `EndlessCalls.OneByteAtATime` | src/emulator.cpp:74-75 | The iteration that first changes the opcode of a copy leaves one of its two bytes |
| `EndlessCalls.OverwrittenCopyNeverReturns` | src/emulator.cpp:74-75 | A copy that turns its opcode, before its last byte, into a jump to its own address never returns |
| `EndlessCalls.CopyBecomesJump` | src/emulator.cpp:74-75 | Conditions on registers and memory before the call under which an LDIR does so with its first byte |
| `EndlessCalls.SampleMeetsContracts` | src/emulator.cpp:46-56 | The contracts assumed of the processor can be met together |
| `Processor.EveryProcessorIsRealized` | src/emulator.cpp:57-78 | Every processor has an `exec` and `ends` that describe its calls |
| `Processor.StuckIff` | src/dbg.cpp:51-52 | A worker that executes anything but a block instruction is stuck iff memory holds nothing but DD and FD |
| `Processor.CopyHangsDisconnect` | src/dbg.cpp:87-92 | A copy that becomes a jump to itself makes a session hang in disconnect |
| `Processor.AllEndIff` | src/z80_target.cpp:235-252 | The instructions of a stepping command, block instructions apart, all end iff none finds memory full of DD and FD |
| `Disassembly.ScanReachesBase` | src/z80_target.cpp:566-577 | Up to a base of 0xFFFC the scan passes the base without wrapping; the first boundary at or after it lies within three bytes, and at least a quarter of the rewound bytes are boundaries before it |
| `Disassembly.BackwardEntryIsBase` | src/z80_target.cpp:565-581 | Entry k of the result is the first decoded boundary at or after the base, all earlier ones are below it, and with 4k bytes to rewind the index is never clamped |
| `Disassembly.BackwardAlignedIffDecoded` | src/z80_target.cpp:565-581 | That entry is the base itself iff the scan decodes an instruction at the base |
| `Disassembly.BackwardCanMissBase` | src/z80_target.cpp:565-581 | One step back from 100 lands on entry 101 when three bytes are decoded at 96 and two at 99 |
| `Disassembly.ScanEndsForEveryDecoderIff` | src/z80_target.cpp:571-577 | The scan ends for every decoder iff the base is at most 0xFFF8 |
| `Disassembly.ScanEndsForSomeDecoderIff` | src/z80_target.cpp:571-577 | There is a decoder for which the scan ends iff the base is at most 0xFFFB: from 0xFFFC on it never does |
| `Disassembly.Boundaries` | src/z80_target.cpp:569-577 | Whenever the scan ends for this decoder, the loop lists exactly the boundaries up to base plus 3 |
| `Disassembly.StartBackward` | src/z80_target.cpp:565-581 | Whenever the scan ends, the start is k boundaries before the first one at or after the base, or the first boundary |
| `Disassembly.StartForward` | src/z80_target.cpp:582-589 | The start is the k-th boundary after the base in 16-bit arithmetic |
| `Disassembly.Disassemble` | src/z80_target.cpp:555-620 | Whenever a backward scan ends: as many entries as asked for, each with the bytes of memory at its address, cut at the end, and each after the one before by its decoded length in 16-bit arithmetic; forward, entry i is i plus the offset instructions after the base; backward, the first entry is a boundary from four bytes back for each instruction, and the first one not below the base is within three bytes of it and comes at most k entries later, exactly k with 4k bytes to go back |
| `FullListing.Listing.Build` | src/dbg.cpp:489-530 | Line addresses start at 0 and strictly increase, each line starts where the one before ends, both maps agree, and the byte columns together are the whole memory |
| `FullListing.Listing.LineFor` | src/dbg.cpp:162-166 | The line whose address it is, else line 1; an address strictly between two lines, in the middle of an instruction, gets line 1 |
| `FullListing.LinesAndAddressesAreInverse` | src/dbg.cpp:489-530 | Line to address and address to line are inverse, and exactly the line addresses are mapped |
| `IntelHex.LoadIhx` | src/z80_target.cpp:43-104 | The loader on any lines, malformed ones included, is the fold of its records |
| `IntelHex.WriteRecord` | src/z80_target.cpp:70-78 | The data loop: bytes go to consecutive 32-bit addresses, those outside memory are dropped, a malformed byte ends the record |
| `IntelHexTheorems.TextMeansRecords` | src/z80_target.cpp:50-94 | On the text of any well-formed records, with any checksums and line endings, the loader does what the records say, up to the end-of-file record |
| `IntelHexTheorems.TruncatedIsSkipped` | src/z80_target.cpp:52-67 | A record cut off anywhere, even in its checksum, is passed over as a whole |
| `IntelHexTheorems.UnreadableByteEndsData` | src/z80_target.cpp:73-77 | A data byte that is no number ends its record; the bytes before it are used |
| `IntelHexTheorems.OtherRecordIsIgnored` | src/z80_target.cpp:79-93 | Records of unknown kinds, and address records that are too short or cannot be read, change nothing |
| `IntelHexTheorems.SignedByte` | src/z80_target.cpp:54-56 | A sign and a digit pass for a byte, a minus counting down from 256 |
| `HexCase.CaseDoesNotMatter` | src/z80_target.cpp:54-56 | Files that differ only in the case of hexadecimal letters load the same |
| `IntelHexTheorems.MemoryIsLastWriter` | src/z80_target.cpp:70-82 | Each cell holds the last byte written to its 32-bit address; other cells are unchanged |
| `IntelHexTheorems.EntryIsStartOrLowest` | src/z80_target.cpp:96-103 | The entry is the last explicit start address modulo 65536, else the lowest base of data, else 0 |
| `IntelHexTheorems.AnyChunkingLoadsTheImage` | src/z80_target.cpp:43-104 | However an image is cut into data records, loading their text puts it at its address and leaves the rest alone |
| `IntelHexTheorems.RecordsLoadImage` | src/z80_target.cpp:43-104 | Any records whose writes to memory are bytes of an image in their places, and leave none out, load the image: any order, any base, overlaps included |
| `IntelHexTheorems.AnyPiecesLoadTheImage` | src/z80_target.cpp:43-104 | From the text: pieces of an image in any order, each under its own extended linear address, load back the image |
| `SourceIndex.KeyInjective` | src/dbg.cpp:251-265 | Keys made of a name, a colon and a decimal line number are equal iff name and line are, even when names hold colons |
| `SourceIndex.Index.Rebuild` | src/dbg.cpp:231-283 | The three maps agree with scans of the data loaded, for every address, name and line |
| `SourceIndex.Index.SetCdbModules` | src/dbg.cpp:184-188 | The index is right after any load of CDB data, whatever was loaded before |
| `SourceIndex.Index.SetMapSymbols` | src/dbg.cpp:190-194 | The same after any load of MAP symbols |
| `SourceIndex.Index.LookupSource` | src/dbg.cpp:289-295 | The last CDB line record at the address, else the first MAP line there |
| `SourceIndex.Index.LookupSourceAny` | src/dbg.cpp:297-306 | That, else the first assembly line there |
| `SourceIndex.Index.LookupAddress` | src/dbg.cpp:308-327 | The first record with the file name and line, else the first with the stem |
| `SourceNames.FileNameOf` | src/dbg.cpp:308-327 | The file name of a path is what follows its last slash |
| `SourceNames.StemAndExtension` | src/dbg.cpp:308-327 | A file name with a dot that does not begin it is a stem and an extension, cut at its last dot |
| `SourceNames.MapSourceReads` | src/dbg.cpp:374-394 | A line symbol of the MAP file is read as the file and line in it |
| `SourceNames.AsmLineIsIndexed` | src/dbg.cpp:241-256 | Every assembly line of a module with an assembly file is a record at its address in that file, and under the module's name |
| `SourceNames.AsmRecordIsLine` | src/dbg.cpp:241-256 | And no other assembly record is in the index |
| `SourceNames.AsmLocationFound` | src/dbg.cpp:297-306 | An address has an assembly location iff an assembly module has a line there, and the location is marked as assembly |
| `SourceNames.AddressOrder` | src/dbg.cpp:236-282 | Of several records for a name and line the CDB file's win over the MAP file's, earlier modules over later ones, and in a module its assembly line over its C lines |
| `SourceNames.SourceOrder` | src/dbg.cpp:258-261 | Of several C lines at an address the last in load order wins, under its resolved path |
| `SourceNames.MapSourceOrder` | src/dbg.cpp:269-278 | Of several MAP line symbols at an address the first gives the source line, under its resolved path |
| `SourceIndex.FirstRecIsFirst` | src/dbg.cpp:270-278 | The first-wins scan returns the first match and only a match |
| `SourceIndex.FirstNamedIsFirst` | src/dbg.cpp:263-265 | The same for names and lines |
| `SourceIndex.LastRecIsLast` | src/dbg.cpp:258-261 | The last-wins scan returns the last match and only a match |
| `Breakpoints.Table.IsBreakpoint` | src/dbg.cpp:175-178 | After any sequence of requests and launches an address is a breakpoint iff it was found for a line of the latest request for some file when sources were last looked up, or is in the latest listing, function or instruction request |
| `Breakpoints.OneSourceAtATime` | src/dbg.cpp:98-106 | A request for one source changes the lines requested for no other source, and no other kind of breakpoint |
| `Breakpoints.LaunchWithoutProgramKeepsAddresses` | src/z80_target.cpp:185-188 | After a launch without a program an address is a breakpoint iff it was one before |
| `Breakpoints.SourceRequestReplaces` | src/dbg.cpp:98-143 | After a request for a file exactly its lines, the lines last requested for the other files, looked up again, and the other kinds as before are armed |
| `Breakpoints.ListingRequestReplaces` | src/z80_target.cpp:458-474 | A request for the listing replaces the listing's breakpoints and nothing else |
| `Breakpoints.FunctionRequestReplaces` | src/z80_target.cpp:487-503 | A request for functions replaces the function breakpoints and nothing else |
| `Breakpoints.InstructionRequestReplaces` | src/z80_target.cpp:505-521 | A request for instructions replaces the instruction breakpoints and nothing else |
| `Breakpoints.LaunchLooksLinesUpAgain` | src/z80_target.cpp:181-181 | A launch with a program looks the requested lines up in the new data; the other kinds keep their addresses |
| `Breakpoints.AddressesAre` | src/z80_target.cpp:487-503 | The addresses armed by a request are exactly those some item of it has |
| `Breakpoints.ListingLineRoundTrip` | src/z80_target.cpp:458-470 | A breakpoint on a listing line is at the address whose listing line is that line, and at no other |
| `Breakpoints.Table.SetSourceBreakpoints` | src/z80_target.cpp:449-485 | The set follows the request; every line is answered, with a note that says why if it is not verified, verified iff it has an address, which is then a breakpoint; a request without a path answers and changes nothing |
| `Breakpoints.Table.SetFunctionBreakpoints` | src/z80_target.cpp:487-503 | The set follows the request; a function is verified iff it has an address, which is then a breakpoint |
| `Breakpoints.Table.SetInstructionBreakpoints` | src/z80_target.cpp:505-521 | The set follows the request; the addresses answered are those of the readable references, all armed |
| `Breakpoints.Table.RebuildSources` | src/dbg.cpp:130-143 | The addresses collected are exactly those some line of some file has, in whatever order the files are visited |
| `Breakpoints.Table.RebuildAll` | src/dbg.cpp:145-152 | The merged set is the union of the four kinds |
| `SymbolLookup.LookupFunction` | src/dbg.cpp:356-372 | The loop finds the address of the first symbol that stands for the function |
| `SymbolLookup.FirstSymbolIsFirst` | src/dbg.cpp:356-372 | That is the first with its name, its name after an underscore, or its name between the first two dollars of `G$...`; none iff there is none |
| `SymbolLookup.SpellingsAre` | src/dbg.cpp:358-369 | For a name without dollars: exactly the name, the name after an underscore, and what begins with the name between `G$` and a dollar stand for the function |
| `SymbolLookup.LookupLine` | src/dbg.cpp:113-117 | The index gives exactly the addresses that the breakpoints are armed with |
| `SymbolLookup.LineHasRecord` | src/dbg.cpp:308-327 | A line has an address iff some loaded record has that line and the file's name or stem, and the address is that of such a record |
| `SymbolLookup.ArmedLinesHaveRecords` | src/dbg.cpp:130-143 | Addresses armed for a file are those of records for its requested lines, and every requested line that has a record is armed |
| `Framing.ReadMessage` | lib/dap/dap.cpp:243-280 | The reader's loop, with its failures, consumes and returns what the reading function says |
| `Framing.SendMessage` | lib/dap/dap.cpp:282-287 | Exactly one frame is appended |
| `Framing.Session.HandleMessage` | lib/dap/dap.cpp:204-241 | A request that does not parse gets the malformed response and changes nothing; a handler may change the shared state; a response gets the next number, other texts are passed on as they are |
| `Framing.Session.Run` | lib/dap/dap.cpp:289-307 | The output grows by the frames of the answers to everything read, in order, and state and numbering end where those answers leave them |
| `Framing.ResponsesAreNumbered` | lib/dap/dap.cpp:232-238 | The numbers that the answers of a session carry are consecutive in the order they are sent, whatever the handlers do |
| `Framing.RequestsAreAnswered` | lib/dap/dap.cpp:204-241 | Every request read is answered, in order: a malformed one by the fixed text, any other by what its handler gives in the state that the requests before it have left, a response with the number after those of the responses before it in its text |
| `Framing.NothingIsDropped` | lib/dap/dap.cpp:301-304 | Answers that are not empty are all sent, in order |
| `Framing.AllNumberedIff` | lib/dap/dap.cpp:204-241 | When handlers answer with responses, every request read is answered, and every answer carries a number iff every request parses: the response to a malformed one has none and takes none |
| `Framing.ReceiveFrame` | lib/dap/dap.cpp:243-280 | A whole frame is read as exactly its message, whatever its body holds and whatever follows |
| `Framing.OtherHeadersAreSkipped` | lib/dap/dap.cpp:249-264 | Other headers before the length change nothing |
| `Framing.LastLengthCounts` | lib/dap/dap.cpp:254-264 | Of several length headers the last one that can be read counts |
| `Framing.NewlinesSuffice` | lib/dap/dap.cpp:250-252 | Header lines may end with a newline alone |
| `Framing.PartialFrameIsNoMessage` | lib/dap/dap.cpp:266-279 | No proper prefix of a frame is taken for a message |
| `Framing.ReadAllFrames` | lib/dap/dap.cpp:243-287 | Reading a stream of frames, even cut off inside the next one, gives exactly the messages, in order |
| `Framing.ReadAllIsSendablePrefix` | lib/dap/dap.cpp:243-287 | Reading any stream of frames gives the messages up to the first that is empty or longer than INT_MAX |
| `Framing.ReadBackIffSendable` | lib/dap/dap.cpp:243-287 | A stream of frames is read back as the messages written iff each has at least one character and at most INT_MAX |
| `Framing.ClientReadsResponses` | lib/dap/dap.cpp:289-307 | End to end: a client that sends sendable requests reads back exactly the answers, in order, iff none is longer than INT_MAX |
| `Framing.EmptyMessageEndsSession` | lib/dap/dap.cpp:293-295 | An empty message anywhere ends the session: what comes before it is answered and nothing after it |
| `SharedOutput.ReaderSeesSentMessages` | lib/dap/dap.cpp:196-202 | In every interleaving of threads that write their frames piece by piece under the lock, a reader gets the messages sent in lock order, all of them iff each is sendable, never a partly written one; no thread's messages are lost, repeated or reordered |
| `ReadMemory.StartWraps` | lib/dap/target.cpp:404-404 | The unsigned 32-bit arithmetic equals the signed sum modulo 65536, for any offset |
| `ReadMemory.EncodeLoop` | lib/dap/target.cpp:408-420 | The encoding loop computes the encoding function |
| `ReadMemory.DecodeEncode` | lib/dap/target.cpp:406-420 | A decoder written from section 4 of RFC 4648 gives back exactly the bytes |
| `ReadMemory.EncodeDecode` | lib/dap/target.cpp:406-420 | It accepts no other text for the same bytes |
| `ReadMemory.EncodeLength` | lib/dap/target.cpp:411-411 | The length is 4 * ceil(n / 3) |
| `ReadMemory.ReadMemoryField` | lib/dap/target.cpp:402-430 | The decoded field is the memory from the wrapped start, cut at the end of memory, for any signed offset and any count |
| `CdbParser.Parser.ParseSymbol` | lib/sdcc/cdb_parser.cpp:99-185 | A symbol goes to the current module, a local one to the first function of its name there or nowhere |
| `CdbParser.Parser.ParseType` | lib/sdcc/cdb_parser.cpp:187-209 | A type goes to the current module |
| `CdbParser.Parser.ParseFuncMarker` | lib/sdcc/cdb_parser.cpp:217-247 | A marker sets the start or end of the first matching function of the first matching module, and nothing else |
| `CdbParser.Parser.ParseSourceLine` | lib/sdcc/cdb_parser.cpp:297-346 | A source line goes to the current module if it fits, else to the first that does, else nowhere |
| `CdbParser.Parser.ParseAsmLine` | lib/sdcc/cdb_parser.cpp:274-295 | The first address recorded for an assembly line stays |
| `CdbParser.Parser.ParseLine` | lib/sdcc/cdb_parser.cpp:55-69 | A line has the effect of the record it reads as, or none |
| `CdbParser.Parser.MergeAsmLines` | lib/sdcc/cdb_parser.cpp:33-53 | Assembly lines are merged into the first module of their name, or a new stub for an assembly file, in whatever order names are visited |
| `CdbParser.Parser.Parse` | lib/sdcc/cdb_parser.cpp:15-31 | The whole file: the fold of its records, merged |
| `CdbText.EntryReads` | lib/sdcc/cdb_parser.cpp:249-323 | A module, assembly-line or source-line record, with colons in its names or not, is read as the name, line and address printed in it |
| `CdbMembers.FunctionReads` | lib/sdcc/cdb_parser.cpp:80-97 | A function line is read as the name between its dollars and its scope |
| `CdbMembers.SymbolReads` | lib/sdcc/cdb_parser.cpp:99-185 | A symbol line that is not local is read as a variable of the current module, with its scope by the first letter |
| `CdbMembers.LocalReads` | lib/sdcc/cdb_parser.cpp:166-176 | A local symbol belongs to the function named after the dot of its scope |
| `CdbMembers.VariableReads` | lib/sdcc/cdb_parser.cpp:113-164 | Type, storage, offset and registers of a variable are read from their places in the line |
| `CdbMembers.SizeReads` | lib/sdcc/cdb_parser.cpp:119-127 | The size in braces is kept between 1 and 4 |
| `CdbMembers.TypeReads` | lib/sdcc/cdb_parser.cpp:187-209 | A type line is read as its name, scope and bracketed layout |
| `CdbMembers.MarkerReads` | lib/sdcc/cdb_parser.cpp:217-272 | The prefixes F and G give start markers, XF and XG end markers, with module, function and address |
| `CdbMembers.LastFieldAddress` | lib/sdcc/cdb_parser.cpp:311-318 | The address of a source line follows the first colon of its last field, and is 0 if it is no number |
| `CdbMembers.OwnerIs` | lib/sdcc/cdb_parser.cpp:325-330 | A source file belongs to the module of its name up to the last dot |
| `CdbText.FileReads` | lib/sdcc/cdb_parser.cpp:24-28 | The text of a whole file, with lines of any other kind among those records and any blanks or carriage returns at the ends of lines, is read as their meanings in order |
| `CdbTheorems.ModulesInOrder` | lib/sdcc/cdb_parser.cpp:33-78 | Declared modules keep their order and come first; behind them one stub for each name with assembly lines and no declaration |
| `CdbTheorems.AsmLinesConserved` | lib/sdcc/cdb_parser.cpp:274-295 | Every recorded assembly line is in exactly one module, the first of its name, with its first address; and nothing else is |
| `CdbTheorems.SourceLinesConserved` | lib/sdcc/cdb_parser.cpp:297-346 | Every source line whose stem names a module declared so far is in exactly one module, of that name, as often as recorded; and no others are |
| `CdbContents.ContentsInOrder` | lib/sdcc/cdb_parser.cpp:71-346 | Each declared module holds exactly the source lines routed to it and the functions with their scopes, local and global symbols and types of its own section of the file, in file order; stubs hold none |
| `CdbMarkers.AddressesAreLastMarkers` | lib/sdcc/cdb_parser.cpp:211-247 | Each function starts and ends where the last start and end markers say that route to it, given the modules and functions recorded before each marker; without one it has no address |
| `CdbFiles.ModuleFiles` | lib/sdcc/cdb_parser.cpp:33-78 | A declared module is taken for the file of its first source line outside `name.c`, else `name.c`; a stub for `name.s` |
| `CdbFiles.UndeclaredIsIndexed` | src/dbg.cpp:241-256 | Every assembly line of a module that is not declared is in the index, at its first address, in `name.s` |
| `CdbFiles.AssemblyModuleIndexed` | src/dbg.cpp:241-256 | So is every assembly line of a module whose file is an assembly file |
| `CdbFiles.IndexedIsRecorded` | src/dbg.cpp:241-256 | The index holds no other assembly record than those recorded first for a module with an assembly file |
| `CdbFiles.FoundByAddress` | src/dbg.cpp:297-306 | An address with an indexed assembly line and no C line has an assembly location |
| `CdbFiles.FoundByLine` | src/dbg.cpp:308-327 | An indexed assembly line has an address in any file whose stem is the module's name |
| `CdbLoad.LoadCdb` | src/z80_target.cpp:158-166 | Parsing a CDB file and handing its modules to the index, in whatever order their hash maps are iterated, leaves lookups that agree with scans of the file's records, and every assembly line of an undeclared module in the index |
| `CdbLoad.LookupFromText` | src/dbg.cpp:258-261 | From the text of any file to lookup: an address has a source location iff a source line naming a module declared so far was recorded for it, and the location is that of such a line |
| `CdbTheorems.ParseKeeps` | lib/sdcc/cdb_parser.cpp:24-28 | What holds after every record of a file, in file order |
| `Util.SplitLoop` | lib/sdcc/util.cpp:33-43 | The loop computes the tokens |
| `Util.SplitJoin` | lib/sdcc/util.cpp:31-43 | Joining the tokens gives back the text, and no token holds the delimiter |
| `Util.SplitUnique` | lib/sdcc/util.cpp:31-43 | Splitting a join of delimiter-free tokens gives back the tokens |
| `Util.SplitCount` | lib/sdcc/util.cpp:31-43 | There is one token more than there are delimiters |
| `Util.TrimIsTheCore` | lib/sdcc/util.cpp:24-29 | Trimming gives the one core that neither begins nor ends with a blank |
| `Util.TrimCuts` | lib/sdcc/util.cpp:24-29 | What is cut off on either side is blank |

## Left out

- RunControl.RunKeepsInv: every shared access is one atomic step (the relaxed load and the plain `launched_` are taken as sequentially consistent), and stepping, launching and breakpoint changes wait for the stopped event, as docs/manuals/USING-LIBDAP.md asks of clients.
- RunControlTheorems.UndisturbedRunIsSequential: says where a run stops if it stops; a program that reaches neither a breakpoint nor a HALT runs on.
- BlockCopy.Emulator.StepInstruction: requires that the call ends, and `Stepping.Stepper.Step` and its siblings that every instruction they execute does; what single steps do is fixed only for index prefixes, JP nn, LDIR and LDDR, where flags and the refresh register stay free. CPIR, CPDR, INIR, INDR, OTIR and OTDR depend on flags and ports and have no contract here, so neither has the question whether they end.
- Disassembly.Disassemble: requires of a negative instruction offset that the scan ends for the memory at hand, because the program does not answer otherwise; `int` overflow of the backstep is not modelled.
- StepTheorems.StepOverSkipsWholeCalls: speaks, like `StepTheorems.StepOverEndsInOpenCall`, of tracked executions; of the others only `Stepping.Stepper.StepOverLoop` and `StepTheorems.StepOverIterates` speak.
- IntelHexTheorems.TextMeansRecords: digits are printed in upper case; cutting a file into lines is the stream library's.
- SourceIndex.Index.Rebuild: assembly lines of a module come in the order in which the hash map is iterated, which may be any; path resolution is a pure function; `path::filename` and `path::stem` are modelled for `/` separators.
- Breakpoints.Table.SetInstructionBreakpoints: turning a reference into a number is a parameter.
- CdbText.FileReads: round trips are claimed for names without `$` (and without a final blank, for modules), decimal line numbers up to INT_MAX and four upper-case hexadecimal digits; a line of any other kind stands for what `CdbParser.ReadRecord` reads from it, which `CdbMembers` gives for well-formed function, symbol, type and marker lines.
- Framing.Session.HandleMessage: whether a request parses is a parameter, and choosing the handler is part of the handler function; the response number is an unbounded integer.
- Processor state beyond the eighteen register cells (interrupt latches inside the emulator) is not saved by the history and not modelled.
- The text of the listing beyond its byte columns, mnemonics and symbol names.
- The MAP parser, whose meaning is in its regular expressions.
- Scopes, variables, expression evaluation and value formatting.
- Source references, source contents on disk and MIME types.
- Sockets, stream buffers, process start, the JSON library and the editor extension.
