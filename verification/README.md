# PPC Lab: loaders, interpreter, scheduler and analyses, modelled and proved

PPC Lab loads PowerPC programs (PEF, ELF, Mach-O) into a permissioned 32-bit
memory, runs them in a PowerPC interpreter, schedules campaigns of such runs,
and searches and analyses what they leave behind. This project
models those parts and proves their central laws.

| file | what it models |
|---|---|
| `Words.dfy`, `Numbers.dfy` | fixed-width words, bits, big-endian bytes, powers of two |
| `Memory.dfy` | `MemoryModel`, `MemoryMapping`: sorted disjoint regions, as a list and as a class, refining a flat byte map |
| `Cpu.dfy`, `Interpreter.dfy` | `CpuModel`, `Interpreter`: the processor state and what every instruction does |
| `Engine.dfy` | the run loop that changes processor and memory in place, proved equal to the specification |
| `RunLaws.dfy`, `Countdown.dfy` | laws of whole runs, and one program from start to end |
| `Accesses.dfy`, `Registers.dfy`, `RegisterNumbers.dfy`, `SystemInstructions.dfy` | what each instruction does, told on bytes, bits and numbers |
| `BlockMoves.dfy`, `Conformance.dfy` | what the memory stubs do to memory; where the interpreter and the architecture part |
| `Arithmetic.dfy`, `Division.dfy`, `SaveRestore.dfy`, `Overflow.dfy` | several instructions together: multi-word sums and differences, signed division, saving and restoring registers; when OV is right |
| `Elf.dfy`, `ElfTables.dfy`, `ElfCode.dfy`, `ElfWords.dfy`, `Folds.dfy` | ELF relocation entries and tables, how the interpreter reads the patched code, and what each kind leaves in memory |
| `Pattern.dfy`, `Unpack.dfy`, `PatternBytes.dfy` | PEF pattern-initialized data: the language of operations, the unpacking loop, and the output byte by byte |
| `PefReloc.dfy`, `PefUnroll.dfy`, `PefWords.dfy`, `PefChunks.dfy` | the PEF relocation machine, what its repeats mean, and what each chunk does to which words |
| `PefLoad.dfy`, `PefLayout.dfy`, `PefRebase.dfy`, `PefFrame.dfy` | loading a PEF image, where its sections lie, loading it somewhere else, and loading it beside other regions |
| `Schedule.dfy`, `ScheduleLaws.dfy`, `ScheduleFairness.dfy`, `Scheduler.dfy`, `SchedulerProgress.dfy` | the campaign scheduler as a state machine, its laws, its polling loop over mutable state, and the end of that loop |
| `ScheduleAdmission.dfy`, `ScheduleRounds.dfy` | what each decision and each round does to the records, and what the clocks add up to |
| `Graph.dfy` | breadth-first search over the knowledge graph |
| `Tally.dfy`, `Trace.dfy`, `TraceReport.dfy`, `TraceSummary.dfy` | counters and sorting, dynamic basic blocks, the tables of the trace report, and its counts and coverage |

Code that changes state step by step is modelled by classes and methods with
loops (`Memory`, `Cpu`, `RelocInterpreter`, `Scheduler`, the unpacker, the
searches). Each is proved equal to a function of the old state, and the laws
are proved about those functions, so they hold of the methods. What the
functions compute is stated a second time without them: on the words and bytes
of memory for relocations, pattern data, loads and stores (`PefChunks`,
`ElfWords`, `PatternBytes`, `Accesses`), on bits and numbers for the register
instructions, and on the fields of the records for the scheduler.

## Results

* **PEF relocation.** Repeats are an abbreviation: a stream that runs means
  the same as its unrolling (`UnrolledStreamSucceeds`). Unrolling is not
  faithful for every stream: a repeat can refer to the second half of a
  two-chunk instruction, and then the original fails where the unrolling may
  run (`MisalignedRepeatDiffers`). `RunsExactlyWhenAligned` gives the exact
  condition. Loading at another base moves everything that refers to a section
  and nothing else (`RebaseLaw`, `RebasedWords`). Beside other regions this is
  true exactly as long as the relocations do not reach them (`FrameLaw`,
  `RebaseBesideLaw`); nothing in the machine keeps its cursor inside the image,
  and `StrayingDoesNotRebase` is an image where it leaves.
* **Pattern data.** Decoding inverts encoding on all operation sequences, and a
  stream decodes exactly when it is such an encoding and fits
  (`RoundTrip`, `DecodableExactlyWhenEncoded`). The 64-bit size check of the
  interleave can wrap around; `UnpackInterleave` shows the outcome is right
  nevertheless.
* **Interpreter.** Runs split at any limit, read-only memory is constant over
  runs of any length, chains of carry instructions compute multi-word sums and
  differences, `srawi` and `addze` divide, and the countdown loop takes
  exactly 4n + 3 instructions. `stmw` and `lmw` restore what was saved.
* **Instructions.** Every load and store, with its address, width, byte order
  and update, is a law about bytes and a register (`ZeroExtendedLoad`,
  `IntegerStore`), with the round trip `StoreThenLoad`; the register
  instructions are laws about bits and integers, such as the remainder law of
  `ProductInstruction`.
* **Overflow.** The overflow-recording forms compute OV after writing `rt`, so OV
  is wrong when `rt` overwrites an operand that the test reads again.
  `OvExactlyWhenSafe` and `PlainOvExactlyWhenSafe` give, for every form, exactly
  the register choices for which OV is right on all inputs.
* **ELF.** Each kind leaves S + A, B + A, S + A - P or the offset in the section,
  or the half of it, at P and nothing anywhere else (`AbsoluteWord` to
  `BranchKinds`). Relocated branches reach their symbols and HA/LO pairs load them,
  as the interpreter decodes the patched words; disjoint tables may be applied
  in any order and twice.
* **Scheduler.** The accounts hold in every state across crashes and resumes,
  terminal statuses are final, the deadlock error cannot occur, and weighted
  fair share is bounded by one dispatch. A campaign is admitted exactly when
  budget and clock allow it (`Admission`), and the clock is the time of the
  project's children and nothing else (`ClockAddsUp`). The loop ends within a
  bound as long as running campaigns finish (`PollingEnds`).
* **Graph and traces.** Both searches are exact. The fall-through edge kind
  is never produced (`NoFallthrough`): blocks only end where control is
  transferred or the trace jumps, which is already a call, return or branch.
  `blrl`, listed as a call and as a return, always counts as a call
  (`EdgeKinds`).

Two further places where the interpreter does not do what the PowerPC User Instruction
Set Architecture, Book I, says, each with the exact condition under which the
two agree:

* `lhzux` (section 3.3.2) is decoded from extended opcode 331
  (src/BuiltinInterpreter.cpp:726) where the architecture has 311, which is
  refused (`HalfwordUpdateExactly`).
* `bclrl` and `bcctrl` (section 2.4) set LR only when the branch is taken
  (src/BuiltinInterpreter.cpp:317-344) where the architecture sets it always
  (`LinkAgreesExactly`).

## Model

| member | source | states |
|---|---|---|
| `PefUnrolling.UnrolledStreamSucceeds` | `src/PefLoader.cpp:587-724` | If a relocation stream runs, the stream in which every small and large repeat is replaced by copies of the chunks it refers to runs without repeats and ends in the same memory, cursor, sectionC, sectionD and import index. |
| `PefUnrolling.UnrollPreservesMeaning` | `src/PefLoader.cpp:587-724` | From any position and state, a stream whose repeats refer to whole instructions and its unrolling give the same result, failures included. |
| `PefUnrolling.SuccessHasAlignedRepeats` | `src/PefLoader.cpp:662-676` | A stream can only run if the chunks of each repeat that is executed at all form whole instructions. |
| `PefUnrolling.RunsExactlyWhenAligned` | `src/PefLoader.cpp:587-724` | Where the unrolling runs, the original runs if and only if its repeats refer to whole instructions. |
| `PefUnrolling.SuccessIsRepeatFree` | `src/PefLoader.cpp:662-663` | A stream run where repeats are not allowed holds no repeat instruction. |
| `PefUnrolling.MisalignedRepeatDiffers` | `src/PefLoader.cpp:662-680` | A concrete stream whose repeat refers to the second half of a two-chunk instruction: it fails, its unrolling runs. |
| `PefUnrolling.ExecConcat` | `src/PefLoader.cpp:587-724` | Running two streams in sequence is running their concatenation, when the first ends where an instruction ends. |
| `PefUnrolling.ExecCopies` | `src/PefLoader.cpp:671-674` | The copies of a block, run once, do what repeating the block does. |
| `PefRelocation.RelocInterpreter.Execute` | `src/PefLoader.cpp:587-724` | The in-place interpreter over chunks and a range succeeds or fails as the stream semantics does and leaves exactly its memory, cursor, section registers and import index, also where it fails half way; it terminates by (repeats allowed, chunks left). What each chunk adds to which word is stated by `PefChunks`. |
| `PefRelocation.RelocInterpreter.ExecuteRepeat` | `src/PefLoader.cpp:662-708` | Re-executing the chunks before a repeat the given number of times is the iterated block, up to the state of the first failure. |
| `PefRelocation.RelocInterpreter.ExecuteSimple` | `src/PefLoader.cpp:595-720` | Each instruction other than a repeat changes the state as the semantics of that instruction, or fails with the state it reached. |
| `PefRelocation.RelocInterpreter.ExecuteUnits` | `src/PefLoader.cpp:579-630` | A run of relocation units, one word at a time, is the iterated unit; a failure keeps the words patched before it. The words and addends are stated by `PefWords.UnitsEffect`. |
| `PefRelocation.RelocInterpreter.AddWordAt` | `src/PefLoader.cpp:524-531` | Adding to a word of memory modulo 2^32 fails exactly when the word is unmapped, and then changes nothing. |
| `PefRebasing.RebaseLaw` | `src/PefLoader.cpp:457-806` | Into an empty memory, at base and base + d with d a multiple of every section alignment and no wrap-around, loading succeeds at both or at neither; all sections, patched addresses, section-relative exports and entries move by d, and every recorded patch adds d more exactly when its addend is a section base. Failed loads too leave behind what differs by d. |
| `PefFraming.FrameLaw` | `src/PefLoader.cpp:457-806` | Into a memory that holds other regions, an image loads without patching them if and only if it loads into an empty memory and its sections find their ranges free; then sections, patches, exports and entries are the same, and the memory is the image and the other regions side by side. |
| `PefFraming.RebaseBesideLaw` | `src/PefLoader.cpp:457-806` | The rebase law beside other regions: where the image loads without patching them, it does so d further up if and only if they leave the moved sections free; then the image has moved, and every byte of the other regions is where and what it was. |
| `PefFraming.RebasedWordsBeside` | `src/PefLoader.cpp:457-776` | Word by word, the moved image beside other regions differs by d for each section-base patch. |
| `PefFraming.StrayingDoesNotRebase` | `src/PefLoader.cpp:587-724` | Free ranges alone are not enough: a concrete image whose relocation cursor leaves the image patches another region at one base and fails at the other, although that region is apart from both layouts. |
| `PefFraming.ExecFollows` | `src/PefLoader.cpp:587-724` | The relocation machine alone and beside other regions stay in lock step until one of its patches goes into another region. |
| `PefFraming.MapAllBeside` | `src/PefLoader.cpp:457-500` | The layout beside other regions exists if and only if it does alone and its ranges are free, at the same addresses. |
| `PefFraming.PlaceBeside` | `src/PefLoader.cpp:475-497` | The same for one section. |
| `PefRebasing.RebasedWords` | `src/PefLoader.cpp:457-776` | A word of the loaded image not partially overlapped by a patch differs between the two loads by d for each section-base patch at it, so words patched only by imports or not at all are the same. |
| `PefRebasing.ExecMoved` | `src/PefLoader.cpp:587-724` | The interpreter in lock step on an image and the moved image: same success, same control state, moved cursor and registers, and moved patches. |
| `PefRebasing.MapMoved` | `src/PefLoader.cpp:457-500` | Section layout from a cursor and from the cursor + d gives the same contents d apart, or fails at both. |
| `PefRebasing.EntriesMoved` | `src/PefLoader.cpp:790-806` | The main, init and term entries exist at both bases or at neither, and those inside sections move by d. |
| `PefRebasing.PatchedWords` | `src/PefLoader.cpp:524-531` | Replaying a patch history on moved memories: each word moves by d times the number of section-base patches at it. |
| `PefRebasing.AlignedAt` | `src/PefLoader.cpp:115-119` | Rounding up to a power of two commutes with a shift by a multiple of it. |
| `PefLoading.LoadImage` | `src/PefLoader.cpp:831-847` | Mapping, relocating, export and entry resolution in place succeed or fail as the load specification does and leave exactly the memory and addresses it says, also after a failure in any phase. |
| `PefLoading.DiscoverEntries` | `src/PefLoader.cpp:790-806` | The main, init and term entries are found in order, up to the first that lies outside an instantiated section. |
| `PefLoading.MapAllSections` | `src/PefLoader.cpp:457-500` | The layout loop over all sections is the recursive layout: each section rounded up to its alignment, contents copied or unpacked; a failure keeps the sections placed before it. |
| `PefLoading.PlaceOne` | `src/PefLoader.cpp:469-497` | Placing one section: the region exists with its permissions and its contents padded with zeros. A refused range changes nothing; pattern data that do not unpack leave the region mapped and zero. |
| `PefLoading.ApplyRelocations` | `src/PefLoader.cpp:747-776` | The relocation headers are run one after the other, each with a fresh cursor at its section and the first two section bases in the registers; a failure keeps the words patched before it. |
| `PefLoading.RelocateExports` | `src/PefLoader.cpp:778-788` | Every export gets its section base added if that section is mapped, and is left alone otherwise. |
| `PatternData.RoundTrip` | `src/PefLoader.cpp:384-455` | For every sequence of zero, copy, repeat and interleave operations, decoding its encoding gives the denoted bytes padded with zeros if they fit, and fails if they do not. |
| `PatternData.DecodableExactlyWhenEncoded` | `src/PefLoader.cpp:384-455` | A stream decodes if and only if it is the encoding of some operations whose bytes fit; the result has exactly the requested size. |
| `PatternData.ParseAllOfEncoded` | `src/PefLoader.cpp:384-455` | The operations are recovered from their encoding. |
| `PatternData.EncodedOfParseAll` | `src/PefLoader.cpp:384-455` | Every stream that parses is the encoding of what it parses to: no byte is ignored. |
| `PatternData.ParseOpOfEncoded` | `src/PefLoader.cpp:393-448` | One operation and the bytes after it are recovered from the encoding, for inline counts and for 1 to 5 byte counts. |
| `PatternData.EncodedOfParseOp` | `src/PefLoader.cpp:393-448` | An operation that parses consumed exactly its own encoding. |
| `PatternData.ReadArgOfEncoded` | `src/PefLoader.cpp:346-360` | A base-128 argument is read back from its digits. |
| `PatternData.DigitsDenote` | `src/PefLoader.cpp:346-360` | Every 32-bit value below 128^n is the value of its n base-128 digits. |
| `PatternUnpacker.UnpackPattern` | `src/PefLoader.cpp:384-455` | The cursor loop over the stream computes the decoded bytes, or fails exactly when the stream does not decode; it terminates on the cursor; the bytes themselves are stated by `PatternBytes`. |
| `PatternUnpacker.UnpackOne` | `src/PefLoader.cpp:393-448` | One round of the loop consumes one operation and appends what it denotes, or fails exactly when it does not parse or does not fit. |
| `PatternUnpacker.UnpackInterleave` | `src/PefLoader.cpp:429-442` | The interleave with its 64-bit size check: despite wrap-around of that check, it succeeds exactly when the blocks are there and the bytes fit. |
| `PatternUnpacker.WeaveBlocks` | `src/PefLoader.cpp:437-441` | The loop over custom blocks appends common and custom blocks alternately. |
| `PatternUnpacker.UnpackRepeat` | `src/PefLoader.cpp:407-420` | The repeat count is one more than its argument, up to 2^32, and the copies are appended if they fit. |
| `PatternUnpacker.ReadPidataArg` | `src/PefLoader.cpp:346-360` | The shifting loop reads the argument modulo 2^32 and stops at the first byte below 128, after at most five bytes. |
| `PatternUnpacker.AppendRaw` | `src/PefLoader.cpp:371-382` | Raw bytes are copied exactly when they are there and fit. |
| `RunLaws.RunSplits` | `src/BuiltinInterpreter.cpp:181-222` | A run with limit m + n is a run with limit m, continued with limit n only if it stopped on the limit, with m added to the count; an earlier stop is the same for every larger limit. |
| `RunLaws.RunContinues` | `src/BuiltinInterpreter.cpp:181-222` | The same from any count already reached. |
| `RunLaws.RunOffset` | `src/BuiltinInterpreter.cpp:181-222` | The count at the start only adds to the reported count. |
| `RunLaws.StepNeverReportsLimit` | `src/BuiltinInterpreter.cpp:1179-1180` | No single instruction stops with the limit reason. |
| `RunLaws.RunKeepsReadOnly` | `src/BuiltinInterpreter.cpp:181-1181` | No run of any length changes the region layout or permissions, or any byte of a region without write permission. |
| `RunLaws.ReadOnlyCodeIsConstant` | `src/BuiltinInterpreter.cpp:195-204` | An instruction word in memory without write permission is fetched the same after any run. |
| `RunLaws.StoreMultipleKeepsReadOnly` | `src/BuiltinInterpreter.cpp:1029-1036` | stmw, even when it faults half way, changes no read-only byte. |
| `RunLaws.StepKeepsReadOnly` | `src/BuiltinInterpreter.cpp:181-222` | No fetched instruction changes a read-only byte or the layout. |
| `Engine.RunLoop` | `src/BuiltinInterpreter.cpp:181-222` | The mutating loop over cpu and memory ends with the reason, count, pc, instruction, registers and memory of the run specification. |
| `Engine.StepOnce` | `src/BuiltinInterpreter.cpp:184-222` | Return, import trap and fetch checks in order, then the instruction; on a fault the pc has already moved on. |
| `Engine.ExecuteInstruction` | `src/BuiltinInterpreter.cpp:222-1177` | Dispatch on the opcode changes cpu and memory as the instruction semantics says; its effect on bytes and registers is stated by `Accesses`, `Registers`, `RegisterNumbers` and `SystemInstructions`. |
| `Engine.ExecuteAccess` | `src/BuiltinInterpreter.cpp:956-1073` | Loads and stores in place, with update forms writing the address register only on success; the values are stated by `Accesses`. |
| `Engine.LoadRegisters` | `src/BuiltinInterpreter.cpp:1021-1028` | lmw keeps the registers loaded before a fault. |
| `Engine.StoreRegisters` | `src/BuiltinInterpreter.cpp:1029-1036` | stmw keeps the words stored before a fault. |
| `Engine.ExecuteReserved` | `src/BuiltinInterpreter.cpp:549-559` | stwcx. stores only under a valid reservation, which it always ends. |
| `Engine.ExecuteBranchDirect` | `src/BuiltinInterpreter.cpp:272-307` | bc and b in place: target, link register and count register, with LR set whether or not bc is taken. |
| `Engine.ExecuteBranchRegister` | `src/BuiltinInterpreter.cpp:308-373` | bclr and bcctr set LR only when taken, and run an import stub bound to the target first. |
| `Engine.ExecuteImportStub` | `src/ImportStubs.cpp:67-114` | The stubs in place: memory moved or filled and registers set, or nothing changed on failure. |
| `Engine.MoveBlock` | `src/ImportStubs.cpp:59-90` | A block is copied through a buffer, so overlapping blocks arrive intact; no change if either range is unmapped. |
| `Engine.ClearBlock` | `src/ImportStubs.cpp:91-110` | A block is filled, up to 16 MiB, or nothing changes. |
| `Engine.FindImportStub` | `src/ImportStubs.cpp:49-53` | The first binding of an address. |
| `Engine.Cpu.EvaluateBranchCondition` | `src/BuiltinInterpreter.cpp:169-179` | CTR is decremented unless suppressed, and the branch is taken exactly when both the count and the condition tests pass. |
| `Engine.Cpu.SetCarry` | `src/BuiltinInterpreter.cpp:77-81` | Masking with 0x20000000 sets bit 29 to the carry and keeps every other bit of XER. |
| `Engine.Cpu.SetOverflow` | `src/BuiltinInterpreter.cpp:101-106` | Masking sets bit 30 to the overflow, sets bit 31 with it and never clears bit 31, and keeps every other bit of XER. |
| `Engine.Cpu.SetCrField` | `include/ppclab/ppc/Cpu.hpp:27-39` | The shifted masks put the four outcomes into the four bits of the field and keep every other CR bit; a field beyond 7 changes nothing. |
| `Engine.Cpu.CarryInstruction` | `src/BuiltinInterpreter.cpp:574-689` | The add and subtract forms with carry: result, CA, OV and the record bit, in that order of writes. |
| `Engine.Cpu.CopyCrFields` | `src/BuiltinInterpreter.cpp:609-619` | mtcrf: field f becomes the register's if FXM selects f, and keeps its value otherwise. |
| `Interpreter.CopiedFields` | `src/BuiltinInterpreter.cpp:609-619` | The same of the fields copied from any position on. |
| `CpuModel.CrFieldReadsBack` | `include/ppclab/ppc/Cpu.hpp:22-39` | After a field is set, every CR bit reads as set if it lies in the field and as before otherwise. |
| `CpuModel.WithCarryBits` | `src/BuiltinInterpreter.cpp:77-86` | Bit 29 of XER is the carry and every other bit is as before. |
| `CpuModel.CarryMask` | `src/BuiltinInterpreter.cpp:77-81` | That is what masking with 0x20000000 does. |
| `CpuModel.WithOverflowBits` | `src/BuiltinInterpreter.cpp:101-106` | Bit 30 of XER is the overflow, bit 31 is set by it and otherwise kept, and every other bit is as before. |
| `CpuModel.OverflowMask` | `src/BuiltinInterpreter.cpp:101-106` | That is what masking with 0xC0000000 and 0x40000000 does. |
| `CpuModel.CrFieldMask` | `include/ppclab/ppc/Cpu.hpp:27-39` | Replacing a field of CR is clearing its four bits and setting the nibble, by shifted masks. |
| `CpuModel.OverflowTests` | `src/BuiltinInterpreter.cpp:108-114` | The sign tests hold exactly when the signed sum or difference does not fit 32 bits. |
| `CpuModel.PpcMaskBits` | `src/BuiltinInterpreter.cpp:45-52` | Bit p of the mask is set exactly when p lies between mb and me, wrapping around when mb > me. |
| `CpuModel.BuildMask` | `src/BuiltinInterpreter.cpp:45-52` | The bit loop builds that mask. |
| `Arithmetic.MultiWordSum` | `src/BuiltinInterpreter.cpp:459-467` | For every n, addc followed by n - 1 adde computes the 32n-bit sum with the last CA as carry-out, whatever else runs in between as long as CA and the limbs are kept. |
| `Arithmetic.MultiWordDifference` | `src/BuiltinInterpreter.cpp:442-451` | The same for subfc and subfe: the 32n-bit difference, with CA exactly when there is no borrow. |
| `Arithmetic.MultiWordSumOverflow` | `src/BuiltinInterpreter.cpp:592-608` | A last addeo or addco with rt distinct from ra and rb sets OV exactly when the n-limb two's-complement sum does not fit. |
| `Arithmetic.MultiWordDifferenceOverflow` | `src/BuiltinInterpreter.cpp:574-591` | The same for differences and subfeo or subfco. |
| `Arithmetic.ChainSums` | `src/BuiltinInterpreter.cpp:574-608` | The carry chain invariant: the limbs so far add up with the carry. |
| `Arithmetic.AddWithCarryIs` | `src/BuiltinInterpreter.cpp:442-467` | One carry form: result + 2^32 CA is the sum of addends and carry-in, only rt changes, and OV is read back after rt is written. |
| `Arithmetic.CarryExecutes` | `src/BuiltinInterpreter.cpp:574-689` | The interpreter reaches that arithmetic for each opcode of the family. |
| `OverflowExactness.OvExactlyWhenSafe` | `src/BuiltinInterpreter.cpp:442-467` | For every carry form and choice of registers, OV is the true signed overflow for all register contents if and only if rt does not overwrite an operand the test re-reads. |
| `OverflowExactness.UnsafeIsWrong` | `src/BuiltinInterpreter.cpp:448-448` | For every other choice of registers, contents are given for which OV is wrong. |
| `OverflowExactness.SafeIsRight` | `src/BuiltinInterpreter.cpp:574-689` | With safe registers OV is the true signed overflow, for all eight forms. |
| `Conformance.HalfwordUpdateExactly` | `src/BuiltinInterpreter.cpp:726-734` | Of opcode 31 with extended opcode 311 or 331, the instruction performs the halfword load with update if and only if it is 331, where the architecture has 311. |
| `Conformance.Xo311IsRefused` | `src/BuiltinInterpreter.cpp:950-953` | Extended opcode 311 stops as unsupported, whatever the operands, with registers and memory unchanged. |
| `Conformance.Xo331Loads` | `src/BuiltinInterpreter.cpp:726-734` | Extended opcode 331 loads the halfword and updates the address register, or faults without either. |
| `Conformance.LinkAgreesExactly` | `src/BuiltinInterpreter.cpp:310-344` | After bclr or bcctr LR is what the architecture says if and only if LK is 0, the branch is followed normally, or LR already held the return address. |
| `Conformance.LinkAfterBranch` | `src/BuiltinInterpreter.cpp:317-344` | LR becomes the return address exactly when LK is set and the branch is taken and not classified as an import call by r12. |
| `BlockMoves.CopyArrives` | `src/ImportStubs.cpp:59-90` | After BlockMoveData, memcpy or memmove every byte of the destination is what the byte of the source was before, however the blocks overlap, and nothing else changed. |
| `BlockMoves.FillArrives` | `src/ImportStubs.cpp:91-110` | After memset or bzero every byte of the block is the value, and nothing else changed. |
| `BlockMoves.CopySucceedsExactly` | `src/ImportStubs.cpp:59-90` | A copy succeeds if and only if it is at most 16 MiB and empty or between a readable and a writable block. |
| `OverflowExactness.PlainOvExactlyWhenSafe` | `src/BuiltinInterpreter.cpp:452-474` | OV of addo and subfo, as executed, is the true signed overflow for all operands exactly for the same register choices as addco and subfco; OV of nego (lines 567-573) always is. |
| `SaveRestore.SavedRegistersAreRestored` | `src/BuiltinInterpreter.cpp:1021-1036` | Registers saved by a successful stmw to a readable block are restored by lmw from the same address, whatever the registers hold in between and even if the base register is among them. |
| `SaveRestore.StoreSucceedsExactly` | `src/BuiltinInterpreter.cpp:1029-1036` | stmw succeeds if and only if every word of its block is writable. |
| `SaveRestore.StoreKeepsOthers` | `src/BuiltinInterpreter.cpp:1029-1036` | stmw changes no word apart from its block, also when it faults half way. |
| `SaveRestore.StoredRegisters` | `src/BuiltinInterpreter.cpp:1029-1036` | After a successful stmw every register is in its slot, although the block may wrap around the address space. |
| `SaveRestore.LoadedRegisters` | `src/BuiltinInterpreter.cpp:1021-1028` | lmw puts exactly the words of its block into the registers from rt on. |
| `SignedDivision.DivisionByPowerOfTwo` | `src/BuiltinInterpreter.cpp:907-915` | srawi then addze gives source / 2^sh truncated toward zero for every source and shift; the value in between is the floor, and CA is set exactly when the two differ. |
| `SignedDivision.SrawiIsFloor` | `src/BuiltinInterpreter.cpp:907-915` | srawi is the floor, and CA is set exactly when the floor is not the truncated quotient. |
| `SignedDivision.AsrIsFloor` | `src/BuiltinInterpreter.cpp:907-915` | The arithmetic shift is floor division. |
| `Countdown.CountdownRun` | `scripts/ppc_lab_platform.py:255-256` | The five-word loop started with any n in r3 stops as returned with r3 = 0 after exactly 4n + 3 instructions if the limit is above that, and on the limit otherwise. |
| `Countdown.CountsDown` | `src/BuiltinInterpreter.cpp:181-344` | The same by induction on n, from any count. |
| `Countdown.ReturnsWithinLimit` | `src/BuiltinInterpreter.cpp:184-187` | A run that returns reports fewer instructions than its limit. |
| `MemoryMapping.MapKeepsValid` | `src/Memory.cpp:11-31` | Mapping keeps the regions sorted, nonempty, disjoint and below 2^32. |
| `MemoryMapping.MapsInAnyOrder` | `src/Memory.cpp:11-31` | Mapping the same requests in any order succeeds or fails alike, with the same final list. |
| `MemoryMapping.MapsCommute` | `src/Memory.cpp:11-31` | Two requests can be swapped, failures included. |
| `MemoryMapping.MapIsFlat` | `src/Memory.cpp:11-31` | After mapping, the flat byte map is the old one with zeros in the new range. |
| `MemoryMapping.Memory.Map` | `src/Memory.cpp:11-31` | Push and sort gives the region list of the specification; a refused request changes nothing. |
| `MemoryMapping.Memory.FindRegion` | `src/Memory.cpp:62-76` | The loop finds the first region that holds the range. |
| `MemoryMapping.Memory.Read` | `src/Memory.cpp:91-121` | A read gives the bytes of the range exactly when one readable region holds it. |
| `MemoryMapping.Memory.Write` | `src/Memory.cpp:123-159` | A write replaces exactly the bytes of the range in a writable region, and changes nothing otherwise. |
| `MemoryMapping.Memory.DirectRead` | `src/Elf32Loader.cpp:370-388` | The loaders read regardless of permissions. |
| `MemoryMapping.Memory.DirectWrite` | `src/Elf32Loader.cpp:390-408` | The loaders write regardless of permissions, and change nothing outside the range. |
| `MemoryModel.FindUnique` | `src/Memory.cpp:62-76` | For sizes of at least one, a region that holds the range is the one found. |
| `MemoryModel.FindIsOneRegion` | `src/Memory.cpp:62-76` | A lookup succeeds exactly when the whole range lies in one region of the flat map. |
| `MemoryModel.PeekIsFlat` | `src/Memory.cpp:161-167` | Reads are reads of the flat byte map. |
| `MemoryModel.PokeIsFlat` | `src/Memory.cpp:153-159` | Writes overwrite the flat byte map and keep the layout. |
| `MemoryModel.ReadAfterWrite` | `src/Memory.cpp:153-167` | What was written is read back. |
| `MemoryModel.WriteFrame` | `src/Memory.cpp:153-167` | Ranges apart from the write read as before. |
| `MemoryModel.FlatExtensional` | `src/Memory.cpp:11-31` | Same layout and same flat bytes is the same memory. |
| `ElfCode.RelocatedBranchReaches` | `src/Elf32Loader.cpp:602-621` | After an ADDR24 (AA = 1) or REL24 (AA = 0) entry was applied at P, stepping at P goes to S + A modulo 2^32, sets LR exactly by LK and changes nothing else. |
| `ElfCode.RelocatedConditionalReaches` | `src/Elf32Loader.cpp:622-643` | The same for ADDR14 and REL14 and the conditional branch, which keeps BO and BI and is taken as before. |
| `ElfCode.HighAdjustedPairLoadsAddress` | `src/Elf32Loader.cpp:592-601` | HA16 in addis rX,0 and LO16 in addi rY,rX, with rX not r0, leave exactly S + A modulo 2^32 in rY. |
| `ElfCode.HighPlusLow` | `src/Elf32Loader.cpp:592-601` | The adjusted high half and the sign-extended low half reassemble every value. |
| `ElfCode.PatchedLi` | `src/Elf32Loader.cpp:554-564` | The patched 24-bit field decodes to the value, and the other fields are kept. |
| `ElfCode.PatchedBd` | `src/Elf32Loader.cpp:565-575` | The patched 14-bit field decodes to the value, and the other fields are kept. |
| `ElfCode.BranchPatch` | `src/Elf32Loader.cpp:602-643` | A branch entry that applies had an aligned value in range, and the word holds it. |
| `ElfTables.TableOrderIsIrrelevant` | `src/Elf32Loader.cpp:684-735` | When no byte is patched by two entries, every permutation of a table succeeds or fails alike, with the same memory; entries that patch nothing may stand anywhere. |
| `ElfTables.TableTwiceIsOnce` | `src/Elf32Loader.cpp:684-735` | Applying such a table of explicit-addend entries a second time changes nothing. |
| `ElfTables.TableFrame` | `src/Elf32Loader.cpp:684-735` | Bytes outside the patched ranges and the layout are unchanged. |
| `ElfTables.EntriesCommute` | `src/Elf32Loader.cpp:515-682` | Two entries with disjoint ranges commute, failures included. |
| `ElfTables.EntrySettles` | `src/Elf32Loader.cpp:515-682` | One explicit-addend entry applied twice is applied once. |
| `ElfRelocation.ApplyOneRelocation` | `src/Elf32Loader.cpp:515-682` | The switch over relocation types in place does what the entry specification says, and changes nothing on failure; the words are stated by `ElfWords`. |
| `ElfRelocation.ApplyRelocations` | `src/Elf32Loader.cpp:684-735` | The table loop applies entries in order and stops at the first that fails, keeping those before it. |
| `ElfRelocation.WriteBranch` | `src/Elf32Loader.cpp:554-575` | A branch field is written exactly when the value is aligned, in range and the word is mapped. |
| `ScheduleLaws.AccountsHoldThroughout` | `scripts/ppc_lab_schedule.py:305-399` | In every state after any actions, crashes and resumes: dispatched is the sum of attempts, reserved cases are the sum of attempts times reserve and within the budget, running counts respect global and project caps, and each attempt has its event. |
| `ScheduleLaws.ActKeepsInvariant` | `scripts/ppc_lab_schedule.py:305-399` | Every single action keeps these accounts. |
| `ScheduleLaws.FreshInvariant` | `scripts/ppc_lab_schedule.py:168-188` | A new state satisfies them. |
| `ScheduleLaws.ResumedKeepsAccounts` | `scripts/ppc_lab_schedule.py:191-207` | A resumed state satisfies them. |
| `ScheduleLaws.LaunchKeepsInvariant` | `scripts/ppc_lab_schedule.py:360-390` | A launch, a quota refusal and a cancellation before start keep them. |
| `ScheduleLaws.ReapKeepsInvariant` | `scripts/ppc_lab_schedule.py:325-349` | Taking a finished, cancelled or overdue child keeps them. |
| `ScheduleLaws.CancelAllKeepsInvariant` | `scripts/ppc_lab_schedule.py:309-323` | Global cancellation keeps them and leaves nothing running. |
| `ScheduleFairness.TerminalIsFinal` | `scripts/ppc_lab_schedule.py:198-203` | A terminal campaign keeps its status through any actions, crashes and resumes. |
| `ScheduleFairness.NoDeadlock` | `scripts/ppc_lab_schedule.py:395-398` | In every state of the invariant with nothing running, not drained and something pending, a campaign can be chosen: the deadlock error is unreachable. |
| `ScheduleFairness.LaunchShrinksPending` | `scripts/ppc_lab_schedule.py:360-390` | Every round of the launch loop takes exactly one campaign out of the pending ones. |
| `ScheduleFairness.WeightedFairShare` | `scripts/ppc_lab_schedule.py:217-231` | From equal service, while two projects stay eligible at every choice, (dispatched_i - 1) * weight_j <= dispatched_j * weight_i once i was dispatched, whatever is blocked or cancelled in between. |
| `ScheduleFairness.FairThroughout` | `scripts/ppc_lab_schedule.py:217-231` | The inequality is kept by any actions, from any state where it holds. |
| `ScheduleFairness.BestHasLeastService` | `scripts/ppc_lab_schedule.py:217-229` | The chosen project has the least dispatched per weight of all eligible ones. |
| `Schedule.BestCampaign` | `scripts/ppc_lab_schedule.py:230-231` | The chosen campaign is pending in its project, with the highest priority and the earliest of those. |
| `Schedule.BestProject` | `scripts/ppc_lab_schedule.py:217-229` | A project is chosen exactly when one is eligible, and it is eligible. |
| `SchedulerLoop.Scheduler.Tick` | `scripts/ppc_lab_schedule.py:307-399` | One round of the polling loop on the mutable state ends in exactly the state and outcome of the specified round: cancellation first, then every observed child, the drain marker, and launches until no slot or candidate is left; the deadlock branch is proved dead. |
| `SchedulerLoop.Scheduler.LaunchAll` | `scripts/ppc_lab_schedule.py:360-390` | The launch loop terminates, in the state reached by launching the chosen campaign until no candidate or slot is left. |
| `SchedulerLoop.Scheduler.LaunchChosen` | `scripts/ppc_lab_schedule.py:364-390` | The chosen campaign is cancelled by its marker, blocked by its quota or started, and the state is written; when it is started is stated by `ScheduleAdmission.Admission`. |
| `SchedulerLoop.Scheduler.ReapAll` | `scripts/ppc_lab_schedule.py:325-349` | Every observed child gets its reaping action, once and in order. |
| `SchedulerLoop.Scheduler.ReapOne` | `scripts/ppc_lab_schedule.py:325-349` | Marker and wall limit come before the exit code. |
| `SchedulerLoop.Scheduler.CancelEverything` | `scripts/ppc_lab_schedule.py:309-323` | Running children and then pending campaigns are cancelled. |
| `SchedulerLoop.Scheduler.ChooseCampaign` | `scripts/ppc_lab_schedule.py:217-231` | The scans over projects and campaigns choose the specified campaign. |
| `SchedulerLoop.Scheduler.CountRunning` | `scripts/ppc_lab_schedule.py:355-358` | Children are counted by project. |
| `SchedulerLoop.Scheduler.Resume` | `scripts/ppc_lab_schedule.py:191-204` | Resuming makes exactly the running campaigns pending again. |
| `SchedulerLoop.Scheduler.Start` | `scripts/ppc_lab_schedule.py:168-188` | A new scheduler starts from the empty accounts. |
| `SchedulerLoop.Poll` | `scripts/ppc_lab_schedule.py:307-399` | The polling loop is the iterated round until one ends it, its states are reached by actions, and it ends done or drained only with nothing running. |
| `SchedulerProgress.PollingEnds` | `scripts/ppc_lab_schedule.py:307-399` | If every round with running children sees one of them finished, cancelled or over its limit, the loop ends within twice the pending and once the running campaigns, plus one round. |
| `SchedulerProgress.RoundWork` | `scripts/ppc_lab_schedule.py:307-399` | Each such round that does not end the loop reduces twice the pending plus the running campaigns. |
| `SchedulerLoop.SummaryWhenDone` | `scripts/ppc_lab_schedule.py:258-272` | When the loop ends with nothing left, the verdict is complete exactly when every campaign completed or was refused by quota. |
| `KnowledgeGraph.ShortestPath` | `scripts/ppc_lab_knowledge.py:550-570` | A path is found if and only if the undirected distance is at most the depth limit; it starts and ends right, each edge joins its two nodes, and its length is the distance. |
| `KnowledgeGraph.RelatedGraph` | `scripts/ppc_lab_knowledge.py:529-547` | Exactly the nodes within the depth limit over the filtered edges, each once with its distance, sorted by depth and key, and each filtered edge of a node nearer than the limit exactly once. |
| `KnowledgeGraph.SortedNodes` | `scripts/ppc_lab_knowledge.py:543-545` | The labelled nodes, all of them once, by depth and then by key. |
| `KnowledgeGraph.ReachIsWalk` | `scripts/ppc_lab_knowledge.py:550-570` | Reaching within k steps is having a walk of at most k edges. |
| `KnowledgeGraph.FoundWithin` | `scripts/ppc_lab_knowledge.py:535-543` | When nothing nearer than n waits, everything within n has been found with a label at most its distance. |
| `KnowledgeGraph.Discover` | `scripts/ppc_lab_knowledge.py:558-561` | Expanding a node keeps the search invariant and the predecessor tree. |
| `KnowledgeGraph.Follow` | `scripts/ppc_lab_knowledge.py:538-543` | Expanding a node keeps the search invariant and the edges met. |
| `KnowledgeGraph.DepthOf` | `scripts/ppc_lab_knowledge.py:555-557` | Walking back over predecessors counts the distance. |
| `KnowledgeGraph.Unwind` | `scripts/ppc_lab_knowledge.py:564-569` | The chain back to the source has as many edges as the distance, each joining its nodes. |
| `KnowledgeGraph.Unique` | `scripts/ppc_lab_knowledge.py:546-547` | Edges are reported once each. |
| `TraceAnalysis.SplitDynamicBlocks` | `scripts/ppc_trace_intelligence.py:42-50` | The blocks concatenate to the events, each runs straight with a control transfer at most at its end, and neighbours could not have been one block. |
| `TraceAnalysis.OneSplit` | `scripts/ppc_trace_intelligence.py:42-50` | There is exactly one such cut of a trace. |
| `TraceAnalysis.SplitIsSplit` | `scripts/ppc_trace_intelligence.py:42-50` | Every trace has one. |
| `TraceAnalysis.FlowIsConserved` | `scripts/ppc_trace_intelligence.py:62-69` | For every block key, edges out are executions less one if it is last, and edges in are executions less one if it is first. |
| `TraceAnalysis.NoFallthrough` | `scripts/ppc_trace_intelligence.py:64-68` | The fall-through kind is never produced. |
| `TraceAnalysis.CallsAreCallEdges` | `scripts/ppc_trace_intelligence.py:69-70` | There are as many calls as edges of kind call. |
| `TraceSummaries.AnalyzeTrace` | `scripts/ppc_trace_intelligence.py:52-80` | The whole analysis: executions times sizes add up to the events, also address by address against the hot table; flow conservation between block numbers; blocks, edges and calls distinct, exactly counted and sorted; routines and mnemonics exactly counted and sorted; instruction words counted once; the address range, its span and the bytes covered. |
| `TraceReporting.ReportTrace` | `scripts/ppc_trace_intelligence.py:53-72` | The tables of blocks, edges, calls and hot addresses, with these laws. |
| `TraceSummaries.Cover` | `scripts/ppc_trace_intelligence.py:73-75` | The least and greatest address are those of events, the span reaches from one to the other, and four bytes are covered for each different address. |
| `TraceSummaries.DensityAtMostOne` | `scripts/ppc_trace_intelligence.py:73-75` | The coverage density is at most one where all addresses lie a multiple of four bytes apart. |
| `TraceReporting.ReportBlocks` | `scripts/ppc_trace_intelligence.py:57-61` | Blocks are numbered by their position, one number per key. |
| `TraceReporting.CountEdges` | `scripts/ppc_trace_intelligence.py:62-70` | The loop over neighbouring blocks counts edges and calls. |
| `TraceReporting.ReportEdges` | `scripts/ppc_trace_intelligence.py:71-71` | Edges are reported between block numbers. |
| `TraceReporting.FirstBlocks` | `scripts/ppc_trace_intelligence.py:55-56` | The first block of each key is remembered. |
| `TraceReporting.CountIsExact` | `scripts/ppc_trace_intelligence.py:54-61` | A block is executed as often as dynamic blocks with its addresses occur. |
| `TraceReporting.BlockFlow` | `scripts/ppc_trace_intelligence.py:62-71` | Flow conservation for one numbered block. |
| `Tallies.TallyWeighs` | `scripts/ppc_trace_intelligence.py:53-54` | Weighing a counter is weighing what was counted, for every weight. |
| `Tallies.TallyCounts` | `scripts/ppc_trace_intelligence.py:53-54` | A counter holds exactly what occurred, each with its number of occurrences. |
| `PefChunks.VectorRun12` | `src/PefLoader.cpp:607-612` | Chunk 0x4400 + n - 1: for every k < n the word at cursor + 12k grows by sectionC and the next word by sectionD, modulo 2^32; every other byte and register is kept and the cursor moves by 12n. It runs if and only if those words are mapped. |
| `PefChunks.VectorRun8` | `src/PefLoader.cpp:607-612` | Chunk 0x4600 + n - 1: the same with stride 8. |
| `PefChunks.SectionCRun` | `src/PefLoader.cpp:600-604` | Chunk 0x4000 + n - 1: n words side by side grow by sectionC and nothing else changes. |
| `PefChunks.SectionDRun` | `src/PefLoader.cpp:605-606` | Chunk 0x4200 + n - 1: n words side by side grow by sectionD and nothing else changes. |
| `PefChunks.TableRun` | `src/PefLoader.cpp:613-617` | Chunk 0x4800 + n - 1: every other word of n pairs grows by sectionD. |
| `PefChunks.ImportRun` | `src/PefLoader.cpp:618-624` | Chunk 0x4A00 + n - 1: n words grow by the next n imports, which must be resolved, and the import index moves by n. |
| `PefChunks.SkipRun` | `src/PefLoader.cpp:593-599` | A chunk below 0x4000 skips 4 bytes for each unit of its upper field and then adds sectionD to as many words as its lower six bits say. |
| `PefChunks.IndexChunks` | `src/PefLoader.cpp:631-654` | By-import, set sectionC, set sectionD and by-section with a nine-bit index: the word at the cursor grows by that import or section, or the register becomes that section; unresolved or unmapped indices fail. |
| `PefChunks.LargeImport` | `src/PefLoader.cpp:680-686` | The two-chunk by-import with its 26-bit index has the same effect. |
| `PefChunks.LargeSections` | `src/PefLoader.cpp:699-713` | The two-chunk by-section and set-section instructions with their 22-bit index have the same effects. |
| `PefChunks.CursorChunks` | `src/PefLoader.cpp:655-679` | Increment moves the cursor by n; set-position puts it a 26-bit offset after the start of the section. Nothing else changes. |
| `PefChunks.SmallRepeat` | `src/PefLoader.cpp:659-672` | A block of whole instructions without repeats, followed by its small repeat, does what the block written out one time more than the repeat says does. |
| `PefChunks.LargeRepeat` | `src/PefLoader.cpp:687-698` | The same for the two-chunk repeat with its 22-bit count. |
| `PefWords.UnitsEffect` | `src/PefLoader.cpp:579-630` | A run of n units succeeds exactly when all its places are mapped and its imports resolved; then each place grew by its addend and every other byte is as before. |
| `PefLayout.SectionsLie` | `src/PefLoader.cpp:457-500` | Every instantiated section is at the first address of its alignment after the section before it, in addresses that were free; it holds its unpacked pattern data or container bytes and zeros after them, readable, writable and executable by its kind. All other sections have address 0 and all other memory is as before. |
| `PefLayout.PlacesExactly` | `src/PefLoader.cpp:469-497` | A section goes to an address if and only if its range ends below 2^32 and is free, and its pattern data decode. |
| `PefLayout.FirstVector` | `src/PefLoader.cpp:747-776` | A vector at the start of a stream is at the start of its section and adds the addresses of the first and second section, whatever came before; an unmapped section fails. |
| `PefLayout.FirstImport` | `src/PefLoader.cpp:747-776` | An import at the start of a stream is the first import. |
| `PefLayout.LoadedSymbols` | `src/PefLoader.cpp:778-806` | After a load every export value counts from the address of its section if that is mapped, and every entry lies inside a mapped section, at its offset; no section means entry 0. |
| `PatternBytes.RepeatBytes` | `src/PefLoader.cpp:401-415` | The stream of one repeat with block b and argument t decodes if and only if |b|(t + 1) bytes fit; byte k below that is b[k mod |b|], and zeros follow. |
| `PatternBytes.InterleaveBytes` | `src/PefLoader.cpp:416-443` | An interleave of block c with t pieces of s data bytes: byte k, with q = k / (|c| + s) and j = k mod (|c| + s), is c[j] or data[qs + j - |c|], up to t(|c| + s) + |c| bytes, which must fit; zeros follow. |
| `PatternBytes.InterleaveZeroBytes` | `src/PefLoader.cpp:416-443` | The same with a common block of zeros that is not in the stream. |
| `PatternBytes.CopyBytes` | `src/PefLoader.cpp:399-400` | A copy gives its block, if it fits, and zeros after it. |
| `PatternBytes.ZeroBytes` | `src/PefLoader.cpp:396-398` | A zero operation gives zeros, if they fit. |
| `PatternBytes.Concatenation` | `src/PefLoader.cpp:384-455` | One stream after another decodes, in any room, to the bytes of the first followed by what the second gives in the room that is left, and fails if either does. |
| `PatternBytes.ExactSize` | `src/PefLoader.cpp:449-455` | A stream that decodes at all produces a definite number of bytes: it decodes in exactly the rooms at least that large, to the same bytes padded with zeros. |
| `PatternBytes.FirstOperation` | `src/PefLoader.cpp:393-448` | A nonempty stream that decodes begins with a complete operation with one of the opcodes 0 to 4, and the rest decodes. |
| `Accesses.ZeroExtendedLoad` | `src/BuiltinInterpreter.cpp:956-1000` | lbz, lhz and lwz with all their update and indexed forms: rT is the big-endian number of the one, two or four bytes at (rA|0) + d or (rA|0) + rB; rA takes the address in the update forms only; nothing else changes. If the bytes are not readable the run stops with nothing changed. |
| `Accesses.SignExtendedLoad` | `src/BuiltinInterpreter.cpp:1002-1011` | lha in its four forms: rT is the halfword as a signed number, modulo 2^32. |
| `Accesses.ReversedLoad` | `src/BuiltinInterpreter.cpp:803-810` | lhbrx and lwbrx: rT is the little-endian number of the bytes. |
| `Accesses.FloatLoad` | `src/BuiltinInterpreter.cpp:1037-1055` | lfs and lfd in all forms: the floating-point register takes the pattern in memory, widened by the host for lfs. |
| `Accesses.IntegerStore` | `src/BuiltinInterpreter.cpp:976-1019` | stb, sth and stw in all forms: the one, two or four bytes at the address become the low end of the register, most significant byte first; no other byte changes, rA takes the address in the update forms. If they are not writable the run stops with nothing changed. |
| `Accesses.ReversedStore` | `src/BuiltinInterpreter.cpp:831-836` | sthbrx and stwbrx: the same, least significant byte first. |
| `Accesses.FloatStore` | `src/BuiltinInterpreter.cpp:1057-1072` | stfs, stfd and stfiwx: the pattern narrowed by the host, the whole pattern, or its low word. |
| `Accesses.StoreThenLoad` | `src/BuiltinInterpreter.cpp:956-1019` | What a store left at an address, a load of the same width and byte order brings back: the register modulo 2 to the width. |
| `Accesses.LoadReserved` | `src/BuiltinInterpreter.cpp:432-441` | lwarx: an aligned readable word is loaded and its address reserved; otherwise nothing changes. |
| `Accesses.StoreConditional` | `src/BuiltinInterpreter.cpp:549-559` | stwcx.: the word is stored if and only if its address is reserved; CR0 says so, the other bits of CR are kept, and no reservation is left. |
| `Accesses.ClearsBlock` | `src/BuiltinInterpreter.cpp:943-953` | dcbz: the aligned 32 bytes around the address become zero and nothing else changes. |
| `Accesses.StepFetches` | `src/BuiltinInterpreter.cpp:181-222` | A step stops at the return address, at an import, or where the word is not executable and readable, in this order; otherwise it executes the big-endian word at pc with the program counter four further. |
| `Registers.LogicalInstruction` | `src/BuiltinInterpreter.cpp:493-782` | and, andc, nor, eqv, xor, orc, or, nand: every bit of rA is the combination of the bits of the operands; CR0 records the sign if asked, and nothing else changes. |
| `Registers.LogicalImmediate` | `src/BuiltinInterpreter.cpp:398-409` | ori, xori and andi. with the immediate in the low half, oris, xoris and andis. with it in the high half, bit by bit. |
| `Registers.ShiftInstruction` | `src/BuiltinInterpreter.cpp:510-933` | slw and srw multiply and divide by a power of two, to 0 for distances of 32 and more; cntlzw finds the highest bit; extsh and extsb extend the sign. |
| `RegisterNumbers.SumInstruction` | `src/BuiltinInterpreter.cpp:452-573` | add, subf and neg modulo 2^32; besides the register only CR0 changes, and OV and SO in the overflow forms. |
| `RegisterNumbers.ProductInstruction` | `src/BuiltinInterpreter.cpp:426-802` | mulhw and mulhwu give the high word that completes the product, mullw the low word, divw and divwu the quotient whose remainder is smaller than the divisor and has the sign of the dividend; division by zero and of the least number by -1 give 0. OV, where recorded, says exactly that the product or quotient does not exist in 32 bits. |
| `RegisterNumbers.ImmediateSum` | `src/BuiltinInterpreter.cpp:233-271` | mulli, addi and addis with the sign-extended immediate, the last two from 0 if rA is r0. |
| `RegisterNumbers.ImmediateCarry` | `src/BuiltinInterpreter.cpp:238-264` | subfic, addic and addic.: the result and CA together are the unreduced sum. |
| `RegisterNumbers.AlgebraicShift` | `src/BuiltinInterpreter.cpp:890-915` | sraw and srawi: the signed source divided by 2^n rounded down, for any n below 64, with CA set if it is negative and not divisible. |
| `RegisterNumbers.RotateInstruction` | `src/BuiltinInterpreter.cpp:374-397` | rlwinm, rlwnm and rlwimi: bit p is bit p + n of the source, around the end, where p is between MB and ME, around the end; elsewhere 0, or the old bit for rlwimi. |
| `RegisterNumbers.CompareInstruction` | `src/BuiltinInterpreter.cpp:246-527` | cmpw, cmplw and their immediate forms: the field has less, greater, equal and SO of the signed or unsigned comparison; every other bit is kept. |
| `RegisterNumbers.ConditionLogic` | `src/BuiltinInterpreter.cpp:352-365` | The eight logical instructions on CR bits set one bit to the combination of two and keep all others. |
| `RegisterNumbers.BranchInstruction` | `src/BuiltinInterpreter.cpp:299-307` | b: to pc or 0 plus the displacement, with LR set if LK is. |
| `RegisterNumbers.ConditionalBranch` | `src/BuiltinInterpreter.cpp:272-285` | bc: BO and BI decide on CTR and CR as numbers; CTR is decremented unless BO keeps it; LR is set by LK whether or not the branch is taken. |
| `RegisterNumbers.RegisterBranch` | `src/BuiltinInterpreter.cpp:308-344` | bclr and bcctr: to LR or CTR as they were, aligned, with LR set only if the branch is taken. |
| `RegisterNumbers.SpecialRegister` | `src/BuiltinInterpreter.cpp:749-873` | mfspr and mtspr move XER, LR and CTR by number and refuse every other number. |
| `SystemInstructions.TrapInstruction` | `src/BuiltinInterpreter.cpp:224-425` | tw and twi stop the run exactly when one of the comparisons named by TO holds and traps are not ignored; otherwise nothing happens. |
| `SystemInstructions.SystemCallInstruction` | `src/BuiltinInterpreter.cpp:286-298` | sc: r3 is the value of the first binding of the number in r0, or the default; without either the run stops. |
| `SystemInstructions.ImportCall` | `src/BuiltinInterpreter.cpp:317-344` | bcctr to 0 with the address of an import in r12 runs the first stub bound to it and returns to LR; without one, or if its block cannot be accessed, the run stops at the import with the branch counted. |
| `SystemInstructions.ConditionMoves` | `src/BuiltinInterpreter.cpp:609-619` | mtcrf replaces the fields named by its mask, bit by bit; mfcr copies CR. |
| `SystemInstructions.FieldMove` | `src/BuiltinInterpreter.cpp:345-351` | mcrf copies one field of CR into another and keeps the rest. |
| `SystemInstructions.ExceptionMove` | `src/BuiltinInterpreter.cpp:854-864` | mcrxr: SO, OV and CA go to a field of CR and are cleared in XER. |
| `SystemInstructions.FloatInstruction` | `src/BuiltinInterpreter.cpp:1074-1170` | Every floating-point operation puts the result computed for its operand registers into its target, records FPSCR in CR1 if asked, and changes nothing else. |
| `SystemInstructions.FloatCompare` | `src/BuiltinInterpreter.cpp:1118-1125` | fcmpu and fcmpo put the order of two registers into one field of CR. |
| `BlockMoves.StubsMove` | `src/ImportStubs.cpp:79-111` | BlockMoveData moves r5 bytes from r3 to r4; memcpy and memmove from r4 to r3; memset fills r5 bytes at r3 with the low byte of r4; bzero clears r4 bytes at r3. Nothing else changes. |
| `ElfWords.AbsoluteWord` | `src/Elf32Loader.cpp:581-587` | ADDR32, UADDR32, GLOB_DAT, JMP_SLOT and PLT32 with an explicit addend: the big-endian word at P becomes S + A modulo 2^32 if it is mapped, no other byte changes, and an unresolved symbol fails. |
| `ElfWords.BaseWord` | `src/Elf32Loader.cpp:644-646` | RELATIVE: the word becomes B + A, and no symbol is needed. |
| `ElfWords.PlaceWord` | `src/Elf32Loader.cpp:647-650` | REL32 and PLTREL32: the word becomes S + A - P. |
| `ElfWords.SectionWord` | `src/Elf32Loader.cpp:651-665` | SECTOFF: the word becomes S + A less the address of the symbol's section, which must be known. |
| `ElfWords.AddressHalf` | `src/Elf32Loader.cpp:588-601` | ADDR16, UADDR16 and _LO: the halfword at P becomes the low half of S + A; _HI its high half; _HA the high half of S + A + 0x8000. |
| `ElfWords.OffsetHalf` | `src/Elf32Loader.cpp:651-671` | SECTOFF_LO, _HI and _HA: the same halves of the offset in the symbol's section. |
| `ElfWords.BranchKinds` | `src/Elf32Loader.cpp:602-643` | The 24- and 14-bit kinds succeed exactly when place and symbol are there and S + A, less P for the relative ones, is aligned and in range; the field then holds it, and the rest of the word and memory is kept. |
| `ElfWords.ImplicitAddendIsFound` | `src/Elf32Loader.cpp:529-641` | An entry without an addend does what it would do with the signed word, halfword or displacement found at its place. |
| `ElfWords.OtherKinds` | `src/Elf32Loader.cpp:578-682` | NONE leaves memory alone; COPY and every kind without a meaning fail. |
| `ScheduleAdmission.Admission` | `scripts/ppc_lab_schedule.py:234-242` | A launch without a marker starts the chosen campaign if and only if its cases fit what is left of the budget and the recorded time is below the limit, each where set; the whole new state is given. Otherwise it ends quota-blocked and nothing else changes. |
| `ScheduleAdmission.ClockAddsUp` | `scripts/ppc_lab_schedule.py:309-345` | Through any actions the recorded time of a project grows by exactly the times of its children that were reaped or cancelled; restarts and launches charge nothing. |
| `ScheduleAdmission.ChosenIsNext` | `scripts/ppc_lab_schedule.py:217-231` | The chosen campaign is pending, of the project with the least dispatches per weight of all that could take the slot, the earliest of equals, and in it the first of the highest priority. |
| `ScheduleAdmission.ReapDecides` | `scripts/ppc_lab_schedule.py:325-349` | A running child ends cancelled with its marker or past its own limit, else complete or failed by its exit code, else goes on; its time is charged to its project and nothing else changes. |
| `ScheduleAdmission.MarkedLaunch` | `scripts/ppc_lab_schedule.py:368-373` | With its marker there the chosen campaign is cancelled before it starts, whatever the quota. |
| `ScheduleAdmission.NoLaunch` | `scripts/ppc_lab_schedule.py:364-367` | When drained, without a slot or without a candidate nothing is launched. |
| `ScheduleAdmission.CancelAllDecides` | `scripts/ppc_lab_schedule.py:309-323` | Global cancellation cancels what runs or waits and leaves the other statuses and all attempts. |
| `ScheduleAdmission.RestartDecides` | `scripts/ppc_lab_schedule.py:191-204` | Resuming makes the running campaigns pending and changes nothing else that is recorded. |
| `ScheduleRounds.ChildSettled` | `scripts/ppc_lab_schedule.py:325-349` | In a whole round, a child seen cancelled, over its limit or finished ends with the status this gives it, whatever else the round does; any other child goes on. |
| `ScheduleRounds.DrainedRound` | `scripts/ppc_lab_schedule.py:349-364` | While draining, a campaign without a child is left alone, and the loop ends exactly when no child is left. |
| `ScheduleRounds.SlotsUsed` | `scripts/ppc_lab_schedule.py:360-392` | Otherwise the round ends with all slots taken or no project below its cap with a pending campaign, and the loop ends exactly when nothing runs or waits. |
| `ScheduleRounds.CancelledRound` | `scripts/ppc_lab_schedule.py:309-323` | The global cancel marker ends the loop, with what ran or waited cancelled and nothing started. |
| `TraceAnalysis.EdgeKinds` | `scripts/ppc_trace_intelligence.py:62-68` | An edge is a call after the call mnemonics, a return exactly after blr, and a branch otherwise: blrl, meant as a return too, always counts as a call. |

## Left out

- Floating-point arithmetic: the results of floating-point instructions, of conversions between formats and of the math stubs are total functions given with the configuration; laws about runs hold whatever they are.
- `Engine.ExecuteRegister`: instructions that only change registers, other than carry, rotate, mtcrf and branches, are one update of the processor state, not a sequence of assignments to fields.
- Registers are sequences in fields of the processor class, not fixed arrays; reassigning one element is the update in place.
- Error texts, tracing, disassembly and symbol names: no message is modelled, only whether and with what reason something stops.
- `std::sort` is an insertion sort by base address; base addresses are distinct, so the result is the same.
- File reading, header fields and string tables of the loaders: the models start from parsed records that satisfy the checks of the parsers (`Parsed` for PEF; relocation entries with place, type, symbol address and addend for ELF).
- ELF segment and section mapping, runtime symbol tables, COMMON and COPY symbols: the laws concern relocation; section layout is modelled for PEF, which does the same with contents and alignment.
- `ElfTables.TableTwiceIsOnce`: entries with implicit addends are not idempotent, as each application adds to what it finds; they are modelled, and order and frame are proved for them too, but no HA/LO law is stated.
- `PefRebasing.RebaseLaw`: sections 0 and 1 are mapped, the base is not zero and neither layout wraps around 32 bits; the layout code itself lets its cursor wrap. The memory is empty; memories with other regions are the subject of `PefFraming.RebaseBesideLaw`, which needs relocations that stay inside the image, and `PefFraming.StrayingDoesNotRebase` shows why.
- `PefLoading.LoadImage`: import resolution by name is left out; imports are given resolved or not. The list of public symbols is reduced to export values. After a failed load, section addresses are reported for the sections placed before the failure.
- `PatternUnpacker.UnpackPattern`: the output size is a 32-bit number, as at its only caller, not a `size_t`.
- `ScheduleFairness.WeightedFairShare`: ratios are compared exactly by cross-multiplication, where the code divides floating-point numbers; elapsed seconds are reals.
- Scheduler inputs: markers, clocks, exit codes and process termination are inputs of each round. A child that is not observed in a round is one whose `poll` gives nothing. Command lines, process ids and time stamps are not kept; ties are broken by manifest order, which decides before identifiers do.
- `SchedulerLoop.Scheduler.Resume`: the persisted state satisfies the accounts, as every written state does; a state file edited by hand is not modelled, nor is the check of the manifest hash.
- `KnowledgeGraph.RelatedGraph`: rows come from a sequence of edges instead of SQL; the fields of node records other than key and depth, and resolving references to nodes, are left out.
- `TraceSummaries.AnalyzeTrace`: mnemonic and routine are given with each event instead of being cut from texts; descriptive texts of hot addresses and hexadecimal formatting are left out. The density is a real number.
- Mach-O loading, the Unicorn backend, the HTTP, fleet, worker, upgrade and evidence tools: they repeat the relocation patches, call foreign code or move files.
