# Verified models of the WARP runtime and its tools

A Dafny 4.11 project beside the WARP WebAssembly runtime and compiler. It models four components of the
repository and proves properties of them. `dafny verify dfyconfig.toml` checks everything.

## What is modelled

**Linear memory** (`EagerMemory`, `LazyMemory`, `ActiveMemory`, `ActiveRuntime`, `PassiveMemory`,
`PassiveRuntime`, `MemoryRefinement`, `MemoryTheorems`, on `Bytes` and `Bits`). The reference is an eager,
zero-filled memory. Active mode is a relocatable block that is extended and zero-filled on demand, with the
usable size cached in the basedata; passive mode is a reservation of which OS pages are committed by a fault
handler. Both are classes with the original's fields, each method is proved against a step predicate, and over
every run of operations both are shown to be the eager memory.

**DWARF generator** (`Leb128`, `DwarfRecorder`, `DwarfLine`, `DwarfSections`, `DwarfReader`, `DwarfObject`).
The recorder's history of events determines which (destination, source) rows the table has to tell; "innermost
open operation" is defined on the history alone, by walking back. The opcodes, the section bytes with their
patched lengths and the ELF object are proved equal to a layout, and readers written from DWARF 5 (sections
6.2, 7.5 and 7.6) and ELF-64 get the recorded rows, the function ranges and the names back.

**Binary module** (`BinaryFormat`, `BinaryReaders`, `BinaryLayout`, `BinaryLookup`, `Disassembly`, `GlobalSlots`,
`Basedata`, `ModuleSetup`, `MachineCode`). One abstract module is written as a list of items, read from the end of the
file; `BinaryLayout` says the same of its bytes, position by position. The loader that
skips sections by size, the disassembler that walks every element, the name lookups and the loops over
mutable globals are proved against that one encoding, whatever the padding bytes contain. `MachineCode` is the
loop that takes a code region apart along known instruction addresses, for every instruction decoder.

**Trace pipeline** (`TraceBuffer`, `TracePipeline`, `Tracing`, `ThreadRunner`). Trace points, buffer swaps,
queueing, writing, registering and unregistering are steps of one protocol; runs are arbitrary interleavings of
steps. `Tracing` holds the extension's loops, each proved to perform such steps. `ThreadRunner` is the pause
handshake as a protocol of the atomic loads and stores of both threads: who is kept out, and that nobody is left
waiting.

## What the proofs say about the code

- An active access whose end plus the basedata exceeds 32 bits traps LINMEM_COULDNOTEXTEND where passive mode
  traps out of bounds (`MemoryTheorems.TrapsAgreeExactly` gives the exact condition).
- A data segment that ends at 2^32 is copied without a probe (`ActiveSegmentExact`, `PassiveSegmentExact`).
- A passive access that straddles the end of the memory while the limit has no room for its last allowed page ends in
  either trap, as the faulting byte decides (`StraddlingAccessEitherTrap`).
- `getLinearMemoryRegion` truncates the last byte to 32 bits, and the active probe computes offset + 1 in 32
  bits: accepted regions are really usable exactly below the bounds in `ActiveRegionExact` and
  `PassiveRegionExact`.
- Refreshing the active manager from the basedata makes a module without memory look like 2^32 - 1 pages, so that a
  host gets regions of memory the module does not have (`NoMemoryModule`).
- The line table is exact for a reader with wider registers only for gentle rows; a reader whose line register
  starts at 1 sees every source offset one higher. Every row names file 1, which the one-entry file table
  does not have in the numbering of DWARF 5 (`NoRowHasAFile`).
- A 31-bit stacktrace count whose array does not fit a positive int32_t lets the array run into the fields
  (`Basedata.StacktraceFits`).
- The disassembler numbers link statuses from the end of their section; docs/implementation_details/BinaryLayout.md
  and the serializer number them from its start. The code is followed.
- An instruction address listed twice, or an instruction that reaches across the next known address, makes the
  disassembler print the rest of the region as raw data when its assertion is compiled out (`MachineCode.NeverBack`).
- Registering and unregistering swap the buffers of all runtimes, and unregistering hands them on, so the writer can
  pass a buffer that an append of another runtime has read. Exactly then the item is lost (`TracesConserved`,
  `OvertakenAppendIsLost`); an item that still finds its buffer in the queue is not.
- `pause()` returns at once unless the state is Running, so a pause right after `start()` does not keep the
  thread out of its task (`EarlyPauseIntrudes`).

## Assumptions

OS pages are a power of two dividing 64 KiB; `EAGER_ALLOCATION` is 0; page counts only grow. The host's realloc
either fails or keeps the common prefix; which calls it grants is arbitrary, by call and size, and the OS either refuses or commits pages that read zero. A thread that
faults does so at some byte that is not committed, whichever it is. Sizes handed to the ELF writer fit a 64-bit
vector, and objects small enough for their 32-bit fields are stated as such. Modules are well formed in the sense
of `BinaryFormat.WellFormed`. One runtime executes one trace point at a time, and a runtime being unregistered
executes none. Atomic waits return only when the value differs from the one waited on.

## Model

| member | source | states |
|---|---|---|
| `MemoryRefinement.ActiveRefinesEager` | src/core/runtime/ActiveMemoryManager.cpp:59-186 | over every run of grow, load, store, host region, shrink and limit changes, the relocatable block with lazily exposed bytes answers like an eager zero-filled memory, and the manager invariant (usable bytes inside the refreshed page count and inside the block) holds in every state |
| `MemoryRefinement.PassiveRefinesEager` | src/utils/LinearMemoryAllocator.cpp:61-181 | the same for page-wise commits driven by faults, where a shrink keeps what lies below its OS page; committed bytes stay page-aligned, inside the allowed pages and inside the limit |
| `MemoryRefinement.ActiveIsLazy` | src/core/runtime/Runtime.cpp:661-702 | each active entry point, lagging page count included, is a step of the lazy memory |
| `MemoryRefinement.PassiveIsLazy` | src/utils/LinearMemoryAllocator.cpp:122-161 | each passive entry point is a step of the lazy memory for the page it rounds to |
| `LazyMemory.LazyRefines` | src/core/runtime/ActiveMemoryManager.cpp:64-114 | making bytes usable late is invisible: a lazy step is an eager step, and an unusable byte is still zero afterwards |
| `MemoryTheorems.ActiveLoadsLastBytes` | src/core/runtime/ActiveMemoryManager.cpp:132-186 | a load in active mode returns, byte by byte, what was stored there last, or zero if a shrink dropped it since, across every relocation |
| `MemoryTheorems.PassiveLoadsLastBytes` | src/utils/VirtualMemoryAllocator.cpp:77-99 | the same in passive mode, where a shrink drops from its OS page on |
| `MemoryTheorems.ReplayIsLastByte` | src/core/runtime/ActiveMemoryManager.cpp:64-97 | the eager memory after any run holds the last stored byte at every address |
| `MemoryTheorems.GrowAnswers` | src/core/compiler/backend/x86_64/x86_64_backend.cpp:3086-3155 | over a run of the eager memory: memory.grow answers the pages granted so far and grants if and only if the sum stays within the maximum |
| `MemoryTheorems.RangeAnswers` | src/core/runtime/ActiveMemoryManager.cpp:99-114 | an access is out of bounds if and only if it ends beyond 64 KiB times the pages granted so far, read off the history |
| `MemoryTheorems.ActiveGrows` | src/core/compiler/backend/x86_64/x86_64_backend.cpp:3086-3155 | the grow answers of every active run |
| `MemoryTheorems.PassiveGrows` | src/core/compiler/backend/x86_64/x86_64_backend.cpp:3086-3155 | the grow answers of every passive run |
| `MemoryTheorems.ModesAgree` | src/core/runtime/ActiveMemoryManager.cpp:99-114 | driven by the same operations, shrinking to whole OS pages and without failed allocations, the two modes hold the same memory and give the same answers |
| `MemoryTheorems.ProbesAgree` | src/utils/LinearMemoryAllocator.cpp:140-161 | for offsets below 2^32 - 1 both probes say out of bounds if and only if the offset lies beyond the allowed pages, whatever is usable or committed |
| `MemoryTheorems.ActiveTraps` | src/core/runtime/Runtime.cpp:682-702 | with a host that does not refuse, for every state and limit: an active access completes if and only if its bytes are usable, or inside the memory with room under the growth limit; it traps out of bounds if and only if it ends outside with basedata plus end in 32 bits, and ends in could-not-extend in exactly the other cases |
| `MemoryTheorems.PassiveTraps` | src/utils/SignalFunctionWrapper_unix.cpp:285-302 | with an OS that does not refuse, for every memory limit: a passive access completes if and only if its bytes are committed, or inside the memory with room for their pages; outside it traps out of bounds, unless it starts inside and the limit has no room for the pages in front |
| `MemoryTheorems.StraddlingAccessEitherTrap` | src/utils/SignalFunctionWrapper_unix.cpp:285-302 | in that last case either trap is possible, as the hardware picks the byte that faults |
| `MemoryTheorems.TrapsAgreeExactly` | src/core/runtime/Runtime.cpp:682-686 | inside the memory the modes end an access alike if and only if both reach its bytes or neither does; outside, with no allowed page missing in front, if and only if its end plus the basedata fits 32 bits |
| `MemoryTheorems.ActiveTrapWitness` | src/core/runtime/Runtime.cpp:683-685 | an access far outside ends in could-not-extend, and in no state out of bounds |
| `MemoryTheorems.ActiveRegionExact` | src/core/runtime/Runtime.cpp:661-669 | an accepted active region is usable to its end if and only if it ends below 2^32 - 1 |
| `MemoryTheorems.PassiveRegionExact` | src/core/runtime/Runtime.cpp:670-675 | an accepted passive region is usable to its end if and only if it ends inside the 32-bit address space |
| `MemoryTheorems.ActiveRegionWitness` | src/core/runtime/ActiveMemoryManager.cpp:109-109 | the last byte of a full memory is accepted in active mode and not made usable |
| `MemoryTheorems.PassiveRegionWitness` | src/core/runtime/Runtime.cpp:670-675 | a region that starts at the last 32-bit offset wraps and is accepted in passive mode |
| `MemoryTheorems.ActiveSegmentExact` | src/core/runtime/Runtime.cpp:267-284 | a data segment that a round of the loop lets through lies inside the usable bytes if and only if it ends below 2^32 |
| `MemoryTheorems.PassiveSegmentExact` | src/core/runtime/Runtime.cpp:267-284 | the same in passive mode, unless its bytes are committed already |
| `MemoryTheorems.NoMemoryModule` | src/core/runtime/Runtime.cpp:661-680 | a module without memory, set up in active mode: no region request of the host is ever out of bounds, and each that ends below 2^32 and has room is granted |
| `MemoryTheorems.NoMemoryPassive` | src/utils/LinearMemoryAllocator.cpp:140-161 | the passive allocator of such a module answers every probe with out of bounds |
| `MemoryTheorems.DriveActive` | src/core/runtime/Runtime.cpp:661-702 | any operation list on the active runtime object is such a run, from any valid state |
| `MemoryTheorems.DrivePassive` | src/utils/LinearMemoryAllocator.cpp:140-161 | any operation list on the passive runtime object is such a run, from any valid state |
| `EagerMemory.LoadAfterStore` | src/core/runtime/ActiveMemoryManager.cpp:167-186 | the reference memory: a load right after a completed store returns the stored bytes |
| `EagerMemory.LoadedByte` | src/core/runtime/Runtime.cpp:258-286 | after the segments are copied in order, a byte is that of the last segment that covers it |
| `ActiveMemory.ActiveMemoryManager.Init` | src/core/runtime/ActiveMemoryManager.cpp:43-53 | a block that houses the basedata, with no byte usable yet, whenever a reliable host has room; on failure block, bytes and cached address are what they were |
| `ActiveMemory.ActiveMemoryManager.Extend` | src/core/runtime/ActiveMemoryManager.cpp:59-62 | records the page count and touches no byte |
| `ActiveMemory.ActiveMemoryManager.Shrink` | src/core/runtime/ActiveMemoryManager.cpp:64-97 | keeps exactly the first bytes, refuses lengths beyond the usable ones, and with a reliable host leaves a block of at most the rounded need, or 512 bytes, and 4096 more |
| `ActiveMemory.ActiveMemoryManager.Probe` | src/core/runtime/ActiveMemoryManager.cpp:99-114 | three outcomes against the allowed pages, exposing zeros up to the offset, with the wrap of offset + 1 at 2^32 - 1 |
| `ActiveMemory.ActiveMemoryManager.EnsureCapacityForLinearSize` | src/core/runtime/ActiveMemoryManager.cpp:132-165 | the block afterwards houses basedata plus the request, with its contents kept wherever it moved, if and only if the host grants the proposed or else the least length |
| `ActiveMemory.ActiveMemoryManager.EnsureLinearSize` | src/core/runtime/ActiveMemoryManager.cpp:167-186 | every byte newly usable reads zero, every other is unchanged |
| `ActiveMemory.ActiveMemoryManager.SyncBasedataStart` | src/core/runtime/ActiveMemoryManager.cpp:188-192 | the cached base address follows the block |
| `ActiveMemory.ExtendableMemory.ExtensionRequest` | src/core/common/ExtendableMemory.hpp:150-152 | the growth callback asks the host for the proposed length, if that is refused for the least one, and otherwise leaves the memory alone; contents kept |
| `ActiveMemory.ProposedLengthBounds` | src/WasmModule/WasmModule.cpp:229-264 | a granted request is at least what was asked for and at most the larger of it and the limits |
| `ActiveMemory.ProposedLengthExact` | src/WasmModule/WasmModule.cpp:229-264 | in numbers: half a kilobyte or the request, whichever is more, and 4096 beyond it, cut to the limits |
| `ActiveRuntime.Runtime.InitializeModule` | src/core/runtime/Runtime.cpp:188-295 | the active memory after set-up is the page count of zeros with all data segments copied in order; a reliable host with room makes it succeed if and only if every segment fits, and trap out of bounds otherwise |
| `ActiveRuntime.Runtime.InitializeWithoutMemory` | src/core/runtime/Runtime.cpp:188-295 | a module without memory keeps its page count word at 2^32 - 1 while the manager is told of no pages |
| `ActiveRuntime.Runtime.LoadDataSegments` | src/core/runtime/Runtime.cpp:258-286 | the data loop, segment by segment: what it copies, when a segment is out of bounds, and that it fails otherwise only for want of room |
| `ActiveRuntime.Runtime.HandleExtensionRequest` | src/core/runtime/Runtime.cpp:682-702 | overflow, empty and probing requests with their three pointer answers, the cached size published |
| `ActiveRuntime.Runtime.Access` | src/core/compiler/backend/x86_64/x86_64_backend.cpp:2694-2800 | the emitted bounds check with its eight bytes of slack and the second comparison of its stub: pass on the cached size, ask the runtime only beyond it |
| `ActiveRuntime.Runtime.Load` | src/core/compiler/backend/x86_64/x86_64_backend.cpp:2756-2800 | a load reads the bytes of the represented memory or traps without changing it |
| `ActiveRuntime.Runtime.Store` | src/core/compiler/backend/x86_64/x86_64_backend.cpp:2756-2800 | a store writes exactly its bytes or traps without changing any |
| `ActiveRuntime.Runtime.MemoryGrow` | src/core/compiler/backend/x86_64/x86_64_backend.cpp:3086-3155 | memory.grow returns the old count and adds zero pages, or -1 and changes nothing |
| `ActiveRuntime.Runtime.GetLinearMemoryRegion` | src/core/runtime/Runtime.cpp:661-680 | a region request probes its truncated last byte with the page count in the basedata, for modules with and without memory |
| `ActiveRuntime.Runtime.ShrinkToSize` | src/core/runtime/Runtime.cpp:543-552 | the bytes below the length stay, the rest is zero, the cached size follows; refused if and only if the length exceeds the usable bytes |
| `ActiveRuntime.Runtime.SetMaxRam` | src/WasmModule/WasmModule.hpp:294-303 | a limit below what is in use is refused |
| `ActiveRuntime.Runtime.Perform` | src/core/runtime/Runtime.cpp:543-702 | any operation keeps the coupling of cached size, page count and manager |
| `PassiveMemory.VirtualMemoryAllocator.Reserve` | src/utils/VirtualMemoryAllocator.cpp:43-55 | a reservation of whole pages at a page-aligned address with nothing committed; an OS that does not refuse grants it |
| `PassiveMemory.VirtualMemoryAllocator.Resize` | src/utils/VirtualMemoryAllocator.cpp:77-99 | commits zeros or drops the tail; a kept byte never changes; every caller meets its alignment and reservation asserts |
| `PassiveMemory.LinearMemoryAllocator.Init` | src/utils/LinearMemoryAllocator.cpp:61-94 | basedata rounded up to pages and committed in front of a page-aligned linear memory, reservation with guard, limit kept; it succeeds with an OS that does not refuse and a limit that covers the basedata |
| `PassiveMemory.LinearMemoryAllocator.Extend` | src/utils/LinearMemoryAllocator.cpp:100-120 | the page count only; nothing is committed |
| `PassiveMemory.LinearMemoryAllocator.Shrink` | src/utils/LinearMemoryAllocator.cpp:122-138 | keeps the pages wholly below the length; refused if and only if the length exceeds what is committed |
| `PassiveMemory.LinearMemoryAllocator.Probe` | src/utils/LinearMemoryAllocator.cpp:140-161 | commits up to the page of the offset, unless out of bounds, over the limit or refused by the OS |
| `PassiveMemory.LinearMemoryAllocator.SetMemoryLimit` | src/utils/LinearMemoryAllocator.cpp:163-172 | a limit below what is committed is refused, others are rounded down to pages |
| `PassiveMemory.LinearMemoryAllocator.Commit` | src/utils/LinearMemoryAllocator.cpp:174-181 | no commit beyond the limit or the reservation |
| `PassiveMemory.PageUpIsLeast` | src/utils/MemUtils.cpp:300-304 | rounding up gives the least page multiple not below the size |
| `PassiveMemory.PageDownIsGreatest` | src/utils/MemUtils.cpp:312-315 | rounding down gives the greatest page multiple not above the size |
| `PassiveMemory.MaskRoundsUp` | src/utils/MemUtils.cpp:300-304 | the mask expression of roundUp rounds up to whole pages wherever its sum does not wrap |
| `PassiveMemory.MaskRoundsDown` | src/utils/MemUtils.cpp:312-315 | the mask expression of roundDown rounds down to whole pages |
| `PassiveRuntime.Runtime.GetOffsetInLinearMemoryAllocation` | src/utils/SignalFunctionWrapper.cpp:56-73 | the offset of a fault between the linear memory and the end of its guard, 0x2_0001_0000 bytes on, or -1 |
| `PassiveRuntime.Runtime.MemorySignalHandler` | src/utils/SignalFunctionWrapper_unix.cpp:263-302 | a fault in an allowed page goes to the landing pad with its exact offset, others up to the guard end trap out of bounds, and every address below the linear memory or behind the reservation is not handled |
| `PassiveRuntime.Runtime.ProbeLinearMemoryOffset` | src/utils/SignalFunctionWrapper.cpp:75-80 | the landing pad resumes the access if and only if the page could be committed |
| `PassiveRuntime.Runtime.Touch` | src/utils/SignalFunctionWrapper_unix.cpp:285-302 | the fault, landing pad, probe and retry loop of one access terminates, every round committing more; for every index plus offset it stays inside reservation and guard; it fails to extend only at an allowed page of the access, and with a reliable OS only for want of room for the pages of the access |
| `PassiveRuntime.Runtime.InitializeModule` | src/core/runtime/Runtime.cpp:188-286 | the passive memory after set-up is zeros with all segments copied in order; an OS that does not refuse and a limit with room make it succeed if and only if every segment fits |
| `PassiveRuntime.Runtime.Load` | src/utils/SignalFunctionWrapper_unix.cpp:285-302 | an unchecked load reads the represented bytes or ends in the trap of its faults |
| `PassiveRuntime.Runtime.Store` | src/utils/SignalFunctionWrapper_unix.cpp:285-302 | an unchecked store writes exactly its bytes or ends in the trap of its faults |
| `PassiveRuntime.Runtime.MemoryGrow` | src/core/compiler/backend/x86_64/x86_64_backend.cpp:3086-3155 | memory.grow with the allocator told before the page count is exchanged |
| `PassiveRuntime.Runtime.Perform` | src/utils/LinearMemoryAllocator.cpp:61-181 | any operation keeps the passive invariant |
| `Bits.RoundUpWordIsLeast` | src/utils/MemUtils.cpp:300-304 | add-then-mask rounding of a size_t is the least multiple if and only if value plus alignment does not exceed the word; beyond that the result lies below the value |
| `Bits.RoundDownIsGreatest` | src/utils/MemUtils.cpp:312-315 | masking is the greatest multiple not above |
| `Bits.RoundUpToPow2Exact` | src/core/common/util.hpp:481-484 | test-then-mask rounding of a word is the next multiple if and only if that multiple fits the word |
| `Leb128.EncodeULEB128` | extensions/DwarfImpl.cpp:110-119 | the loop appends the unsigned encoding, for every uint32 |
| `Leb128.EncodeSLEB128` | extensions/DwarfImpl.cpp:121-132 | the loop appends the signed encoding, for every int32, whatever its stop condition looks at |
| `Leb128.DecodeUnsigned` | scripts/helper/leb128.py:23-33 | the script sums the groups of one number and reports its length |
| `Leb128.DecodeSigned` | scripts/helper/leb128.py:37-49 | the same with the sign of the last group |
| `Leb128.URoundTrip` | scripts/helper/leb128.py:23-33 | decoding an encoded number followed by anything returns the number and its exact length |
| `Leb128.SRoundTrip` | scripts/helper/leb128.py:37-49 | the same for signed numbers |
| `Leb128.UShortest` | extensions/DwarfImpl.cpp:110-119 | no complete encoding of the same number is shorter, and none other as short (section 7.6 of DWARF 5) |
| `Leb128.SShortest` | extensions/DwarfImpl.cpp:121-132 | the same for signed numbers |
| `Leb128.WordsFitFiveBytes` | extensions/DwarfImpl.cpp:110-132 | 32-bit numbers take at most five bytes |
| `Leb128.UGroups` | extensions/DwarfImpl.cpp:110-119 | n bytes suffice if and only if the number is below 128^n |
| `DwarfRecorder.Dwarf5Generator.RegisterPendingDeferAction` | extensions/DwarfImpl.cpp:539-541 | the element waits with its latest offset |
| `DwarfRecorder.Dwarf5Generator.StartDeferredOp` | extensions/DwarfImpl.cpp:543-548 | the operation opens with the offset the element waited with, which is used up |
| `DwarfRecorder.Dwarf5Generator.StartOp` | extensions/DwarfImpl.cpp:549-551 | the operation becomes the innermost open one |
| `DwarfRecorder.Dwarf5Generator.FinishOp` | extensions/DwarfImpl.cpp:552-555 | the operation around the closed one is innermost again |
| `DwarfRecorder.Dwarf5Generator.RecordLocation` | extensions/DwarfImpl.cpp:556-562 | the table gains the destination with the innermost open source, or nothing if none is open |
| `DwarfRecorder.Dwarf5Generator.AddSourceDestinationMap` | extensions/DwarfImpl.cpp:563-573 | appends the opcodes of one row relative to the row before it |
| `DwarfRecorder.Dwarf5Generator.StartFunction` | extensions/DwarfImpl.cpp:575-577 | a function opens |
| `DwarfRecorder.Dwarf5Generator.FinishFunction` | extensions/DwarfImpl.cpp:579-582 | the last function gets its end |
| `DwarfRecorder.Dwarf5Generator.Dump` | extensions/DwarfImpl.cpp:158-182 | dump prints the recorded pairs, in order, for every history of events |
| `DwarfRecorder.Dwarf5Generator.GetInstructions` | extensions/DwarfImpl.cpp:518-537 | the listed addresses are the recorded destinations |
| `DwarfRecorder.RecordsInnermost` | extensions/DwarfImpl.cpp:556-562 | whatever balanced operations ran inside an operation, a destination recorded next gets its source |
| `DwarfRecorder.RecordsDeferred` | extensions/DwarfImpl.cpp:539-562 | a deferred operation records under the source its element was registered with last |
| `DwarfRecorder.OperationEnds` | extensions/DwarfImpl.cpp:552-555 | after an operation ends, what was open before it, at every depth, is open again |
| `DwarfRecorder.NothingOpen` | extensions/DwarfImpl.cpp:556-562 | outside of all operations nothing is recorded |
| `DwarfRecorder.FunctionSpans` | extensions/DwarfImpl.cpp:575-582 | a function spans from its start to the last end reported before another starts; functions before it are kept |
| `DwarfRecorder.ReplayDeltas` | extensions/DwarfImpl.cpp:158-182 | replaying the opcodes of any rows with 32-bit registers gives back the rows |
| `DwarfLine.ToDwarf5Format` | extensions/DwarfImpl.cpp:134-157 | each opcode is written as its standard opcode and operand |
| `DwarfLine.RunEncoded` | extensions/DwarfImpl.cpp:285-294 | a reader of section 6.2.5 of DWARF 5, under any header that scales addresses by one and gives the four standard opcodes their operands, decodes the written bytes to the opcodes, whatever follows |
| `DwarfLine.ProgramRows` | extensions/DwarfImpl.cpp:285-294 | it ends the sequence once, at the last row |
| `DwarfLine.ReadersAgree` | extensions/DwarfImpl.cpp:563-573 | its rows, from any initial line, are the recorded pairs modulo 2^32 |
| `DwarfLine.ExactlyWhenGentle` | extensions/DwarfImpl.cpp:563-573 | and are exactly the pairs if and only if destinations never decrease and no source step needs more than 31 bits |
| `DwarfLine.BackwardsRowIsFarOff` | extensions/DwarfImpl.cpp:563-573 | a destination that goes back by one is read as 2^32 |
| `DwarfSections.CreateDebugLineSection` | extensions/DwarfImpl.cpp:184-303 | the section equals its layout, with both lengths patched where they belong |
| `DwarfSections.CreateDebugAbbrevSection` | extensions/DwarfImpl.cpp:316-340 | the abbreviation table |
| `DwarfSections.CreateDebugInfoSection` | extensions/DwarfImpl.cpp:342-382 | unit header, one entry per function, terminator, length patched |
| `DwarfReader.LineSectionReads` | extensions/DwarfImpl.cpp:297-302 | header_length ends at the first opcode and unit_length at the section end (section 6.2.4 of DWARF 5); the program is run under the header read from the section |
| `DwarfReader.HeaderRead` | extensions/DwarfImpl.cpp:208-253 | what a reader finds behind header_length: instructions of one byte, one operation each, rows that are statements, line_base -3, line_range 14 and the operand counts of four standard opcodes |
| `DwarfReader.UnitLengthFits` | extensions/DwarfImpl.cpp:300-302 | the stored unit length is right if and only if the section fits it |
| `DwarfReader.NamesRead` | extensions/DwarfImpl.cpp:255-275 | directory and file name are read back if and only if the name has no NUL |
| `DwarfReader.NoRowHasAFile` | extensions/DwarfImpl.cpp:262-283 | every row of every program names file 1, while the file table, whenever it can be read, has one entry, numbered 0 in DWARF 5 |
| `DwarfReader.AbbreviationsRead` | extensions/DwarfImpl.cpp:316-340 | a reader of section 7.5.3 of DWARF 5 finds the two declarations |
| `DwarfReader.ChildrenRead` | extensions/DwarfImpl.cpp:366-374 | the entries decode, through that table, to all functions in order |
| `DwarfReader.InfoSectionReads` | extensions/DwarfImpl.cpp:342-382 | the unit decodes to the function list |
| `DwarfObject.BuildObject` | extensions/DwarfImpl.cpp:384-512 | the object equals its layout, for every name, program, function list and target |
| `DwarfObject.ToDwarfObject` | extensions/DwarfImpl.cpp:384-512 | the object of a generator is determined by the events reported to it |
| `DwarfObject.WriteSectionHeader` | extensions/DwarfImpl.cpp:474-495 | one 64-byte section header |
| `DwarfObject.HeaderParsed` | extensions/DwarfImpl.cpp:474-495 | reading a section header back returns its fields; flags, address, link, info and entry size are zero and the alignment is one |
| `DwarfObject.ObjectIsElf` | extensions/DwarfImpl.cpp:386-438 | the identification bytes, machine number, version and header sizes of an ELF-64 little-endian file, for every target |
| `DwarfObject.TableOffsetFits` | extensions/DwarfImpl.cpp:469-470 | e_shoff, of which 32 bits are patched, is right if and only if the sections end below 2^32 |
| `DwarfObject.ImageIsLaid` | extensions/DwarfImpl.cpp:384-512 | e_shoff leads to five headers, each describing exactly the bytes of its section |
| `DwarfObject.SectionsTileTheFile` | extensions/DwarfImpl.cpp:440-512 | sections are disjoint and contiguous from the file header to the section table, which ends the file |
| `DwarfObject.SectionsRead` | extensions/DwarfImpl.cpp:440-512 | every section is found under its name in .shstrtab |
| `DwarfObject.KindsRead` | extensions/DwarfImpl.cpp:474-512 | the name table is of type 3 and the debug sections are of type 1 |
| `DwarfObject.ObjectRecoversStorage` | extensions/DwarfImpl.cpp:384-512 | from the object bytes alone a debugger gets the recorded pairs (exactly, if and only if they are gentle) and every function range |
| `BinaryFormat.RoundsUp` | src/core/common/util.hpp:481-496 | both padding functions agree with the distance to the next multiple of four |
| `BinaryFormat.SectionCovered` | src/core/common/BinaryModule.cpp:84-119 | walking over the elements of a section moves the cursor by its stored size |
| `BinaryFormat.BoundariesAligned` | disassembler/disassembler.cpp:540-735 | every section boundary is a whole number of words from the start of the file |
| `BinaryFormat.FunctionsAligned` | disassembler/disassembler.cpp:592-606 | every export entry is a whole number of words |
| `BinaryFormat.EntriesAligned` | disassembler/disassembler.cpp:540-735 | in front of every entry of every section the cursor is a whole number of words from the start of the file and from its end; the single bytes of the link statuses count as one entry |
| `BinaryLayout.InfoLaid` | src/core/common/BinaryModule.cpp:39-59 | length, version, stacktrace count, landing pad and link data length are the last five words of the file |
| `BinaryLayout.EntriesLaid` | disassembler/disassembler.cpp:540-735 | every entry of every list of the file, byte by byte: its words, padded texts, type letters or codes and values, and where the next entry lies |
| `BinaryLayout.ListEnds` | disassembler/disassembler.cpp:540-735 | behind the last entry of a list is the next boundary, and behind the last body the start of the file |
| `BinaryLayout.SizesLaid` | src/core/common/BinaryModule.cpp:83-120 | the word in front of a section is its distance to the next boundary, the word behind that its number of entries |
| `BinaryLayout.CountLaid` | src/core/common/BinaryModule.cpp:61-124 | the sections that start with a count alone, and the memory size |
| `BinaryLayout.StatusesLaid` | src/core/common/BinaryModule.cpp:76-80 | link statuses end at their boundary behind padding to four, the first of them last |
| `BinaryReaders.SkipSection` | src/core/common/BinaryModule.cpp:84-119 | one size-skip lands on the next section |
| `BinaryReaders.BinaryModule.Init` | src/core/common/BinaryModule.cpp:27-125 | an address that is not aligned or a version other than 3 is refused; otherwise every field and section end is the place a reader of all elements reaches |
| `BinaryReaders.Placed` | src/core/common/BinaryModule.cpp:54-124 | the file up to each boundary is what remains to be read there |
| `BinaryLayout.InfoKept` | src/core/common/BinaryModule.cpp:42-59 | what init keeps of the last words of the file: count and debug bit of the stacktrace word, landing pad as a distance, link data length |
| `BinaryLayout.TablesKept` | src/core/common/BinaryModule.cpp:61-80 | the table ends init keeps, computed from the counts in the file |
| `BinaryLayout.ExportsKept` | src/core/common/BinaryModule.cpp:83-109 | each section end init keeps leads to the next by the size word in the file; the memory size in between |
| `BinaryLayout.RestKept` | src/core/common/BinaryModule.cpp:107-125 | so do those of start function, names and data segments; the start function is absent if and only if its size word is zero |
| `Disassembly.Disassemble` | disassembler/disassembler.cpp:455-738 | for every well-formed module the walk prints every element once; each line shows the bytes at its offset, the lines tile the file from its end to its start, and each section is finished where init finds it |
| `Disassembly.ListingTiles` | disassembler/disassembler.cpp:455-738 | the lines of any list of items show exactly its bytes, without gap or overlap |
| `Disassembly.DisassemblerImpl.WalkFunctions` | disassembler/disassembler.cpp:592-606 | the exported function loop consumes exactly its section |
| `Disassembly.DisassemblerImpl.WalkGlobals` | disassembler/disassembler.cpp:611-645 | the exported global loop, with four or eight byte constants and slots |
| `Disassembly.DisassemblerImpl.WalkBodies` | disassembler/disassembler.cpp:730-734 | the last loop ends exactly at the start of the file |
| `Disassembly.StatusLabelled` | disassembler/disassembler.cpp:582-588 | the status printed for function i is the one kept for function n - 1 - i |
| `Disassembly.StatusLabelsRight` | disassembler/disassembler.cpp:582-588 | so the labels are right if and only if the statuses read the same from both ends |
| `Disassembly.StatusLabelsSwapped` | disassembler/disassembler.cpp:582-588 | with two imports of different status both labels are wrong |
| `MachineCode.CSDissembler.Split` | disassembler/disassembler.cpp:161-184 | the first address not below the region and the first from there beyond it; of sorted addresses, exactly those inside |
| `MachineCode.CSDissembler.Disasm` | disassembler/disassembler.cpp:186-246 | the pieces follow each other without gap up to the region end or a place the decoder refuses, and every known address starts an instruction if and only if the sweep before the first hits it, each has an instruction, and none but those at the last address reaches across the next entry |
| `MachineCode.AllKnownMet` | disassembler/disassembler.cpp:186-246 | the same of the loop, for every decoder and any sorted addresses, repeated ones included |
| `MachineCode.OnlyKnownDecoded` | disassembler/disassembler.cpp:205-235 | between the first known address and the last nothing else is printed as an instruction |
| `MachineCode.GapShown` | disassembler/disassembler.cpp:205-225 | what lies between two known addresses is shown as words as long as four bytes remain, then bytes |
| `MachineCode.NeverBack` | disassembler/disassembler.cpp:205-232 | once the loop has passed the address it waits for, everything to the end is raw data |
| `MachineCode.RepeatedAddressDerails` | disassembler/disassembler.cpp:193-232 | so it is after an address that is listed twice |
| `BinaryLookup.FindExportedFunctionByName` | src/core/runtime/Runtime.cpp:725-753 | the offset behind the first export whose name matches, or nothing if none does |
| `BinaryLookup.FunctionInfo` | src/core/runtime/Runtime.cpp:819-832 | signature and wrapper of the record at an offset |
| `BinaryLookup.GetFunction` | src/core/runtime/Runtime.cpp:709-716 | lookup and record together: signature and wrapper of the first export with that NUL-free name, the wrapper at the end of its entry; not found if and only if there is none |
| `BinaryLookup.SameMeansEqual` | src/core/runtime/Runtime.cpp:739-739 | the name comparison is equality for all stored names if and only if the wanted name has no NUL before its last byte |
| `BinaryLookup.ReadStartFunction` | src/core/runtime/Runtime.cpp:819-832 | the start function record at the offset init keeps |
| `BinaryLookup.FindExportedGlobalByName` | src/core/runtime/Runtime.cpp:769-799 | the record of the first exported global with a matching name, or nothing if none does |
| `GlobalSlots.InitializeGlobals` | src/core/runtime/Runtime.cpp:242-256 | the link data afterwards is the initial values copied into their slots in order: each lies little-endian at its offset modulo 2^16 if no two slots overlap, and no byte outside the slots changes |
| `GlobalSlots.IterateMutableGlobals` | src/core/runtime/Runtime.cpp:801-817 | the iteration yields each type code, 1 to 4, with the four or eight bytes at the offset modulo 2^16 |
| `GlobalSlots.InitialValuesIterate` | src/core/runtime/Runtime.cpp:801-817 | after initialisation it yields exactly the encoded values, if no two slots overlap |
| `ModuleSetup.InitializeBasedata` | src/core/runtime/Runtime.cpp:188-337 | on the bytes of the basedata, for every build and all field writes around them: the globals iterate to their encoded values and lie behind the eight bytes in front, every stacktrace record is reset, and each field holds what was written to it last |
| `ModuleSetup.LastWriteHolds` | src/core/common/basedataoffsets.hpp:25-188 | each field holds, at its distance from the linear memory, what was written to it last |
| `ModuleSetup.RuntimeWords` | src/core/common/basedataoffsets.hpp:25-90 | the page count and the cached size of the runtimes are the fields at 12 and 16 of a build with interruption requests |
| `ModuleSetup.ReadSegments` | src/core/runtime/Runtime.cpp:258-270 | the starts and bytes of the data section, in order |
| `ModuleSetup.MakeActive` | src/core/runtime/Runtime.cpp:188-295 | from the binary: each byte of the active memory is that of the last segment of the file that covers it, or zero; given room, set-up succeeds if and only if every segment ends inside the memory |
| `ModuleSetup.MakePassive` | src/core/runtime/Runtime.cpp:188-286 | the same in passive mode |
| `Basedata.FieldsStacked` | src/core/common/basedataoffsets.hpp:25-188 | for every build configuration the fields lie one beyond the other and the outermost keeps eight-byte alignment |
| `Basedata.OffsetsX86` | src/core/common/basedataoffsets.hpp:25-188 | all offsets of an x86-64 build with most options, in numbers |
| `Basedata.OffsetsAArch64` | src/core/common/basedataoffsets.hpp:25-188 | the same of a small AArch64 build |
| `Basedata.OffsetsTriCore` | src/core/common/basedataoffsets.hpp:25-188 | the same of a TriCore build with dynamically linked functions |
| `Basedata.StacktraceFits` | src/core/common/basedataoffsets.hpp:190-193 | the stacktrace array ends in front of the fields if and only if its padded size stays a positive int32_t, and is then padded to the next eight bytes |
| `Basedata.StacktraceFitsNot` | src/core/common/basedataoffsets.hpp:190-193 | with 2^29 records the array would start behind the fields |
| `Basedata.LengthExact` | src/core/common/basedataoffsets.hpp:219-222 | the 32-bit length has room for the link data if and only if the sum of all parts does not wrap |
| `Basedata.LayoutDisjoint` | src/core/common/basedataoffsets.hpp:190-222 | link data, stacktrace array and fields lie inside the basedata, pairwise apart, whenever the sum of their sizes does not wrap |
| `TraceBuffer.TracePoint` | src/core/compiler/backend/x86_64/x86_64_backend.cpp:2046-2095 | one trace point stores time and trace number behind the items there are and counts itself, or leaves a buffer of 32767 items alone |
| `TraceBuffer.SetTraceBuffer` | src/core/runtime/Runtime.cpp:419-430 | the capacity is the number of items that fit behind the two words in front; on AArch64 a misaligned buffer is refused unchanged |
| `TraceBuffer.GetTraceItem` | extensions/TraceBuffer.hpp:77-80 | reads back the item at an index, word by word |
| `TraceBuffer.TraceRecorder.SwapOut` | extensions/TraceBuffer.hpp:97-102 | the owned buffers keep their order and gain an empty one |
| `TraceBuffer.TraceRecorder.NeedSwapOut` | extensions/TraceBuffer.hpp:104-106 | asks for a swap from 4096 items on |
| `TraceBuffer.TraceRecorder.MoveOutBuffers` | extensions/TraceBuffer.hpp:108-111 | all but the two newest leave, in order |
| `TracePipeline.TracesConserved` | extensions/TraceBuffer.hpp:97-111 | for every interleaving and every runtime: processed, collected, queued and held items are, in this order, exactly the emitted ones with no append left to be lost, if and only if the writer passed no buffer with room in it under an append that had read it |
| `TracePipeline.FinishedTracesConserved` | extensions/Tracing.cpp:103-170 | so once a runtime executes no trace point, its emitted trace is stored whole and in order if and only if that never happened |
| `TracePipeline.TracesInOrder` | extensions/TraceBuffer.hpp:97-111 | in no interleaving is an item duplicated or moved past another |
| `TracePipeline.BriefRunsConserve` | extensions/Tracing.cpp:103-170 | nothing of a runtime is lost, duplicated or reordered if none of its appends spans two swaps |
| `TracePipeline.StepInv` | extensions/Tracing.cpp:103-170 | every step of every thread keeps the accounting, with appends under way whose buffer is in use, rotated, queued, being written or passed |
| `TracePipeline.OvertakenAppendIsLost` | extensions/Tracing.cpp:144-215 | an append overtaken by two forced swaps, the move and the writer is lost |
| `TracePipeline.FileIsPrefix` | extensions/Tracing.cpp:156-168 | the file is always the first items of the writer's order, up to the limit |
| `TracePipeline.RecordsNameTheirModule` | extensions/Tracing.cpp:156-170 | every record written names a module under which its runtime was registered |
| `TracePipeline.UnregisterLeavesNothing` | extensions/Tracing.cpp:185-196 | with the forced swaps embedded in any steps of other threads, the writer has everything the runtime emitted when it is erased, if and only if nothing of it was lost before |
| `Tracing.TracingExtension.SwapAll` | extensions/Tracing.cpp:126-136 | every runtime that needs it is swapped, each as one step |
| `Tracing.TracingExtension.RecordOnce` | extensions/Tracing.cpp:124-142 | one pass of the record thread: recorders with 4096 items or more are swapped; only if none needs it, and the lock is free, completed buffers move on |
| `Tracing.TracingExtension.MoveAll` | extensions/Tracing.cpp:109-117 | completed buffers of every runtime are queued, in order |
| `Tracing.TracingExtension.WriteOnce` | extensions/Tracing.cpp:144-170 | the stream gains the queued items in order up to the limit; read back from its bytes it tells, behind the sixteen letters, module, time point and trace of the first records the writer went through |
| `Tracing.FileTells` | extensions/Tracing.cpp:95-95 | a file of any records, read by positions: at 16 + 16k the module as a 64-bit word, then time point and trace as words |
| `Tracing.TracingExtension.WriteBuffer` | extensions/Tracing.cpp:156-168 | the inner loop with its early exit |
| `Tracing.TracingExtension.RegisterRuntime` | extensions/Tracing.cpp:172-183 | the runtime is known with its module and has a buffer, also one that was registered before |
| `Tracing.TracingExtension.UnregisterRuntime` | extensions/Tracing.cpp:185-196 | afterwards written and queued items are all the runtime emitted, in order, if and only if the writer never passed a buffer with room under one of its appends |
| `Tracing.TracingExtension.CompiledCodeStoresQueued` | extensions/TraceBuffer.hpp:97-111 | an append that reaches a buffer still in the queue is in the trace that will be written |
| `Tracing.TracingExtension.CompiledCodeLoads` | src/core/compiler/backend/x86_64/x86_64_backend.cpp:2046-2095 | a trace point reads the buffer pointer |
| `Tracing.TracingExtension.CompiledCodeStores` | src/core/compiler/backend/x86_64/x86_64_backend.cpp:2046-2095 | a trace point stores its item in the buffer it read, in use or rotated since, unless that is full |
| `Tracing.TracingExtension.CompiledCodeStoresLate` | src/core/compiler/backend/x86_64/x86_64_backend.cpp:2046-2095 | an append behind the writer changes nothing that will be written |
| `Tracing.TracingExtension.ForceRecordAllTraces` | extensions/Tracing.cpp:209-215 | two swaps and a move leave nothing held |
| `Tracing.TracingExtension.StopAndWriteData` | extensions/Tracing.cpp:198-207 | everything held is moved out and the stream tells the first items up to the limit; of every runtime that executes no trace point the writer has then gone through all it ever emitted, in order, if and only if it never passed a buffer with room under one of its appends |
| `ThreadRunner.PausedThreadStaysOut` | extensions/Runner.cpp:51-57 | over every interleaving in which pauses are entered while the state is Running, the thread is outside its task and does not enter it between the return of the pause and the resume |
| `ThreadRunner.PauseExcludesExactly` | extensions/Runner.cpp:51-92 | a pause excludes the thread in every interleaving if and only if it is entered with the state Running or before the thread has read the target Running |
| `ThreadRunner.EarlyPauseIntrudes` | extensions/Runner.cpp:34-57 | a pause right after start can return with the thread in its task |
| `ThreadRunner.NobodyStuck` | extensions/Runner.cpp:34-92 | in every interleaving, six steps of a started thread answer a pause, bring it into its task after a start or a resume, and end it for finish to join |
| `ThreadRunner.FinishedThreadIsOver` | extensions/Runner.cpp:39-49 | once finish has returned the thread is over |
| `ThreadRunner.RunExcludes` | extensions/Runner.cpp:64-92 | the exclusion is kept by every step |

## Left out

- Wasm frontend, validation, code generation, register allocation and the module serializer: emitted code appears as load, store, grow and append steps, the serializer as the encoding its readers expect.
- OS calls, signal installation, saved contexts, the Windows handler, stack overflow and division faults: only their effects on memory are stated, as assumptions.
- The state after a failed `init`, the `reallocShrinkTo*` wrappers and the desired-RAM bookkeeping after a failed extension.
- Matching imported symbols and linking errors in `initializeModule`; which bytes go to which field of the basedata.
- `findFunctionByExportedTableIndex`, signature validation and reading the value of an exported global.
- Text of the disassembler's lines (it describes machine types as 7F to 7C where the file holds 1 to 4), ANSI colours and section headings of the disassembler and of `dump`; the decoding of single instructions, which is a parameter; the debug map.
- Standard opcodes behind DW_LNS_set_file, which the reader of the line table skips by their operand counts: no header written here declares them.
- ActiveMemory.ExtendableMemory.ExtensionRequest: not the request of 0 bytes, by which only a destructor frees the block.
- PassiveMemory.LinearMemoryAllocator.Extend: page counts below what is committed or above 65536, which no caller passes.
- ActiveRuntime.Runtime.InitializeModule: data segments that end at 2^32 or beyond, whose 32-bit end wraps so that they are copied behind the usable bytes (`MemoryTheorems.ActiveSegmentExact`).
- ActiveRuntime.Runtime.LoadDataSegments: the same segments.
- PassiveRuntime.Runtime.InitializeModule: the same segments (`MemoryTheorems.PassiveSegmentExact`).
- ModuleSetup.MakePassive: the same segments.
- ModuleSetup.MakeActive: the same segments; it also reads the whole data section before it copies the first segment; with reading and copying in turn nothing differs, as the binary does not change.
- Tracing.TracingExtension.UnregisterRuntime: one call without steps of other runtimes in between; with them in between, the claim is `TracePipeline.UnregisterLeavesNothing`.
- Bits.RoundUpWordIsLeast: on unbounded word widths, of which the code uses 64.
- GlobalSlots.InitialValuesIterate: sufficient only; overlapping slots that happen to hold equal bytes are not characterised.
- Fairness of scheduling, and condition variables; opening the trace file and parsing its limit from the environment.
- Tracing.TracingExtension.RegisterRuntime: a runtime that is registered at the time of the call.
- A runtime that keeps executing after it was unregistered.
