# Cheat Engine driver and server: verified models

A Dafny model of the parts of Cheat Engine's kernel driver (`DBKKernel`), of its UEFI loader (`DBVM UEFI`) and of its
Linux server (`Cheat Engine/ceserver`) in which bit arithmetic, long loops or interleaving threads have to agree with a
simple specification. Only the AMD64 branches are modelled. `dafny verify dfyconfig.toml` checks everything.

**Page tables** (`Paging`, `Leaves`, `AccessedRanges`, `AccessedPages`, `RegionSearch`, `RegionScan`).
`Paging.Translate` is the processor's four-level walk (section 4.5 of the Intel SDM, Volume 3A) over a memory of
entries. Everything else is proved against it: the addresses computed through the recursive self-map, the loop that
walks the whole layout, the list of accessed ranges, the clearing of accessed bits, and the search for the end of a
region. A virtual page is named by its number, an entry by its physical address divided by 8. `Leaves.LeavesFrom` is the
page-by-page definition of what a walk should report, `RegionSearch.Scan` the page-by-page definition of what a search
should find.

**Processor Trace output** (`Topa`, `TraceOutput`, `TraceBuffers`, `BufferSwitch`, `OverlappingFlushes`). The hardware
is a machine that steps over the tables that `setupToPA` builds (section 35.2.6.2 of the Intel SDM, Volume 3C).
`TraceOutput` shows that the writer's size formula is the number of bytes output; `TraceBuffers` lets the hardware, the
profiling interrupt, pause and resume, a flusher, the swap DPC and the writer take single steps in any order,
`BufferSwitch` is the DPC as code, and `OverlappingFlushes` lets any number of flushers work at once. The line that
increments the table number (`DBKKernel/ultimap2.c:1247`) assigns a post-increment to its own operand; it is read as an
increment.

**Debug registers** (`BreakpointPlacement`, `DebugRegisters`) and the **break hand-off** (`BreakHandoff`). A register is
its 64 bits, so that "no other bit changes" is a statement about bits. The hand-off is a state machine over any number
of threads.

**Boot page tables** (`BootTables`, `TemporaryTables`), the **trace-block pool** (`BlockPool`), the **re-entrant
spinlock** (`CriticalSection`), the **word-wise ptrace copy** (`PtraceCopy`) and the **paged region list**
(`RegionList`).

Every state machine is a function from a state and an action to the next state, if the action is possible; the theorems
are about all finite runs.

## What does not hold as intended

Each of these is stated as an exact condition; where the condition does not itself name a failing input, a lemma gives
one.

- `FindFirstDifferentAddress` keeps the page-table index when it leaves a 2 MB page, so a search that starts inside one
  can step over the first pages of the next block. `RegionSearch.ResumeExact` says when the result is still right,
  `RegionSearch.InteriorStartFails` gives a table on which it is not. The search also ends at a change from read-only to
  writable but not at the opposite change; `RegionSearch.Stop` says exactly that. It takes a 1 GB page for a table:
  `RegionSearch.ReadInitiallyExact` says when the protection it reads for its start is the right one,
  `RegionSearch.GiantStartFails` is a table on which it is not.
- The lock lets a second CPU in when its `cpunr` field names that CPU before the first owner has written the field. A
  section that is only zeroed, like `StacksCS` (`DBKKernel/debugger.c:89`), names CPU 0. `CriticalSection.ExclusiveIff`
  is the exact condition, `CriticalSection.TwoInside` the run. When code in the section turns interrupts on
  (`DBKKernel/debugger.c:245-246`), the last csLeave leaves them on; `CriticalSection.LockSafe` says when they end as
  they were.
- The test for a REX.B prefix in front of a debug-register move accepts three legacy prefixes as well, and REX prefixes
  that do not count; a move from rsp stores zero and a move to rsp is lost. `DebugRegisters.MoveExact` is the exact
  condition for every move, `DebugRegisters.DisplacedRex` and `DebugRegisters.WriteFromRsp` show the two cases.
- The epilogue computes which DR6 bits the guest should see in a local copy (`DBKKernel/debugger.c:1599-1611`) and then
  loads DR6 from the unchanged field. `DebugRegisters.LoadedDr6` says exactly when that is the same; by
  `DebugRegisters.StepNotShown` a process that steps through its own code is told of an exception without a cause.
- The handler takes every exception in kernel code for a caught access when DR6.BD is set (`DBKKernel/debugger.c:887`).
  A guest can set it: of all caught moves, a write to DR6 with bit 13 set in the source leaves it set
  (`DebugRegisters.BdAfter`), since the code writes the same value again (`DBKKernel/debugger.c:1177-1181`). By
  `DebugRegisters.BdMistaken` the next exception is then swallowed and rip moved on, `DebugRegisters.BdMistakenExample`
  is such a run. `DebugRegisters.ExceptionExact` is the exact condition for one exception, `DebugRegisters.RunExact` for
  all runs; by `DebugRegisters.WithoutBd` a guest that never sets BD meets it.
- `ultimap2_resume` starts the hardware again at the first table without a swap, so it gives up what was output since
  the last one. `TraceBuffers.OnlyResumeLoses` says how much, `TraceBuffers.ResumeLosesExample` is a run that loses a
  byte, and by `TraceBuffers.PauseThenResume` nothing is lost after a pause.
- Flushers that overlap can queue the swap DPC after another has already used the event they waited for.
  `OverlappingFlushes.LateSwapBytes` is the exact condition under which that costs, doubles or moves no byte,
  `OverlappingFlushes.OverlapLoses` a run with two flushers that loses one. By `OverlappingFlushes.TimelyKeeps` a run in
  which every queueing finds the event signalled is safe.
- The boot layout lies inside the 4 MB image only for files below 1001 pages (Windows) or images of at most 1001 pages
  (UEFI), though the code accepts 1024 (`BootTables.LayoutFits`, `BootTables.LayoutFitsUefi`). With larger ones the
  start variables name pages that the tables do not map (`BootTables.StartValues`), and for a file of 1022 whole pages
  the write meant for the guard page clears the first entry of the page map (`BootTables.BootTranslation`). The mask in
  `DBVM UEFI/dbvmoffload.c:148` has one digit too few (`BootTables.FreeUefiAligned`); its caller passes page multiples,
  for which it makes no difference.
- A ptrace write does not look at the result of its full-word pokes. By `PtraceCopy.CountExact` the count it returns is
  the number of bytes written exactly when all of those words are mapped; `PtraceCopy.MissedWordIsCounted` reports 16
  bytes for 8. A read fetches its last bytes as a whole word: `PtraceCopy.ReadNeedsWholeWords` is the condition,
  `PtraceCopy.PageEndUnreadable` four mapped bytes that cannot be read.

## Model

| member | source | states |
|---|---|---|
| Paging.IndexRoundTrip | DBKKernel/memscan.c:20-39 | the four indexes are in range, name the page of the address, and give the address back exactly when it is canonical |
| Paging.AddressOfIndexes | DBKKernel/memscan.c:41-70 | the address built from any four indexes is the canonical address of the page they name, plus the offset; its upper 17 bits are all clear for a PML4 index below 256 and all set from there on |
| Paging.CanonicalBits | DBKKernel/memscan.c:41-70 | an address is canonical if and only if its upper 17 bits are equal |
| Paging.SelfMapCorrect | DBKKernel/memscan.c:92-134 | with a self-mapped PML4, each of the four computed addresses translates to exactly the table slot that the processor reads at that level for the same address, and faults exactly when a level above is absent |
| Leaves.LeavesPartition | DBKKernel/memscan.c:661-777 | the leaves that a walk should report are ascending and disjoint, aligned to their size, and cover exactly the translated pages of leaves that start below the limit |
| Leaves.CoverBelowLimit | DBKKernel/memscan.c:661-777 | for a limit that is a multiple of 512 GB they cover exactly the translated pages below it |
| AccessedPages.NextPageCorrect | DBKKernel/memscan.c:704-758 | one turn of the loop moves strictly forward to a boundary and passes over no leaf but the one it reports |
| AccessedPages.PageMonitor.Visit | DBKKernel/memscan.c:691-758 | one turn of the loop, reading entries through the self-map: it reports the leaf at the current address, if there is one, and moves to the next place |
| AccessedPages.PageMonitor.OnPresentPage | DBKKernel/memscan.c:661-662 | the callback that was passed in is applied to the leaf |
| AccessedPages.PageMonitor.WalkPagingLayout | DBKKernel/memscan.c:661-777 | the walk ends and applies the callback to exactly the leaves below the limit, in order, even when the callback writes the entries |
| AccessedRanges.AccessedRuns | DBKKernel/memscan.c:803-825 | storing the leaves of a walk gives descending, separated ranges that hold exactly the bytes of accessed leaves, with their number |
| AccessedRanges.RunsUnique | DBKKernel/memscan.c:803-825 | descending separated ranges are determined by the bytes they hold, so the list is the list of maximal runs |
| AccessedPages.PageMonitor.CleanAccessedList | DBKKernel/memscan.c:785-800 | list and size are emptied, nothing else changes |
| AccessedPages.PageMonitor.EnumAllAccessedPages | DBKKernel/memscan.c:827-844 | afterwards the list holds exactly the accessed bytes below 8 TB as separated descending ranges, the size is its length, and the result is its size in bytes as a 32-bit number |
| AccessedPages.NegativeSize | DBKKernel/memscan.c:846-849 | the unsigned division of the size argument gives the number of ranges that fit, none for a negative size |
| AccessedPages.PageMonitor.GetAccessedPageList | DBKKernel/memscan.c:846-872 | the longest prefix of the list whose 16-byte ranges fit in the size is copied, the rest of the buffer stays, its size is returned and the list is empty |
| AccessedRanges.MarkedMemory | DBKKernel/memscan.c:875-878 | marking the leaves of a walk clears the accessed bit of exactly their entries and leaves no accessed byte |
| AccessedPages.PageMonitor.MarkAllPagesAsNeverAccessed | DBKKernel/memscan.c:880-893 | only accessed bits of leaf entries below the limit change, every translation stays, and no byte below the limit is accessed any more |
| AccessedPages.PageMonitor.MarkThenEnumerate | DBKKernel/memscan.c:827-893 | clearing and then enumerating with no access in between finds nothing |
| RegionSearch.RegionMeaning | DBKKernel/memscan.c:897-1153 | what the page-by-page search finds, in terms of the translation alone: the protection tells whether the start is mapped and writable; up to the result all pages are unmapped, or all mapped read-only, or all mapped; the result is the first page that is not, or 0 |
| RegionSearch.ResumeExact | DBKKernel/memscan.c:1057-1081 | the search result is the page-by-page result if and only if it does not start inside a large page, or no page it steps over would have ended it |
| RegionSearch.InteriorExact | DBKKernel/memscan.c:1057-1081 | the same condition for a start inside a large page |
| RegionSearch.InteriorStartFails | DBKKernel/memscan.c:1057-1081 | a self-mapped table without 1 GB pages, and a start for which the search skips the right answer |
| RegionSearch.ReadInitiallyExact | DBKKernel/memscan.c:919-941 | that is the protection of the page if and only if it is not in a 1 GB page, or the words of that page that are read as entries happen to be present with the page's RW bit |
| RegionSearch.GiantStartFails | DBKKernel/memscan.c:919-941 | a self-mapped table with one writable, zero-filled 1 GB page, whose address 0 the routine takes for not present |
| RegionScan.AddressSpace.NextPresent | DBKKernel/memscan.c:955-971 | the inner loop finds the next present entry of the table or none |
| RegionScan.AddressSpace.ReadProtection | DBKKernel/memscan.c:919-941 | the initial protection is what the entries of the start page say, when every PDPT entry is taken for a table |
| RegionScan.AddressSpace.Pml4Section | DBKKernel/memscan.c:944-978 | the branch for an absent PML4 entry gives a result, or an address to go on from, that agrees with the search |
| RegionScan.AddressSpace.PageDirPtrSection | DBKKernel/memscan.c:981-1018 | the same for an absent page-directory-pointer entry |
| RegionScan.AddressSpace.PageDirSection | DBKKernel/memscan.c:1020-1055 | the same for an absent page-directory entry |
| RegionScan.AddressSpace.LargePageSection | DBKKernel/memscan.c:1057-1081 | the same for a 2 MB page |
| RegionScan.AddressSpace.PageTableSection | DBKKernel/memscan.c:1084-1123 | the same for an absent page-table entry |
| RegionScan.AddressSpace.PresentPageSection | DBKKernel/memscan.c:1125-1151 | the same for a present page |
| RegionScan.AddressSpace.FindFirstDifferentAddress | DBKKernel/memscan.c:897-1153 | the loop over all levels ends, reports the start's protection, and returns the page-by-page answer if and only if the condition of RegionSearch.ResumeExact holds |
| Topa.SlotsFit | DBKKernel/ultimap2.c:974-984 | for every positive buffer size the last slot and the last table fit in the allocated header, which has one table more than needed at most |
| Topa.FillSlots | DBKKernel/ultimap2.c:1236-1258 | the filling loop puts the buffer pages in order into the data slots, a link to the next table into every 512th slot, and every table reached into the lookup table |
| Topa.InterruptPlacement | DBKKernel/ultimap2.c:1262-1291 | INT is never on a link, never on the last slot unless it is the only one, and nowhere without interrupts |
| Topa.FirstInterruptIsLate | DBKKernel/ultimap2.c:1263-1277 | the first INT is exactly nine tenths of the way to the last slot, or one slot before that when there is the link |
| Topa.InterruptsExact | DBKKernel/ultimap2.c:1262-1291 | in a finished table STOP is on the last slot only, and without NoPMI the INT bits are on that slot f and on every second slot after it up to the second before the last, links left out; with it there are none |
| Topa.InterruptsKeepComing | DBKKernel/ultimap2.c:1280-1291 | from the first INT on, some INT follows within every four slots up to the end |
| Topa.MarkInterrupts | DBKKernel/ultimap2.c:1262-1291 | INT goes to exactly the slots named, whose place in numbers Topa.InterruptsExact gives, and no other field changes |
| Topa.SetupToPA | DBKKernel/ultimap2.c:1205-1293 | the whole array: every buffer page once and in order, links, STOP, INT, and a lookup table with exactly the tables in use |
| TraceOutput.StepDenotes | DBKKernel/ultimap2.c:1236-1258 | a byte the hardware outputs at a position with c bytes behind it goes to byte c of the buffer, and links are followed to the next table |
| TraceOutput.SizeOfPosition | DBKKernel/ultimap2.c:341-353 | the output offset is in the upper half of the saved mask, the index from bit 7 of the lower; the size formula applied to the saved registers gives the number of bytes behind the position |
| TraceOutput.SizeFormulaCorrect | DBKKernel/ultimap2.c:341-353 | over every run of the hardware: the output base is in the lookup table, the formula equals the number of bytes output, and byte k lies at byte k of the buffer |
| TraceOutput.NeverStuck | DBKKernel/ultimap2.c:1236-1262 | the hardware can always go on, and it stops exactly when the buffer is full |
| TraceBuffers.RunKeeps | DBKKernel/ultimap2.c:471-604 | every interleaving of hardware, interrupt, pause, resume, flusher, DPC and writer keeps the invariant |
| TraceBuffers.SafeForever | DBKKernel/ultimap2.c:471-604 | in every reachable state the buffer being saved is not the one traced into and its bytes are intact; buffer, MDL, header and lookup table are on one side; what was traced is the file, then the swapped-out bytes, then the current ones, unless a resume gave bytes up; a buffer is saved before it is swapped out again; and when nothing waits the file is all that was traced |
| TraceBuffers.WriterSavesAll | DBKKernel/ultimap2.c:326-397 | in every reachable state the writer knows the saved base and appends exactly the swapped-out bytes |
| TraceBuffers.MovesSwitch | DBKKernel/ultimap2.c:471-584 | the DPC's stages, with nothing between them, add up to one exchange, or to nothing when there is too little to flush |
| TraceBuffers.EarlyReturnExact | DBKKernel/ultimap2.c:500-584 | from every state of the invariant with the DPC queued: the whole DPC does nothing if and only if no interrupt is pending, the flush is not forced, the hardware is not at the link of its table, and of that table's 511 pages fewer than two are output; otherwise all that was output is swapped out, the pending interrupt is cleared, and tracing goes on as before |
| TraceBuffers.InterruptFlushes | DBKKernel/ultimap2.c:500-506 | after a profiling interrupt the next DPC swaps everything out, forced or not, whatever happens before it |
| TraceBuffers.OnlyResumeLoses | DBKKernel/ultimap2.c:1314-1321 | of all steps only a resume gives bytes up, namely those output since the last swap |
| TraceBuffers.PauseAndResume | DBKKernel/ultimap2.c:1297-1321 | whenever no DPC runs, a pause is possible and only turns tracing off, and a resume is possible and turns it on at the start of the buffer that was traced into before |
| TraceBuffers.ResumeLoses | DBKKernel/ultimap2.c:1314-1321 | from every start with tracing on, one byte output and a resume lose that byte |
| TraceBuffers.ResumeLosesExample | DBKKernel/ultimap2.c:1314-1321 | such a run over two one-page buffers |
| TraceBuffers.ForcedFlushPauses | DBKKernel/ultimap2.c:1297-1312 | a forced flush while tracing is off swaps everything out and leaves tracing off |
| TraceBuffers.PauseThenResume | DBKKernel/ultimap2.c:1297-1321 | after a pause and any run without a resume in which a queued DPC starts with its flush forced, whatever the other threads do before it, between its steps and after it, the next resume loses nothing |
| BufferSwitch.ProcessorInfo.ExchangeBuffers | DBKKernel/ultimap2.c:548-566 | the four pairs of fields are exchanged |
| BufferSwitch.ProcessorInfo.Restart | DBKKernel/ultimap2.c:573-582 | the registers point at the start of the other table, with the saved control value |
| BufferSwitch.ProcessorInfo.SwitchToPABuffer | DBKKernel/ultimap2.c:471-584 | the code does what the stages of the protocol do when nothing comes between them |
| OverlappingFlushes.LateSwapBytes | DBKKernel/ultimap2.c:326-604 | from every state that satisfies the invariant, a DPC queued at any moment, signalled or not, runs and the writer then finishes: the bytes in the file and in the buffers are the same as before, in the same order, if and only if the DPC returns early, or the bytes still to be saved are none, or, while they are being saved, equal to the current ones |
| OverlappingFlushes.TimelyKeeps | DBKKernel/ultimap2.c:586-604 | with any number of flushers, a run in which every queueing finds the event signalled ends in a state that satisfies the invariant |
| OverlappingFlushes.LateSwapLoses | DBKKernel/ultimap2.c:326-397 | an exchange while the writer is saving loses exactly the bytes it was told to save |
| OverlappingFlushes.OverlapLoses | DBKKernel/ultimap2.c:586-604 | a run of two flushers with forced flushes only, after which the first byte traced is neither in the file nor anywhere else |
| OverlappingFlushes.FlushSavesAll | DBKKernel/ultimap2.c:326-604 | in every reachable state with no DPC under way and the writer at rest, a flush can begin, and a forced one with nothing between its steps saves exactly what was output, in order, and leaves everything ready for the next |
| OverlappingFlushes.InsertServed | DBKKernel/ultimap2.c:586-604 | a DPC queued while it runs stays marked until it runs once more |
| BreakpointPlacement.PlaceBreakpoints | DBKKernel/debugger.c:1620-1702 | the nested loops place the active breakpoints, in slot order, into the registers the guest has free, in register order |
| BreakpointPlacement.ActiveSlots | DBKKernel/debugger.c:1630-1634 | the slots placed are the active ones, all of them, in slot order |
| BreakpointPlacement.PlacementCorrect | DBKKernel/debugger.c:1617-1742 | the k-th active slot is in the k-th register with neither enable bit set, as long as there are both: its address in the register, its type as the number in bits 16+4i and 17+4i of DR7, its length as the number in bits 18+4i and 19+4i; every other register and every other bit of DR7 but general detect is the guest's |
| BreakpointPlacement.GuestKept | DBKKernel/debugger.c:1617-1652 | registers that the guest has enabled locally or globally keep its address, enable bits, type and length |
| DebugRegisters.Int1Handler.FindOpcode | DBKKernel/debugger.c:920 | the scan ends at the first 0x0f |
| DebugRegisters.Int1Handler.DecodeGp | DBKKernel/debugger.c:924-936 | the general register is the ModRM field plus eight for every prefix that passes the test |
| DebugRegisters.Int1Handler.HandleAccess | DBKKernel/debugger.c:905-1230 | the in-place code does what the emulation function says, for every instruction |
| DebugRegisters.Int1Handler.HandleElsewhere | DBKKernel/debugger.c:1447-1481 | for a process that is not debugged: a hit in a register the guest has not enabled, or one of DBVM, goes no further, all else is passed on |
| DebugRegisters.Int1Handler.HandleInterrupt | DBKKernel/debugger.c:883-1481 | BD is tested first: a caught access in kernel code, the real DR6 for the guest in user code, and the rest as for any other exception |
| DebugRegisters.Int1Handler.CopyDr6 | DBKKernel/debugger.c:1591-1611 | the copy shows the hits the guest asked for and the step, task-switch and access bits, when the exception is passed on |
| DebugRegisters.Int1Handler.RunEpilogue | DBKKernel/debugger.c:1585-1742 | the epilogue for every result of the handler: registers, general detect and DR6 as loaded, and the copy that goes nowhere |
| DebugRegisters.Int1Handler.Int1 | DBKKernel/debugger.c:836-1742 | every debug exception of a process that is not debugged, a caught access or not, from entry to return is one exception of the model, and the result is 0 exactly for what is passed on, in terms of the bits of DR6 and DR7 |
| DebugRegisters.HandledExact | DBKKernel/debugger.c:883-1481 | for every state and every exception but an access from kernel code: the result is 1 if and only if DBVM caused it or some hit bit of DR6 belongs to a register with both enable bits of the guest's DR7 clear; RF is set in the second case only, and nothing else in the frame changes |
| DebugRegisters.OwnBreakpoint | DBKKernel/debugger.c:1460-1463 | a hit in DR0 while the guest has L0 set is passed on |
| DebugRegisters.NestedAccess | DBKKernel/debugger.c:908-912 | an access caught during the epilogue only sets RF; the registers are loaded again, and general detect is left as the guest has it |
| DebugRegisters.LoadedDr6 | DBKKernel/debugger.c:1591-1625 | when an exception is passed on, the DR6 loaded is the intended one if and only if the guest's DR6 lacks no hit it enabled, no access bit it should see, and has the same step and task-switch bits |
| DebugRegisters.StepNotShown | DBKKernel/debugger.c:1591-1625 | a single step of a process that is not debugged, with BD clear, is passed on, but neither DR6 nor the guest's later read of it has the step bit |
| DebugRegisters.StepNotShownExample | DBKKernel/debugger.c:1591-1625 | such a step with all registers zero |
| DebugRegisters.ExceptionExact | DBKKernel/debugger.c:883-1742 | for every DR6 and every state between exceptions: the registers the guest sees stay as they are if and only if BD is clear, or the code is user code and the DR6 is the guest's; the real registers keep its enabled ones and the breakpoints in any case |
| DebugRegisters.BdAfter | DBKKernel/debugger.c:1163-1182 | after a caught move with a plain encoding BD is set in the guest's DR6 if and only if the move wrote DR6 from a register with bit 13 set |
| DebugRegisters.BdMistaken | DBKKernel/debugger.c:887-1230 | after such a move every next exception in kernel code goes no further and moves rip past the first 0x0f and two more bytes |
| DebugRegisters.BdMistakenExample | DBKKernel/debugger.c:887-1230 | mov dr6, rax and a single step at nop; cpuid: rip goes from 3 to 7 |
| DebugRegisters.MoveExact | DBKKernel/debugger.c:883-1230 | for every move with any prefixes and any register: the guest sees what the instruction means if and only if the prefixes are clean and the register is not rsp, or the values involved agree anyway |
| DebugRegisters.MoveEmulated | DBKKernel/debugger.c:883-1230 | a caught move with clean prefixes, legacy ones among them, and a register other than rsp does to the guest's registers exactly what the instruction means, whatever breakpoints are loaded afterwards, and rip moves past it |
| DebugRegisters.MoveWrites | DBKKernel/debugger.c:1100-1211 | a caught write with a plain encoding, bit by bit: the guest sees DR7 with bit 10 set and bit 13 clear, DR6 with bit 13 clear, and every other bit as in the source; the real register holds the value as well when the handler is done |
| DebugRegisters.RunEmulated | DBKKernel/debugger.c:883-1742 | over every run of caught moves, other debug exceptions and changing breakpoints, a guest that lets no exception meet a set BD, harmless ones aside, sees the registers of a processor of its own |
| DebugRegisters.RunExact | DBKKernel/debugger.c:883-1742 | a guest sees the registers of a processor of its own after every part of a run if and only if it takes that care, which is told from its own registers alone |
| DebugRegisters.WithoutBd | DBKKernel/debugger.c:1163-1182 | a guest that never writes DR6 with bit 13 set takes that care in every run |
| DebugRegisters.ReadBack | DBKKernel/debugger.c:942-1211 | such a guest reads back later what it wrote to a debug register, bit by bit: bit 10 of DR7 set, bit 13 of DR6 and DR7 clear, every other bit as written, whatever else happens between |
| DebugRegisters.DecodedRegister | DBKKernel/debugger.c:928-936 | with any prefixes the right general register is picked if and only if none is 0x65, 0x67 or 0xf3 and no REX.B prefix stands anywhere but right before the opcode |
| DebugRegisters.DisplacedRex | DBKKernel/debugger.c:928-936 | in 41 66 0f 23 c0 the processor ignores the REX prefix, the code counts it |
| DebugRegisters.WriteFromRsp | DBKKernel/debugger.c:999-1088 | a move from rsp gives any debug register the value for zero; a move to rsp changes rip and the entry stub's note of its own stack pointer, nothing else |
| BreakHandoff.RunKeeps | DBKKernel/debugger.c:490-524 | every step of every thread and of the debugger keeps the invariant |
| BreakHandoff.HandoffSafe | DBKKernel/debugger.c:706-834 | over any number of threads and any run: at most one frame is published, the debugger sees the frame, registers, id and cause that the thread of its event brought with its break, the answers recorded are those the debugger stored, in order, and threads go on in order with the answer given to them |
| BreakHandoff.SetStateExact | DBKKernel/debugger.c:628-703 | in every reachable state in which the debugger has an event, a state it sets goes to the frame that the waiting thread brought, and no other step writes memory |
| BreakHandoff.ReturnsItsAnswer | DBKKernel/debugger.c:786-826 | the value the handler returns is the debugger's answer to this thread's event |
| BreakHandoff.NeverStuck | DBKKernel/debugger.c:706-834 | while a thread is in the handler, some thread can move or the debugger has something to do |
| CriticalSection.LockSafe | DBKKernel/DBKFunc.c:231-284 | when the cpunr field names no other CPU at the start: one CPU at most is inside, lockcount is its nesting depth, interrupts are off inside unless its own code turns them on, and the outermost csLeave ends with the interrupt flag as it was if and only if it was on or is still off |
| CriticalSection.CallEnds | DBKKernel/DBKFunc.c:231-284 | the owner's calls end, whatever other CPUs do between its steps: a nested csEnter within four steps of its own, an inner csLeave in five, the outermost in eight, and the lock is given up with the last of these and not before |
| CriticalSection.FreeLockTaken | DBKKernel/DBKFunc.c:231-245 | a CPU that waits has the lock with its next step when it is free |
| CriticalSection.TwoInside | DBKKernel/DBKFunc.c:247-266 | otherwise eight steps bring two CPUs inside |
| CriticalSection.ExclusiveIff | DBKKernel/DBKFunc.c:231-284 | mutual exclusion over all runs holds if and only if the field names no CPU at the start, or the only one there is |
| BlockPool.SetUpInv | DBKKernel/ultimap.c:690-718 | the set-up makes as many blocks available as the semaphore counts, at most 64 |
| BlockPool.RunKeeps | DBKKernel/ultimap.c:291-330 | every step of every producer and handler keeps count, ownership and contents |
| BlockPool.PoolSafe | DBKKernel/ultimap.c:127-330 | over every run: available blocks are the semaphore count plus producers about to pick plus handlers about to release, every producer past the semaphore finds a block, no block is in two hands, a release never exceeds the limit, and every announced datum is read once |
| BlockPool.AnnouncedExact | DBKKernel/ultimap.c:291-330 | in every reachable state a producer's last step announces the datum that its own last interrupt brought, and no other step announces anything |
| BlockPool.NeverStuck | DBKKernel/ultimap.c:127-330 | in every reachable state with a producer on its way or a handler with a block, a producer or handler can go on or a ready block can be fetched |
| BootTables.FreeWindowsPage | DBKKernel/vmxoffload.c:373-385 | the first reserved page lies two pages behind the last whole page of the file |
| BootTables.LayoutFits | DBKKernel/vmxoffload.c:342-397 | the reserved pages lie in the image if and only if the file is smaller than 1001 pages |
| BootTables.LayoutFitsUefi | DBVM UEFI/dbvmoffload.c:148-161 | the same for the UEFI version: images of at most 1001 pages |
| BootTables.FreeUefiAligned | DBVM UEFI/dbvmoffload.c:148 | the mask gives a page address if and only if the image ends less than 256 bytes past one |
| BootTables.FreeUefiPage | DBVM UEFI/dbvmoffload.c:148 | for the page multiples that the caller passes it gives the page behind the image |
| BootTables.Loader.FillDirectory | DBKKernel/vmxoffload.c:405-435 | the upper three tables get exactly their six entries |
| BootTables.Loader.FillPageTables | DBKKernel/vmxoffload.c:438-443 | the loop fills its stretch of the two page tables with the frames of the image and touches nothing else |
| BootTables.Loader.TakeOutGuard | DBKKernel/vmxoffload.c:446-447 | the present bit of the entry at the stack's page number is cleared, wherever that entry lies, the others stay |
| BootTables.Loader.InitializeDBVM | DBKKernel/vmxoffload.c:373-447 | for every file size the code accepts, the Windows version builds the tables and changes no other memory, and its start variables name page map, stack and GDT through the new tables if and only if the file is below 1001 pages |
| BootTables.Loader.ZeroMem | DBVM UEFI/dbvmoffload.c:160 | the reserved pages are cleared, other memory stays |
| BootTables.Loader.InitializeUefi | DBVM UEFI/dbvmoffload.c:143-242 | the same for the UEFI version over physical memory, with images of at most 1001 pages |
| BootTables.BootTranslation | DBKKernel/vmxoffload.c:405-447 | the tables map every page below 4 MB to itself, every page from 4 to 8 MB to the matching page of the image, save the guard page in the Windows version, and nothing else; and nothing at all when the stack begins right behind the image |
| BootTables.BootWritable | DBVM UEFI/dbvmoffload.c:187-197 | the low mapping is writable in the UEFI version only, the image in both; the user bit is set in the directory entries of the low mapping of the UEFI version and nowhere else |
| BootTables.StartValues | DBKKernel/vmxoffload.c:637-640 | pagedirlvl4 translates to the page map handed to the processor and nextstack to 64 bytes below the end of the last reserved stack page, if and only if the reserved pages lie in the image |
| TemporaryTables.TemporaryPagingSetup.Build | DBKKernel/vmxoffload.c:549-566 | the loop makes every entry of a table point to the next table, and of the last one to the entry page; memory outside the four tables stays |
| TemporaryTables.EveryPageEnters | DBKKernel/vmxoffload.c:544-566 | every page maps to the entry page, read-only at every level |
| PtraceCopy.Target.WriteProcessMemory | Cheat Engine/ceserver/api.c:2969-3013 | for every size and mapping: exactly the requested bytes in mapped words change, and the count returned is the size, or without the last one to eight bytes if the word that holds them is not mapped |
| PtraceCopy.Target.WriteTail | Cheat Engine/ceserver/api.c:2989-3013 | the last word is merged with the old one, so bytes behind the request stay |
| PtraceCopy.Target.MergeBytes | Cheat Engine/ceserver/api.c:3002-3003 | the new bytes stand in front of the rest of the old word |
| PtraceCopy.Target.ReadProcessMemory | Cheat Engine/ceserver/api.c:3416-3461 | the bytes up to the first word that is not mapped are read, and the rest of the buffer stays |
| PtraceCopy.RoundTrip | Cheat Engine/ceserver/api.c:2969-3013 | when every poke succeeds only the requested bytes change, and a following read returns all of them |
| PtraceCopy.CountExact | Cheat Engine/ceserver/api.c:2976-3013 | the count a write returns is the number of bytes it wrote if and only if every full word of its loop is mapped |
| PtraceCopy.MissedWordIsCounted | Cheat Engine/ceserver/api.c:2976-2985 | 16 bytes written across the start of a mapped page behind an unmapped one are all reported, 8 are written |
| PtraceCopy.ReadNeedsWholeWords | Cheat Engine/ceserver/api.c:3425-3461 | a read is complete if and only if every byte up to its size, rounded up to whole words, is mapped |
| PtraceCopy.PageEndUnreadable | Cheat Engine/ceserver/api.c:3447-3461 | the last 4 bytes of a mapped page before an unmapped one cannot be read at all |
| RegionList.List.AddToRegionList | Cheat Engine/ceserver/api.c:3534-3556 | the entry is appended, earlier ones stay, and a list that is full is doubled, so there is always room |
| RegionList.List.ListWindow | Cheat Engine/ceserver/api.c:3697-3726 | one window of page-map entries is turned into its runs of present pages |
| RegionList.List.ListPresentPages | Cheat Engine/ceserver/api.c:3671-3731 | the regions added for a block are ascending, disjoint runs that cannot be extended within their window, and they hold exactly its present pages |
| RegionList.SharedPage | Cheat Engine/ceserver/api.c:3680-3731 | such runs that share a page are the same, so the page map alone decides the list |

## Left out

- RegionScan.AddressSpace.FindFirstDifferentAddress: requires that no page-directory-pointer entry maps 1 GB. The code
  never reads that bit and walks through the contents of such a page as if they were tables; only its first reading is
  modelled for that case.
- AccessedPages.PageMonitor.WalkPagingLayout: requires bit 7 of PML4 entries to be clear, as the processor does, and a
  limit within the 48-bit address space; the walk itself sets accessed bits by reading tables through the self-map,
  which the model does not show.
- Paging.SelfMapCorrect: how the page-table base is found (`DBKKernel/memscan.c:621-658`) is not modelled; the self-map
  slot is a parameter.
- Page tables that other CPUs change during a walk or a search, and the exception handlers that catch the faults this
  causes.
- AccessedPages.PageMonitor.CleanAccessedList: the linked list is a sequence, so allocation and freeing of its nodes are
  not shown.
- Topa.SetupToPA: buffers of 4 GB and more, the allocation of header and buffer, and processors that support a single
  region.
- TraceBuffers.SafeForever: flush calls do not overlap there, `OverlappingFlushes` says what happens when they do. In
  both, tracing is active and goes to a file: the shutdown path, the mode that maps buffers into a process, file errors,
  and writes of 4 GB and more are not modelled.
- DebugRegisters.Int1Handler.Int1: exceptions come from processes that are not debugged; breaks of the debugged process
  (`BreakHandoff` has their hand-off), the stepping mode, moving to another CPU while a thread waits, and unloading are
  not modelled. Registers read back as written: the reserved bits that the processor forces are not shown.
- BreakHandoff.HandoffSafe: assumes what `DBKKernel/debugger.c:514-516` asks for, one continue for each event taken.
- CriticalSection.LockSafe: no interrupt routine of the same CPU runs inside csEnter or csLeave, and code in the section
  sets the interrupt flag only between calls; reads and writes take effect in program order.
- BlockPool.PoolSafe: one continue for each block delivered; the file mode, allocation failures and tearing the pool
  down are not modelled.
- BootTables.Loader.InitializeDBVM: for a file of 1001 pages and more the code writes behind the memory it has
  allocated; the pages there are taken to be mapped to other frames and to be zero, as the reserved pages inside are
  made by the code. Loading the file, the GDT contents, the entry code and the remaining start variables are not
  modelled.
- PtraceCopy.Target.WriteProcessMemory: finding and stopping the target thread, and the other ways of reading and
  writing memory, are not modelled.
- RegionList.List.ListPresentPages: reading smaps and the filters in front; page-map reads succeed and bounds are
  page-aligned.
- Setting and clearing a breakpoint slot and copying a frame into the debugger's record of it: plain field assignments.
- Request dispatch, driver loading, process watching, handle protection, code injection, networking, signature checks,
  and the wrappers around hypervisor calls: they move arguments to kernel or system calls.
- The server's wait and continue machine, thread list, handle table and pipe server: no invariant of whole runs is
  decided by that code.
- Everything outside AMD64.
