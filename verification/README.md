# Verified model of the emulator's memory machine and of the agent's JSON

This project models two parts of the repository in Dafny and proves properties of them.

**The processor's memory and trap machine** (`lib/src/cpu`). `Translate` is the Sv39 walk with its in-place A and D writes,
`Csr` the RV64 control registers, traps and returns, `Cpu` the executor with its three direct-mapped TLBs, its code page and
its cache of decoded pages, all as functions on states. `Uncached` is the same machine with none of these caches: it walks
the page tables for every access and decodes every instruction from the word it fetches. `Interpreter` is what drives either
of them: one instruction on machine, registers and program counter, and the loop with its interrupts, faults and cycle count. An
instruction left to the classic interpreter is any function of the registers, the program counter and what it has read so far, to its
next access or its end; device registers and the clock may answer differently each time they are looked at.

The main theorem is that the caches cannot be seen. `LoopTheorems.SessionRefines` says it for whole sessions of the dispatch
loop, `FencedRuns.FencedRefines` for any run of loads, stores, fetches, dispatches, register writes, traps, returns, fences and
device writes. The condition is put on the uncached machine alone (`Fences`): a page becomes dirty when a store or a device
changes, in more than A and D, a word that its walk reads while some access to it is allowed; `sfence.vma` of the page or any
flush makes it clean again; a run is polite if no access uses a dirty page, no instruction lies at an odd address, and none lies
in a page that holds a leaf marked A or D since the last `fence.i`. Mapping a page that was not mapped needs no fence.
`PagedRuns` has two families of guests that are polite by construction: those that leave their page tables alone, and those
that never page. `Unfenced` has runs that are not polite, on which the two machines disagree.

Behind it stands an invariant of every reachable state, with two components that are history and influence no answer: `stale`
holds the entries whose walk has been damaged since they were filled, `tainted` the decoded pages an A or D write has hit. An
entry that is not stale says what a walk would say, a slot of a page that is not tainted what its bytes decode to.
`CpuRuns.RunRefines` is the agreement in these terms.

What the functions themselves mean is said again in numbers, in words that use none of them. `OpLaws` and `AccessLaws` say what
loads, stores, fetches and a few register ops do, from packed micro-op words and the bytes of memory, and which causes faults
report; `CsrFields` and `CsrWrites` read the registers digit by digit, as the RISC-V Privileged Architecture 1.12 lays them out:
where translation gets its context, where traps go and what they and the returns leave, which interrupts are live, what writes
change; `SystemLaws` says what the system instructions do.

`CpuState`, `CpuHandlers`, `MmuClass`, `PredecodeClass`, `GuestMemory`, `CpuExecutor` and `DispatchLoop` are the mutable objects
of the source, with arrays for RAM, TLBs, registers and decoded pages; each method is proved to do to the object what the
function does to the value. `DispatchLoop.Rv64.Execute` makes of the object exactly what `Interpreter.Executed` makes of the hart
it stands for.

**The agent's JSON writer, parser and chat format** (`agentos/src`). `Grammar` says what the recursive-descent parser
accepts, with its leniencies; the class `Parser` is proved against it, and so are the growable buffer, the escaper and the
request builders. The main theorems say that whatever text goes into a conversation, the request built from it parses to
exactly the intended tree. `Render` writes documents from literal texts, in every layout and with every kind of escape, and proves
that they are read as what they mean, and `DecodeLaws` says what a tool call decodes to, from its members and from its text.

Allocation may fail at any point: an `Allocator` grants or refuses each request by a schedule that is fixed and unknown. What the
parser returns is right whatever the schedule, and so is what the builders build; that they succeed is promised when no request is
refused and no size overflows.

Where the documentation and the code disagree the model follows the code:

- `lib/src/cpu/cpu_executor.dart` says that the cycle accounting of the predecoded loop mirrors that of the classic one exactly. An
  instruction whose second half cannot be fetched costs one cycle more when the page of its first half is installed
  (`CycleAccounting.CyclesDiffer`), and this is the only difference (`LoopTheorems.InstructionTwins`).
- `sfence.vma` with an address forgets four kilobytes, also where a larger leaf translates the address
  (`Unfenced.NarrowFenceDiffers`); section 4.2.1 of the RISC-V Privileged Architecture 1.12 has it cover whatever that leaf translates.
  `FenceSpan.FenceCovers` says exactly when it does: always for a leaf of the last level.
- `agentos/include/chat.h` says the next request replays an assistant message exactly. A call without a name is
  replayed as a call of `shell`, a shell call without arguments as one with `{}`, and text that is not UTF-8 is repaired;
  `Replay.ReplayFaithful` gives the exact condition for every call, `NamelessCallChanges` and `StrayIdChanges` instances. Behind
  it stands that parsing commutes with repair (`MendedText.RepairedDocument`).
- `lib/src/cpu/predecode.dart` says that only `fence.i` invalidates decoded pages; stores and device writes drop them too.
- Traps save, and returns restore, the enable bit numbered by the interrupted level, so the machine-level enable bit itself
  is lost below machine level (`MieIsLost`); what is restored is the set of interrupts that count as enabled.
- The interrupt taken is the lowest pending one, enabled or not (`LowestPendingTaken`, `DisabledInterruptTaken`).
- At an odd program counter, which a return can leave, the loop runs the instruction below it (`OddTurn`, `OddPcDiffers`).

## Model

| member | source | states |
|---|---|---|
| LoopTheorems.ExecuteRefines | lib/src/cpu/cpu_executor.dart:2059-2630 | the predecoded loop over TLBs, code page and decoded pages against the classic loop without caches: as long as the guest is polite both leave the same memory, control registers, integer and floating-point registers, reservation, trap value and sleep flag for the same reason, and the same counter but for one cycle when the second half of an instruction could not be fetched |
| LoopTheorems.SessionRefines | lib/src/machine/riscv_machine.dart:275-287 | the same for whole sessions of step calls with device writes and interrupt lines between them, failing second halves included: once the machine without caches counts the cycles the other one counted on top for them, state, registers, counter and the reason of every return are the same |
| LoopTheorems.NothingCharged | lib/src/machine/riscv_machine.dart:275-287 | a session in which no second half fails is charged nothing |
| LoopTheorems.SessionFromReset | lib/src/machine/riscv_machine.dart:275-287 | the same from reset, component by component, and with nothing charged where no second half fails |
| LoopTheorems.InstructionTwins | lib/src/cpu/cpu_executor.dart:2088-2622 | one instruction, fetched, dispatched and performed, or faulting, ends alike on both machines, except that a second half that cannot be fetched costs one cycle more exactly where the page of the first half was installed |
| LoopTheorems.PlainTwins | lib/src/cpu/cpu_executor.dart:330-413 | an instruction of the classic interpreter that computes from registers, program counter, float status, reservation and what it has read, and loads and stores on the way, ends alike on both machines |
| LoopTheorems.InstalledFault | lib/src/cpu/cpu_executor.dart:297-317 | at an even address of an installed page a fetch can fault at its second half only |
| CycleAccounting.CyclesDiffer | lib/src/cpu/cpu_executor.dart:2065 | a state one fetch after reset in which one cycle given to the loops counts two in the predecoded one and one in the classic one, which its documentation says it mirrors exactly |
| TrapTheorems.FaultPrecise | lib/src/cpu/cpu_executor.dart:319-328 | a faulting instruction, micro-op or classic, leaves every integer and floating-point register as it was, saves its own address, cause and value where its cause is delegated and nowhere else, and moves the counter by its charge |
| TrapTheorems.TrapSaves | lib/src/cpu/exception.dart:9-24 | a trap saves the address, cause and value on the side the cause is delegated to, keeps the other side and everything outside the machine, and goes on at its vector |
| TrapTheorems.FaultKeepsRegisters | lib/src/cpu/cpu_executor.dart:2421-2622 | no fetch, access, decoding or register instruction that faults has written a register |
| TrapTheorems.PlainKeeps | lib/src/cpu/cpu_executor.dart:966-1038 | a classic instruction that faults at any of its accesses has written no register, even if an earlier access succeeded |
| TrapTheorems.CounterBounds | lib/src/cpu/cpu_executor.dart:2067-2630 | the loop comes back with the counter at least one on and at most one past the cycles it was given |
| FencedRuns.FencedRefines | lib/src/cpu/cpu_executor.dart:1580-1861 | over every run of events from a state that satisfies the invariant the cached machine answers exactly what the uncached one answers and ends with the same memory and registers, if the uncached run is polite: no access uses a page whose walk was damaged, while mapped, and not fenced since, and no instruction lies at an odd address or in a page that holds a leaf marked since the last fence.i |
| FencedRuns.FencedFromReset | lib/src/cpu/cpu_executor.dart:1580-1861 | the same from reset on, for guests that map, unmap and remap |
| FencedRuns.StepLinked | lib/src/cpu/cpu_executor.dart:1580-1861 | one polite event uses no stale entry and no slot of a page hit by an A/D write, and whatever it makes stale the history of the uncached run calls dirty |
| PagedRuns.PagedRefines | lib/src/cpu/cpu_executor.dart:1580-1861 | a paging guest that leaves its page tables alone, no store and no device writing a word that some walk reads and no instruction lying among the leaves, needs no fence: the agreement holds from reset on |
| PagedRuns.FlatRefines | lib/src/cpu/cpu_executor.dart:1580-1861 | for a guest that never pages and executes at even addresses the agreement holds from reset on, self-modifying code and DMA included |
| PagedRuns.TameStep | lib/src/cpu/cpu_executor.dart:1580-1861 | an event that leaves the page tables alone is polite and leaves nothing to fence |
| Unfenced.UnfencedHitDiffers | lib/src/cpu/mmu.dart:21-28 | a run without a fence on which the two machines disagree: the cached load outlives its leaf |
| Unfenced.NarrowFenceDiffers | lib/src/cpu/mmu.dart:21-28 | the same run with an sfence.vma of another page of the same superpage: it forgets four kilobytes, and the cached load still outlives its leaf |
| FenceSpan.FenceCovers | lib/src/cpu/mmu.dart:21-28 | sfence.vma with an address forgets everything of the leaf that translates the address if and only if nothing was cached of the other pages of that leaf |
| FenceSpan.SmallLeafCovered | lib/src/cpu/mmu.dart:21-28 | so a leaf of the last level is always covered |
| FenceSpan.WideLeafUncovered | lib/src/cpu/mmu.dart:21-28 | a larger leaf is not, once another page of it has been read |
| FenceSpan.SweepCovers | lib/src/cpu/mmu.dart:21-28 | one fence for every page of a leaf covers it |
| CpuRuns.RunRefines | lib/src/cpu/cpu_executor.dart:1580-1666 | over every run from a state that satisfies the invariant, if instructions are executed at even addresses and no entry is used whose walk was damaged since it was filled, and no slot of a page hit by an A/D write since it was decoded, the two machines answer alike and end with the same memory and registers; in any case the invariant is kept and nothing crashes |
| CpuRuns.StepRefines | lib/src/cpu/cpu_executor.dart:1580-1666 | one event of any kind keeps the invariant and never crashes; at an even address, unless a stale entry or a tainted slot has been used, the uncached machine does the same |
| CpuRuns.DecodedNeverStale | lib/src/cpu/cpu_executor.dart:65-109 | after every run no decoded page has a write-TLB entry, an installed code page is decoded, and every decoded slot says what the bytes now in RAM decode to, unless an A/D write hit its page |
| CpuRuns.ContextStamp | lib/src/cpu/csr.dart:109-190 | after every run every valid entry was filled under the current satp, SUM, MXR and effective privilege, whatever happened to the page tables |
| CpuRuns.WriteEntryIsDirty | lib/src/cpu/cpu_executor.dart:1805-1814 | after every run a write-TLB entry whose walk was not damaged since it was filled implies A and D are set in its leaf |
| CpuRuns.FencePageExact | lib/src/cpu/mmu.dart:21-28 | sfence.vma with an address leaves no translation of the page in any table nor as the code page, and keeps every other entry |
| CpuRuns.ResetInv | lib/src/cpu/cpu_state.dart:123-137 | the state after reset satisfies the invariant |
| CpuRuns.ResetCsr | lib/src/cpu/cpu_executor.dart:1970-1985 | the mstatus and satp that reset leaves satisfy the register invariant |
| CpuRuns.DmaFollows | lib/src/cpu/cpu_executor.dart:93-101 | a device write followed by the drop of every page it covers leaves no outdated decoded page and exactly the bytes written |
| CpuRuns.DropsInv | lib/src/cpu/cpu_executor.dart:93-109 | dropping a stretch of pages leaves none of them decoded, keeps the others and never leaves the dropped page installed |
| CpuRuns.CsrStep | lib/src/cpu/csr.dart:58-190 | a register write, trap or return that does not flush leaves the translation context of data and fetches as it was |
| FetchTheorems.TurnFollows | lib/src/cpu/cpu_executor.dart:2101-2120 | a turn of the predecoded loop at an even address dispatches what the instruction word fetched afresh decodes to, faults as that fetch faults, and leaves an uncommon word to the classic interpreter, unless a stale entry or a tainted slot has been used |
| FetchTheorems.OddTurn | lib/src/cpu/cpu_executor.dart:2116-2120 | at an odd address the loop dispatches the instruction at the even address below if it is a common one, and otherwise answers as a fetch from the odd address itself, unless a stale entry or a tainted slot has been used |
| OddExecution.OddPcDiffers | lib/src/cpu/cpu_executor.dart:2102-2120 | on two c.addi x5, 1 in a row, with the program counter odd and one fetch after reset, the loop adds one to x5 where the classic interpreter jumps through x10 |
| FetchTheorems.FetchInsnFollows | lib/src/cpu/cpu_executor.dart:171-191 | a fetch through the installed page, the code TLB or the slow path yields the word, or the fault, that a fresh translation yields, unless a stale entry or a tainted slot has been used |
| FetchTheorems.FetchAndCacheFollows | lib/src/cpu/cpu_executor.dart:209-238 | the same for the slow path that installs the page, with the same condition; on success the page is installed |
| FetchTheorems.FetchSlowFollows | lib/src/cpu/cpu_executor.dart:248-295 | the slow fetch agrees with the uncached fetch and fills the entry its page belongs to |
| FetchTheorems.CrossPageFollows | lib/src/cpu/cpu_executor.dart:297-317 | the second half of an instruction that crosses a page agrees with the uncached fetch |
| FetchTheorems.FetchAgain | lib/src/cpu/cpu_executor.dart:248-317 | fetching an instruction a second time yields it again and writes nothing more |
| FetchTheorems.XlateFirstBytes | lib/src/cpu/mmu.dart:300-322 | a translation changes no byte but the first of an aligned page-table word |
| FetchTheorems.SlotIsDecode | lib/src/cpu/predecode.dart:179-197 | a decoded slot is the decode of the word fetched at the same even address, and the fallback exactly when the instruction goes on in the next page |
| FetchTheorems.SlotDispatched | lib/src/cpu/cpu_executor.dart:2116-2120 | dispatching from the installed page never misses, keeps the invariant, and yields the decode of the bytes now in RAM unless an A/D write hit the page |
| CpuRefinement.HitIsFresh | lib/src/cpu/cpu_executor.dart:1587-1590 | on a hit a fresh translation would not fault, would write nothing, and finds the same host byte |
| CpuRefinement.ReadAlignedFollows | lib/src/cpu/cpu_executor.dart:1581-1666 | an aligned load through the read TLB agrees with the uncached one, unless a stale entry or a tainted slot has been used |
| CpuRefinement.LoadFollows | lib/src/cpu/cpu_executor.dart:1638-1697 | so does a load of any size and alignment, with the same condition |
| CpuRefinement.WriteAlignedFollows | lib/src/cpu/cpu_executor.dart:1734-1828 | an aligned store through the write TLB keeps the invariant, so that no decoded page is left outdated, and agrees with the uncached one with the same condition |
| CpuRefinement.StoreFollows | lib/src/cpu/cpu_executor.dart:1798-1838 | so does a store of any size and alignment, faults half way included, with the same condition |
| CpuRefinement.EntryAt | lib/src/cpu/cpu_executor.dart:1598-1604 | a TLB hit means an aligned access to the entry page, whose host bytes exist |
| CpuInvariant.TranslatedInv | lib/src/cpu/mmu.dart:224-257 | a translation with its A/D write keeps the whole invariant |
| CpuInvariant.InstallInv | lib/src/cpu/cpu_executor.dart:226-238 | installing a code page keeps the invariant: the write TLB is purged of the page and an evicted page leaves nothing behind |
| CpuInvariant.DropInv | lib/src/cpu/cpu_executor.dart:103-109 | dropping a decoded page keeps the invariant and uninstalls it if it was the code page |
| CpuInvariant.StoredInv | lib/src/cpu/cpu_executor.dart:1863-1876 | a store into bytes that are not decoded keeps the invariant |
| CpuInvariant.FlushInv | lib/src/cpu/cpu_state.dart:139-146 | a context change with a flush, or without one when the context stays, keeps the invariant |
| CpuInvariant.FenceVmaInv | lib/src/cpu/cpu_executor.dart:1324-1331 | a targeted fence keeps the invariant |
| CpuInvariant.FenceIInv | lib/src/cpu/cpu_executor.dart:69-73 | fence.i keeps the invariant |
| CpuInvariant.FilledLeads | lib/src/cpu/cpu_executor.dart:1699-1710 | the entry filled after a translation leads where a walk of its page leads, and its leaf needs no update |
| CpuInvariant.WholePage | lib/src/cpu/mmu.dart:324-329 | where one address of a page leads, the whole page leads, at the same offsets |
| OpLaws.LoadMeaning | lib/src/cpu/cpu_executor.dart:2421-2507 | each of the seven loads, from its packed word on: the register gets the number the bytes spell, lowest first; lb, lh and lw of a number whose top digit is set get it less two to their width, modulo two to the 64; the next pc is two or four on and no other register changes |
| OpLaws.StoreMeaning | lib/src/cpu/cpu_executor.dart:2523-2573 | each of the four stores: the bytes at the address spell the register modulo two to their width, nothing else changes but the leaves the store went through, and the next pc follows |
| OpLaws.AddiMeaning | lib/src/cpu/cpu_executor.dart:2133-2137 | addi: the sum with the signed immediate modulo two to the 64, in the one register named |
| OpLaws.AddMeaning | lib/src/cpu/cpu_executor.dart:2139-2143 | add: the sum of the two registers modulo two to the 64 |
| OpLaws.BeqMeaning | lib/src/cpu/cpu_executor.dart:2373-2378 | beq: the next pc is the target exactly when the registers hold the same number |
| OpLaws.NopMeaning | lib/src/cpu/cpu_executor.dart:2130-2131 | the op that does nothing but go on |
| OpLaws.OtherMeaning | lib/src/cpu/cpu_executor.dart:2121-2420 | any other common op: its arm's value in the register named unless x0, and its arm's next pc |
| OpLaws.Unpacked | lib/src/cpu/predecode.dart:164-171 | op, registers and size read back from a packed micro-op word are those packed |
| OpLaws.ClassicReads | lib/src/cpu/cpu_executor.dart:1580-1636 | a load of a classic instruction: it goes on with a word whose low bytes are those of memory, lowest first, and the reservation it asked for |
| OpLaws.ClassicWrites | lib/src/cpu/cpu_executor.dart:1733-1796 | a store of a classic instruction: the bytes at the address spell the value modulo two to its width, and it goes on |
| AccessLaws.FetchMeaning | lib/src/cpu/cpu_executor.dart:248-317 | a fetch at an even address yields the number of its two bytes where that is not 3 modulo 4, else the number of its four bytes, across a page end as well; the op dispatched is what the decoder makes of that number, and the fallback at a page end |
| AccessLaws.LoadFaults | lib/src/cpu/mmu.dart:342-353 | which aligned part of a load faults, and its cause: 13 for a page fault, 5 for an access fault |
| AccessLaws.StoreFaults | lib/src/cpu/mmu.dart:342-353 | a store that faults does so with 15 or 7, at its address, or, unaligned, at its first byte that does not translate |
| AccessLaws.FetchFaults | lib/src/cpu/mmu.dart:342-353 | a fetch faults with 12, or with 1 for an access fault or outside RAM, at the pc or at the next page |
| AccessLaws.AccessTraps | lib/src/cpu/cpu_executor.dart:319-328 | a load or store op whose access traps ends with that cause and address and changes no register |
| AccessLaws.FetchTraps | lib/src/cpu/cpu_executor.dart:319-328 | so does a fetch that traps |
| AccessLaws.WordMeaning | lib/src/cpu/mmu.dart:275-282 | a page-table word is the number its eight bytes spell, lowest first, exactly where they are RAM |
| CsrFields.TranslationIsManual | lib/src/cpu/mmu.dart:207-257 | translation on the register file, with SUM, MXR, MPRV and MPP taken from mstatus and mode and root from satp by division and remainder: the address itself at machine level and in mode 0, where MPRV lends no lower level; in mode 8 the walk of the manual exactly as `Superpage.WalkIsManual` has it; mode 9 not implemented, any other an access fault |
| CsrFields.ContextIsManual | lib/src/cpu/mmu.dart:30-38 | the context of data accesses and of fetches is the one those digits give |
| CsrFields.TrapGoes | lib/src/cpu/exception.dart:9-24 | a trap goes to the supervisor exactly from user or supervisor level and when the digit of its cause is one in medeleg for exceptions and in mideleg for interrupts; otherwise to machine level |
| CsrFields.TrapIgnores | lib/src/cpu/exception.dart:14-17 | an exception traps alike whatever mideleg holds, an interrupt whatever medeleg holds |
| CsrFields.TrapLeaves | lib/src/cpu/exception.dart:78-112 | every register after a trap: address, cause and value saved, the vector as pc, the level in MPP or SPP, its enable digit in MPIE or SPIE, MIE or SIE off, every other digit of mstatus and every other register as it was |
| CsrFields.ReturnsLeave | lib/src/cpu/exception.dart:26-48 | every register after mret and sret: level and pc from MPP and mepc, or SPP and sepc, MPIE or SPIE in the enable digit of that level and then on, MPP or SPP clear, the rest as it was |
| CsrFields.PendingIsLive | lib/src/cpu/exception.dart:50-69 | an interrupt is pending exactly when some number has its digit in mip and mie and is taken at the level: if not delegated, below machine level or with MIE; if delegated, at user level or at supervisor level with SIE |
| CsrFields.TakenNumber | lib/src/cpu/exception.dart:71-76 | the cause of the interrupt taken has its top digit set and is otherwise the lowest number whose digit is set in mip and mie |
| CsrWrites.MstatusWrites | lib/src/cpu/csr.dart:167-190 | a write of mstatus, digit by digit: 0, 1, 3 to 5, 7, 8, 11 to 14 and 17 to 19 are the value, UXL and SXL too when they name a width, and everything else stays |
| CsrWrites.SstatusWrites | lib/src/cpu/csr.dart:90-93 | a write of sstatus: digits 0, 1, 4, 5, 8, 13, 14, 18 and 19 are the value, UXL too when it names a width, and everything else stays |
| CsrWrites.SatpWrites | lib/src/cpu/csr.dart:109-116 | satp takes a value with mode 0 or 8 whole and ignores any other |
| CsrWrites.FlushesExact | lib/src/cpu/csr.dart:109-190 | which writes empty the tables: of satp with a mode it takes, of mstatus where MPRV, SUM or MXR differ, or MPP while MPRV is on, and of sstatus where SUM or MXR differ |
| CsrWrites.NeedsLevel | lib/src/cpu/csr.dart:246-251 | a register whose number asks for a higher level is neither read nor written |
| CsrWrites.CountersRead | lib/src/cpu/csr.dart:197-222 | who may read cycle, time and instret, by the digits of mcounteren and scounteren, and what they show |
| SystemLaws.CsrInsnLeaves | lib/src/cpu/cpu_executor.dart:1341-1384 | csrrw, csrrs and csrrc, register or immediate: the old value in the destination unless it is x0; the register handed the operand, the digits of either, or the old digits without the operand; not written when csrrs or csrrc name x0 or zero; the next instruction |
| SystemLaws.CsrInsnRefused | lib/src/cpu/cpu_executor.dart:1341-1384 | on a register that cannot be read: an illegal instruction, its word as trap value, nothing written |
| SystemLaws.SystemCauses | lib/src/cpu/cpu_executor.dart:1247-1294 | ecall reports 8, 9 or 11 by the level, ebreak 3; mret below machine level, sret, wfi and the address fences at user level are illegal |
| SystemLaws.SystemReturns | lib/src/cpu/cpu_executor.dart:1247-1294 | mret and sret with sufficient level go where the return leaves them |
| SystemLaws.SystemSleeps | lib/src/cpu/cpu_executor.dart:1299-1311 | wfi sleeps exactly when no digit is set in both mip and mie |
| SystemLaws.SystemFences | lib/src/cpu/cpu_executor.dart:1313-1333 | the fences: of all pages, of the page whose address a register holds, of code |
| SystemLaws.FinishLeaves | lib/src/cpu/cpu_executor.dart:1459-1493 | the end of a plain instruction: its register unless x0, the reservation, the floating-point register, the flags and the pc |
| SystemLaws.FlagsAdded | lib/src/cpu/cpu_executor.dart:1459-1493 | the flags of a floating-point instruction are added digit by digit, and FS is 3 when it wrote a register |
| SystemLaws.MachineSteps | lib/src/machine/riscv_machine.dart:275-287 | a step leaves a sleeping hart asleep exactly while no digit is set in both mip and mie, and otherwise gives it its cycles awake |
| SystemLaws.LoopInterrupts | lib/src/cpu/cpu_executor.dart:2092-2099 | the loop leaves for the trap of the lowest pending interrupt exactly when one is live, for one cycle; otherwise it executes the instruction |
| Superpage.UpdateIsManual | lib/src/cpu/mmu.dart:300-322 | an access leaves its leaf with bit 6 set, bit 7 set by a write, and the rest as it was |
| Translate.UpdatePreservesMeaning | lib/src/cpu/mmu.dart:300-322 | the A/D write of one translation changes no result of any other, for any address, access type and context, and repeating the translation writes nothing |
| Translate.WalkAtomic | lib/src/cpu/mmu.dart:233-256 | a faulting translation leaves memory unchanged; a successful one changes at most the eight bytes of its own leaf |
| Translate.XlateSettles | lib/src/cpu/mmu.dart:300-322 | after a translation its leaf has A set, and D for a write |
| Translate.UpdateIsAdExtMem | lib/src/cpu/mmu.dart:300-322 | every page-table word differs after a translation at most by A and D set |
| Translate.UndamagedXlate | lib/src/cpu/mmu.dart:224-257 | what changes only in A and D bits set translates as before, for every access type |
| Translate.PageUniform | lib/src/cpu/mmu.dart:324-329 | all addresses of a page fault alike or lead to one physical page at their own offsets |
| Translate.PokePeek | lib/src/cpu/mmu.dart:275-282 | aligned page-table words are the same word or share no byte |
| Pte.UpdateSets | lib/src/cpu/mmu.dart:306-314 | an update clears no bit, sets A, sets D exactly for writes, touches nothing else, and a second update finds nothing to do |
| Superpage.WalkIsManual | lib/src/cpu/mmu.dart:224-298 | the walk agrees with steps 2 to 8 of section 4.3.2 of the RISC-V Privileged Architecture 1.12, its fields read by division, the reserved-bit rule aside, if and only if every page-table word it reads lies in RAM and SUM is not what opens a user page to a supervisor fetch |
| Superpage.ManualLeavesRam | lib/src/cpu/mmu.dart:275-282 | the manual reports an access fault exactly when one of the words the walk visits lies outside RAM |
| Superpage.TableOutsideRam | lib/src/cpu/mmu.dart:224-257 | a root table outside RAM: a page fault here, an access fault in the manual |
| Superpage.SupervisorFetchesUserPage | lib/src/cpu/mmu.dart:48-65 | a supervisor fetch from a user page with SUM set: allowed here, a page fault in the manual |
| Superpage.SplitPreserves | lib/src/cpu/mmu.dart:284-298 | replacing a superpage leaf by a table of 512 next-level leaves with consecutive page numbers leaves every translation unchanged |
| Superpage.AddressesAgree | lib/src/cpu/mmu.dart:324-329 | the masked address is the one composed field by field from the leaf and the virtual address |
| DataMemory.StoreThenLoad | lib/src/cpu/cpu_executor.dart:1594-1636 | on RAM disjoint from its page tables a store of 1, 2, 4 or 8 bytes at any address, then a load, returns the low bytes of the value and touches nothing but those bytes and the leaves it went through |
| CachedMemory.StoreThenLoad | lib/src/cpu/cpu_executor.dart:1594-1636 | the same from any reachable state of the machine with its caches, if no entry for a page of the stretch is stale beforehand |
| DataMemory.StoreWrites | lib/src/cpu/cpu_executor.dart:1798-1838 | a store of any alignment puts each byte at its address and changes no other |
| DataMemory.LoadReads | lib/src/cpu/cpu_executor.dart:1668-1697 | a load of any alignment yields the bytes of its stretch, lowest first |
| DataMemory.FaultingStore | lib/src/cpu/cpu_executor.dart:1830-1838 | an unaligned store that faults at byte k has done exactly what the store of the k bytes before it does |
| DataMemory.WriteImpliesRead | lib/src/cpu/mmu.dart:67-82 | no leaf can be written and not read |
| DataMemory.FlatApart | lib/src/cpu/mmu.dart:208-215 | without paging the condition is that the stretch is RAM |
| CachedMemory.StoreStales | lib/src/cpu/cpu_executor.dart:1734-1828 | a store clear of the words an entry's walk reads does not make the entry stale |
| FunnelShift.JoinBytes | lib/src/cpu/cpu_executor.dart:1676-1693 | which byte of which aligned word each byte of an unaligned load is |
| CsrTheorems.WriteKeepsContext | lib/src/cpu/csr.dart:109-120 | a register write that does not flush keeps satp, SUM, MXR and the effective privilege |
| CsrTheorems.TrapKeepsContext | lib/src/cpu/exception.dart:78-123 | so does a trap that does not flush |
| CsrTheorems.ReturnKeepsContext | lib/src/cpu/exception.dart:26-48 | so does a return that does not flush |
| CsrTheorems.MstatusView | lib/src/cpu/csr.dart:167-190 | an mstatus write that does not flush keeps SUM, MXR, MPRV, and MPP while MPRV is on |
| CsrTheorems.MachineTrapReturns | lib/src/cpu/exception.dart:26-36 | a trap to machine level is undone by mret from any handler state that kept its frame: mepc, MPP, MPIE and the interrupt registers; pc, privilege and the set of enabled interrupts come back |
| CsrTheorems.SupervisorTrapReturns | lib/src/cpu/exception.dart:38-48 | a delegated trap is undone by sret from any handler state that kept the saved frame |
| TrapNesting.BracketsResume | lib/src/cpu/exception.dart:9-112 | in every run of register steps, traps, handlers and returns in which each handler, to any depth, ends at its level with its frame as it found it, every return resumes the code its trap interrupted |
| TrapNesting.TrapsNest | lib/src/cpu/exception.dart:26-112 | a supervisor handler that saves nothing may be interrupted by machine traps wherever and as deep as may be, and its sret still resumes the outer code |
| CsrTheorems.MieIsLost | lib/src/cpu/exception.dart:26-36 | after a machine trap and its mret MIE is what it was exactly when machine level was interrupted or it was off |
| CsrTheorems.LowestPendingTaken | lib/src/cpu/exception.dart:71-76 | the interrupt taken is the lowest pending one; it is the lowest enabled one exactly when that bit is itself enabled |
| CsrTheorems.DisabledInterruptTaken | lib/src/cpu/exception.dart:50-76 | a state in which an interrupt that is not enabled is taken instead of the enabled one |
| CsrTheorems.RunKeepsInv | lib/src/cpu/csr.dart:58-190 | in every reachable state satp selects bare or Sv39, UXL and SXL are 1 or 2, and SD is not stored |
| CsrTheorems.NoDeadModes | lib/src/cpu/mmu.dart:208-221 | so the Sv48 and access-fault branches of translate are dead |
| CsrTheorems.SdReads | lib/src/cpu/csr.dart:157-165 | SD reads as set exactly when FS or XS is dirty; every other bit reads as stored |
| CsrTheorems.RunConfined | lib/src/cpu/csr.dart:246-251 | until a trap to machine level no run below it changes a machine-level register, MIE, MPIE, MPP, MPRV or an interrupt bit that is not delegated |
| CsrTheorems.StepConfined | lib/src/cpu/csr.dart:58-144 | the same for one step |
| Tlb.FlushPageExact | lib/src/cpu/mmu.dart:21-28 | a targeted flush removes the page from the table wherever it is, and nothing else |
| Tlb.NeverInvalid | lib/src/cpu/tlb.dart:14 | no lookup tag equals the invalid tag |
| Tlb.HitMeans | lib/src/cpu/cpu_executor.dart:1598-1601 | the aligned-tag comparison hits exactly for an aligned access to the page |
| Tlb.Purge | lib/src/cpu/cpu_executor.dart:83-91 | every entry of the host page, and no other, is invalidated |
| PhysMemory.PhysMemoryMap.FindRange | lib/src/machine/phys_memory_map.dart:39-55 | the binary search finds the one enabled range that holds the address |
| PhysMemory.PhysMemoryMap.InsertSorted | lib/src/machine/phys_memory_map.dart:57-63 | a disjoint range is added and the map stays sorted |
| PhysMemory.PlaceMeaning | lib/src/machine/phys_memory_map.dart:39-55 | an address leads as far into the buffer, or to the device, as the enabled range that holds it says, and nowhere else |
| PhysMemory.PlaceInjective | lib/src/machine/phys_memory_map.dart:39-55 | different physical addresses lead to different bytes |
| PhysMemory.PlaceOfPage | lib/src/machine/phys_memory_map.dart:39-55 | a physical page is a page of one buffer |
| Words.SpliceReadsBack | lib/src/cpu/cpu_executor.dart:1863-1890 | a value written and read back in place is its low bytes |
| GuestMemory.Ram.Locate | lib/src/machine/phys_memory_map.dart:39-55 | range and offset of a physical address |
| GuestMemory.Ram.Get | lib/src/cpu/cpu_executor.dart:1712-1721 | the little-endian value of the bytes in the buffer |
| GuestMemory.Ram.Put | lib/src/cpu/cpu_executor.dart:1863-1876 | the buffer holds the bytes at the offset and is otherwise as it was |
| MmuClass.Mmu.Translate | lib/src/cpu/mmu.dart:207-222 | the result and the memory are those of the specification under the current context |
| MmuClass.Mmu.WalkSv39 | lib/src/cpu/mmu.dart:224-257 | the loop over the levels finds the leaf the recursion finds, checks it and updates it in place |
| MmuClass.Mmu.UpdateAccessedDirtyBits | lib/src/cpu/mmu.dart:300-322 | exactly the leaf word changes, and only when A or D is missing |
| MmuClass.Mmu.ReadPte | lib/src/cpu/mmu.dart:275-282 | the word if it lies in RAM |
| MmuClass.Mmu.EffectivePrivilege | lib/src/cpu/mmu.dart:30-38 | MPRV lends the level in MPP to machine-mode data accesses only |
| CpuState.HartState.constructor | lib/src/cpu/cpu_state.dart:36-137 | empty tables, machine level, UXL and SXL 2, satp 0 |
| CpuState.HartState.FlushTlb | lib/src/cpu/cpu_state.dart:139-146 | the loop empties the three tables and the callback invalidates the code page |
| CpuState.HartState.FlushTlbPage | lib/src/cpu/mmu.dart:21-28 | the page leaves the three tables and, if installed, the code page |
| CpuState.HartState.PurgeWriteTlb | lib/src/cpu/cpu_executor.dart:83-91 | the loop removes the entries of the host page and keeps the others |
| CpuHandlers.ExceptionHandler.RaiseException | lib/src/cpu/exception.dart:9-24 | the registers and the flush of the specified trap |
| CpuHandlers.ExceptionHandler.TrapToMachine | lib/src/cpu/exception.dart:78-94 | step by step, the machine trap |
| CpuHandlers.ExceptionHandler.TrapToSupervisor | lib/src/cpu/exception.dart:96-112 | step by step, the supervisor trap |
| CpuHandlers.ExceptionHandler.HandleMret | lib/src/cpu/exception.dart:26-36 | step by step, mret |
| CpuHandlers.ExceptionHandler.HandleSret | lib/src/cpu/exception.dart:38-48 | step by step, sret |
| CpuHandlers.ExceptionHandler.SetPrivilege | lib/src/cpu/exception.dart:117-123 | the tables are emptied exactly when the level changes or MPRV is on |
| CpuHandlers.ExceptionHandler.HasPendingInterrupt | lib/src/cpu/exception.dart:50-69 | whether some pending interrupt is enabled at its level |
| CpuHandlers.ExceptionHandler.HandlePendingInterrupt | lib/src/cpu/exception.dart:71-76 | the trap of the lowest pending interrupt |
| CpuHandlers.CsrHandler.Read | lib/src/cpu/csr.dart:9-56 | the switch over the registers yields the specified value, or the access exception |
| CsrTheorems.WriteReadsBack | lib/src/cpu/csr.dart:9-144 | what is read after a write: the value, its implemented bits, its delegated bits, the old value for an unsupported satp, zero for the constant registers |
| CsrTheorems.PmpReadsBack | lib/src/cpu/csr.dart:292-320 | a protection register that exists keeps its value, the others stay zero |
| CpuHandlers.CsrHandler.CheckCounter | lib/src/cpu/csr.dart:197-208 | a counter is readable below machine level exactly when every level above grants it |
| CpuHandlers.CsrHandler.Write | lib/src/cpu/csr.dart:58-144 | the specified registers after the write, the flush, or the access exception |
| CpuHandlers.CsrHandler.WritePmp | lib/src/cpu/csr.dart:306-320 | stored where implemented, ignored elsewhere |
| CpuHandlers.CsrHandler.SetMstatus | lib/src/cpu/csr.dart:167-190 | the writable bits change; the tables go when the translation context may have |
| PredecodeClass.PredecodeCache.Lookup | lib/src/cpu/predecode.dart:111-120 | whether exactly this page is held |
| PredecodeClass.PredecodeCache.Insert | lib/src/cpu/predecode.dart:124-129 | a fresh page replaces whatever was in its slot |
| PredecodeClass.PredecodeCache.InvalidatePage | lib/src/cpu/predecode.dart:143-153 | the page is dropped if held, and the result says so |
| PredecodeClass.PredecodeCache.InvalidateAll | lib/src/cpu/predecode.dart:132-136 | every page is dropped |
| CpuExecutor.Executor.constructor | lib/src/cpu/cpu_executor.dart:30-42 | a new executor stands for the reset state and satisfies the invariant |
| CpuExecutor.Executor.MemRead | lib/src/cpu/cpu_executor.dart:1580-1636 | value, fault and new state are those of the specified load, fast path first |
| CpuExecutor.Executor.MemReadSlow | lib/src/cpu/cpu_executor.dart:1638-1666 | translate, fill, read |
| CpuExecutor.Executor.MemReadUnaligned | lib/src/cpu/cpu_executor.dart:1668-1697 | two aligned reads joined, stopping at the first fault |
| CpuExecutor.Executor.MemWrite | lib/src/cpu/cpu_executor.dart:1733-1796 | the specified store, fast path first |
| CpuExecutor.Executor.MemWriteSlow | lib/src/cpu/cpu_executor.dart:1798-1861 | translate, fill, drop the decoded page, write |
| CpuExecutor.Executor.MemWriteUnaligned | lib/src/cpu/cpu_executor.dart:1830-1838 | the loop stores byte by byte and stops at the first fault |
| CpuExecutor.Executor.FetchInstruction | lib/src/cpu/cpu_executor.dart:171-191 | the specified fetch |
| CpuExecutor.Executor.FetchSlowAndCache | lib/src/cpu/cpu_executor.dart:209-224 | the specified slow fetch; on success the page is installed |
| CpuExecutor.Executor.FetchSlow | lib/src/cpu/cpu_executor.dart:248-295 | translate, fill the code TLB, read |
| CpuExecutor.Executor.FetchCrossPage | lib/src/cpu/cpu_executor.dart:297-317 | the second half from the next page |
| CpuExecutor.Executor.ReadInstalled | lib/src/cpu/cpu_executor.dart:193-207 | the instruction from the installed page |
| CpuExecutor.Executor.InstallCodePage | lib/src/cpu/cpu_executor.dart:226-238 | the page becomes the code page, decoded afresh and purged from the write TLB unless already held |
| CpuExecutor.Executor.DispatchInstalled | lib/src/cpu/cpu_executor.dart:2116-2120 | the slot of the installed page, decoded on first use |
| CpuExecutor.Executor.DropDecodedPage | lib/src/cpu/cpu_executor.dart:103-109 | the page is dropped, and uninstalled if it was the code page |
| CpuExecutor.Executor.DeviceWrites | lib/src/cpu/cpu_executor.dart:93-101 | the device bytes arrive and every page they touch is dropped |
| CpuExecutor.Executor.FencePage | lib/src/cpu/cpu_executor.dart:1324-1331 | sfence.vma with an address |
| CpuExecutor.Executor.InvalidateInstructionCaches | lib/src/cpu/cpu_executor.dart:69-73 | fence.i |
| DispatchLoop.Rv64.Execute | lib/src/cpu/cpu_executor.dart:2067-2630 | the object, its caches, memory, control registers, integer and floating-point registers, reservation, trap value and sleep flag, becomes exactly what the specified loop makes of it |
| DispatchLoop.Rv64.RunLoop | lib/src/cpu/cpu_executor.dart:2091-2630 | the loop terminates and spends its cycles as specified |
| DispatchLoop.Rv64.Around | lib/src/cpu/cpu_executor.dart:2091-2625 | once around the loop: the interrupt taken, the page installed, or the instruction executed, and the rest of the run is unchanged by it |
| DispatchLoop.Rv64.Once | lib/src/cpu/cpu_executor.dart:2116-2622 | one instruction from its dispatch to its end: new state, registers and next pc, or the pending fault, are those of the specified instruction |
| DispatchLoop.Rv64.Turn | lib/src/cpu/cpu_executor.dart:2116-2120 | the op dispatched, the word of an uncommon one, or the pending fault, are the answer of one Execute event |
| DispatchLoop.Rv64.Prepare | lib/src/cpu/cpu_executor.dart:2102-2113 | the page of the turn is installed, or the fault of that event is pending |
| DispatchLoop.Rv64.Perform | lib/src/cpu/cpu_executor.dart:2121-2622 | the op dispatched, or the word left to the classic interpreter, is performed as specified |
| DispatchLoop.Rv64.PerformLoad | lib/src/cpu/cpu_executor.dart:2421-2507 | the register gets the extended value of the specified load, or the fault is pending and no register has changed |
| DispatchLoop.Rv64.PerformStore | lib/src/cpu/cpu_executor.dart:2523-2573 | the specified store takes place, or its fault is pending; no register changes |
| DispatchLoop.Rv64.PerformAlu | lib/src/cpu/cpu_executor.dart:2121-2152 | register ops and branches change the named register and the pc as specified, and nothing else |
| DispatchLoop.Rv64.Fault | lib/src/cpu/cpu_executor.dart:319-328 | the specified trap at the pc of the faulting instruction, and the counter |
| DispatchLoop.Rv64.LeaveForInterrupt | lib/src/cpu/cpu_executor.dart:2092-2099 | the lowest pending interrupt is taken at the current pc and costs one cycle |
| DispatchLoop.Rv64.ExecuteClassic | lib/src/cpu/cpu_executor.dart:330-413 | the pc is set before and moved on after; system instructions and plain ones do what is specified, or leave the specified exception pending |
| DispatchLoop.Rv64.ExecutePlain | lib/src/cpu/cpu_executor.dart:966-1038 | a plain instruction makes the accesses it asks for one after the other, each seeing what was read before, and stops at the first fault |
| DispatchLoop.Rv64.FinishPlain | lib/src/cpu/cpu_executor.dart:1459-1493 | its end: the integer register, the reservation, the floating-point register, its flags and the dirty mark |
| DispatchLoop.Rv64.Read | lib/src/cpu/cpu_executor.dart:1580-1636 | a load through the caches, with what the device registers answer this time |
| DispatchLoop.Rv64.Write | lib/src/cpu/cpu_executor.dart:1733-1796 | a store through the caches, or its fault pending |
| DispatchLoop.Rv64.ExecuteLevel | lib/src/cpu/cpu_executor.dart:1247-1294 | ecall, ebreak, mret and sret, with their privilege checks |
| DispatchLoop.Rv64.ExecuteFence | lib/src/cpu/cpu_executor.dart:1296-1398 | wfi, sfence.vma and fence.i, with their privilege checks |
| DispatchLoop.Rv64.ExecuteCsr | lib/src/cpu/cpu_executor.dart:1341-1384 | read, the clock looked at, write unless the source register is zero, and write back, or illegal instruction |
| Utf8.SequenceLen | agentos/src/json.c:106-130 | bounds, and which bytes a complete sequence is made of |
| Utf8.RepairIdentity | agentos/src/json.c:103-130 | repair is the identity exactly on structurally valid text, and longer otherwise |
| Utf8.RepairWellFormed | agentos/src/json.c:164-177 | whatever goes in, the repaired text is structurally valid |
| Utf8.EncodeDecodes | agentos/src/json.c:245-268 | the encoder output is one complete sequence that carries exactly the code point |
| Buffers.Buffer.constructor | agentos/src/json.c:14-18 | an empty buffer |
| Buffers.Buffer.Reset | agentos/src/json.c:25-30 | the contents are emptied and the text stays a C string |
| Buffers.Buffer.Reserve | agentos/src/json.c:32-55 | room for the extra bytes and a NUL, or nothing changed and either a request was refused or the size is beyond half the largest; the contents survive and the capacity stays within twice what is needed |
| Buffers.Buffer.Append | agentos/src/json.c:57-68 | the bytes are appended, or the contents are as they were and a request was refused or the size is beyond half the largest |
| Buffers.Buffer.AppendStr | agentos/src/json.c:70-72 | the C string is appended, or the contents are as they were and a request was refused or the size is beyond half the largest |
| JsonWriter.WriteString | agentos/src/json.c:132-179 | the loop appends the quoted and escaped text; it fails only if a request is refused or the size is beyond half the largest |
| JsonWriter.QuotedIsCString | agentos/src/json.c:132-179 | written text holds no NUL and no control byte, so strdup loses nothing |
| StringRoundTrip.StringReadsBack | agentos/src/json.c:331-354 | wherever a written string stands, parsing stops exactly after its closing quote and yields the repaired input |
| StringRoundTrip.QuotedInjective | agentos/src/json.c:132-179 | texts written alike repair alike, and valid ones are equal |
| Transcoding.EscapesTranscode | agentos/src/json.c:287-329 | any sequence of four-digit escapes yields the UTF-8 of the UTF-16 text they spell, lone surrogates as U+FFFD |
| Transcoding.Utf16RoundTrip | agentos/src/json.c:309-324 | every text of scalar values is reachable by escapes |
| Transcoding.Utf8TextWellFormed | agentos/src/json.c:245-268 | the transcoded text is structurally valid |
| JsonParser.ParseLen | agentos/src/json.c:544-555 | a value returned is the value the grammar gives the text; when the allocator refuses nothing and no size overflows, the parser accepts exactly the texts of the grammar |
| JsonParser.Parser.ParseValue | agentos/src/json.c:527-542 | stays within the text, advances on success, terminates; what it yields is what the grammar yields, and when no request is refused and no size overflows it succeeds exactly when the grammar does |
| JsonParser.Parser.ParseObject | agentos/src/json.c:474-525 | the same for objects |
| JsonParser.Parser.ParseArray | agentos/src/json.c:438-472 | the same for arrays |
| JsonParser.Parser.ParseString | agentos/src/json.c:356-381 | the same for strings |
| JsonParser.Parser.ParseStringInto | agentos/src/json.c:331-354 | the same for the characters of a string, appended to the buffer |
| JsonParser.Parser.ParseEscape | agentos/src/json.c:287-329 | the same for escapes, with the back-up after an unpaired high surrogate |
| JsonParser.Parser.ParseHex4 | agentos/src/json.c:270-285 | four hex digits or nothing consumed |
| JsonParser.Parser.ParseNumber | agentos/src/json.c:383-419 | the same for a run of number bytes with a digit in it, shorter than the text buffer |
| JsonParser.Parser.ParseLiteral | agentos/src/json.c:421-436 | the same for exactly the word |
| JsonParser.Parser.SkipWhitespace | agentos/src/json.c:219-227 | the position of the first other byte |
| Utf8.SequenceShapes | agentos/src/json.c:106-130 | a sequence of one to four bytes by the leading binary digits of its bytes |
| Render.DocumentReads | agentos/src/json.c:544-555 | a document written from literal texts, with white space anywhere between tokens, every short escape, hex digits of either case, surrogate pairs and any number text, is read as what it means, whatever follows that goes on no number |
| Render.RenderReads | agentos/src/json.c:544-555 | every tree written out without white space reads back as itself with its strings repaired, at the head of any text |
| Render.WordsExact | agentos/src/json.c:527-542 | a text that starts with t, f or n is a value exactly when it starts with the word |
| Render.NumbersExact | agentos/src/json.c:383-419 | a text of digits, signs, points and exponent letters is a number exactly when it has a digit and at most 39 bytes |
| Render.StartsExact | agentos/src/json.c:527-542 | what a document can start with |
| Render.EscapesExact | agentos/src/json.c:287-329 | after a backslash come one of eight letters or u and four hex digits, and nothing else |
| Render.WriterSteps | agentos/src/json.c:132-179 | what the writer makes of the head of any text: which bytes it escapes, by which letters and digits, and what it copies |
| Embedding.ReadsAnywhere | agentos/src/json.c:527-542 | a text that reads as a value reads as that value wherever it is pasted |
| JsonText.ArrayReads | agentos/src/json.c:438-472 | a bracketed list of such texts reads as the array of the values |
| JsonText.ObjectReads | agentos/src/json.c:474-525 | fields with plain keys read as the members, in order |
| JsonAccess.ObjectGet | agentos/src/json.c:574-585 | the first member whose key equals the C string |
| ChatTheorems.TextMessageReads | agentos/src/chat.c:45-59 | a text message reads as its role and repaired content |
| ChatTheorems.ToolMessageReads | agentos/src/chat.c:61-77 | a tool result reads as its id and repaired output |
| ChatTheorems.CallReads | agentos/src/chat.c:152-171 | a serialised call reads as its id, name and arguments |
| ChatTheorems.AssistantMessageReads | agentos/src/chat.c:137-175 | a serialised assistant message reads as its content and calls |
| ChatTheorems.RequestReads | agentos/src/chat.c:177-191 | a request reads as the model, the messages in order, the tool and the choice |
| ChatTheorems.RequestWithoutTool | agentos/src/chat.c:177-191 | without a tool text the list of tools is empty |
| ChatHistory.RequestRoundTrip | agentos/src/chat.c:177-191 | after any history of texts, tool results and assistant messages the built request parses to exactly the intended tree |
| ChatHistory.RequestContents | agentos/src/chat.c:45-59 | in the parsed request each text has its role and its repaired input as content, each tool result the id it answers and its repaired output, each reply its tree |
| ChatHistory.RequestItems | agentos/src/chat.c:177-191 | the messages array of the parsed request is the trees of the history, in order |
| ChatHistory.EntryReads | agentos/src/chat.c:23-77 | each message of a history reads as its tree |
| ChatHistory.MessageIsCString | agentos/src/chat.c:37-41 | no message holds NUL, so copying it as a C string loses nothing |
| MendedText.RepairedDocument | agentos/src/json.c:544-555 | parsing commutes with repair: a text with every stray byte replaced parses to the tree of the text with every string and key repaired, and to nothing if the text did |
| MendedText.BodyMends | agentos/src/json.c:331-354 | the same for the characters of a string: escapes and raw bytes together give a text whose repair is what the repaired source reads as |
| Replay.ReplayFaithful | agentos/src/chat.c:89-133 | for every call: decoding the replayed call gives what decoding the original gave if and only if its id is valid UTF-8, its name is a string, a shell call has arguments in which the command and the directory, if they are read, are valid, and of any other name as much as the error text shows is unrepaired |
| Replay.ArgumentsReplay | agentos/src/chat.c:105-132 | repaired arguments decode to the same command, directory, timeout or error exactly when command and directory are valid UTF-8 |
| Replay.UnknownToolReplay | agentos/src/chat.c:97-103 | the error text for an unknown name survives repair exactly when the first 241 bytes of the name do |
| Replay.RepairCStr | agentos/src/json.c:132-179 | cutting a text at its first NUL and repairing it commute |
| Replay.StrayIdChanges | agentos/src/chat.c:152-171 | a shell call with proper name and arguments whose id is one stray byte comes back under another id |
| Replay.NamelessCallChanges | agentos/src/chat.c:154-157 | a call without a name is replayed as a different call |
| Replay.AssistantReplay | agentos/src/chat.c:137-175 | a parsed replay has the same calls in the same order, each decoding to the same id, command, cwd, timeout or error exactly when it is faithful, and the same content repaired |
| DecodeLaws.ShellTextDecoded | agentos/src/chat.c:89-133 | a shell call whose arguments are written out with command, cwd and timeout_ms decodes to its id, the repaired command, the repaired directory unless empty, the number if positive or else the default, and no error |
| DecodeLaws.ShellDecoded | agentos/src/chat.c:117-133 | by the members of any arguments object: refused without a command string; otherwise the command, the directory if it is a string that is not empty, the timeout if it is a number above zero, and no error |
| DecodeLaws.NoArgumentsDecoded | agentos/src/chat.c:105-115 | a shell call without an arguments string, or whose arguments are no object, has no command and the error text for that |
| DecodeLaws.OtherToolDecoded | agentos/src/chat.c:97-103 | a call of another tool, or of none, has no command and its name in the error text, cut at 255 bytes |
| DecodeLaws.IdDecoded | agentos/src/chat.c:92 | the id is the string under that name, up to its first NUL, or empty |
| RoleText.RoleReadsBack | agentos/src/chat.c:49-53 | the role inserted raw reads back as given exactly when it has no quote and no backslash |
| ChatBuilder.AppendChain | agentos/src/chat.c:49-53 | a chain of appends adds every piece in order; it fails only if a request is refused or the size is beyond half the largest |
| ChatBuilder.SerialiseAssistant | agentos/src/chat.c:137-175 | the loop over the calls appends the specified message, and fails only as the chain does |
| ChatBuilder.BuildRequest | agentos/src/chat.c:177-191 | the loop over the messages appends the specified request, and fails only as the chain does |
| ChatBuilder.Conversation.AddRaw | agentos/src/chat.c:23-43 | the copy is appended to the growing array, or nothing changes because there is no text or a request was refused |
| ChatBuilder.Conversation.AddText | agentos/src/chat.c:45-59 | the specified message is appended, or nothing changes because a request was refused or the message is too long |
| ChatBuilder.Conversation.AddToolResult | agentos/src/chat.c:61-77 | the specified message is appended, or nothing changes for one of the same two reasons |
| ChatBuilder.Conversation.Add | agentos/src/chat.c:23-77 | the conversation holds exactly the messages of the history, extended by the entry unless a request was refused or the message is too long |
| ChatBuilder.ToolCall.Fill | agentos/src/chat.c:89-133 | the fields are those of the specified decoding, or the call is reported as one whose arguments are no JSON object; the latter only in lack of memory |

## Left out

- RV32, Sv32 and the 32-bit address mask: the model is RV64 with Sv39.
- What an instruction computes: of the arms of the predecoded loop a few are written out, the others, and all of the classic
  interpreter but the system instructions, are parameters of the loop (`Arms`), as is the decoding of an instruction word (`Decoder`).
  So floating-point arithmetic, atomics, multiplication and division are arms like any other. Both machines use the same arms: that a
  micro-op does what the classic interpreter does for its instruction word is not part of the model.
- A classic instruction makes at most two accesses, which is what atomics and doubles make; an arm that asks for more is illegal.
- Device registers and the clock: what they answer is a parameter, numbered by how often the processor has looked; device writes change
  nothing modelled.
- The zero register is not set back to zero after an atomic.
- The supervisor binary interface hook and the pair counter of the dispatch loop.
- The dirty bitmap that a write-TLB fill sets, disabling a RAM range while the machine runs, and the range pointer cache.
- TLB entries are values in their arrays; each carries the context it was filled under, which is history and read by nothing.
- Decoded pages are values named by buffer and offset, and buffers by their index: two references to one page are one name.
- `fetchInstruction` takes the program counter as an argument where the source reads it from the state just written.
- A halfword fetched across the end of a RAM buffer, which only an odd program counter can ask for, reads as zero; the source
  raises a range error there.
- The reserved-bit rule of section 4.3.2, which the walk ignores, is not part of `Superpage.Manual`.
- The instruction counter is an unbounded number, cut to 64 bits when read.
- FencedRuns.FencedRefines: politeness is enough for the agreement and not necessary; a dirty page may happen not to be cached.
- DataMemory.StoreThenLoad: asks for RAM clear of the page-table words that translate it; a store into its own page tables is
  covered by the uncached machine but has no such law.
- OpLaws.LoadMeaning: this and the laws of stores, classic accesses and fetches beside it are on the machine without caches and ask for
  RAM clear of the page-table words that translate it; `LoopTheorems.InstructionTwins` carries them over to the machine with caches.
- JSON numbers stay text: `strtod`, `json_write_number` and the conversion of a timeout to milliseconds are parameters.
- JSON trees are values; sibling links, `json_free` and the recursion depth of the C stack are not part of the model.
- A key whose one-byte allocation fails becomes NULL in the source; in the model it is empty.
- The size computation of `buffer_reserve` is on unbounded numbers; a buffer near `SIZE_MAX` is outside the model.
- ChatHistory.RequestRoundTrip: the tool description is any text that parses as one value, and roles given raw hold no quote
  and no backslash; `RoleText.RoleReadsBack` shows that the second condition is exact.
- Sockets, processes and consoles of the agent, and everything else in the repository.
