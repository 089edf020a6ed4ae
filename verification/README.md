# Verified models of Intewell-RTOS components

This project models seven parts of the Intewell-RTOS kernel and its build tools in Dafny 4.11 and
proves what they promise, for every input, every state and every schedule.

| part | files | what is modelled |
|---|---|---|
| Page tables | `Geometry`, `PageTable`, `TableTree`, `FlatMap`, `Mmu`, `MmuOps` | four-level AArch64 tables in memory, with block splitting and release of empty tables |
| Message queue | `Mpscq`, `MpscqRing`, `MpscqMoves`, `MpscqSafety`, `MpscqTheorems`, `MpscqCalls`, `MpscqUniform`, `MpscqSize` | the lock-free multi-producer, single-consumer ring, one atomic access per step |
| Signals | `SignalLayout`, `SignalRecords`, `SignalFrame`, `SignalDelivery`, `SignalRestart` | the AArch64 signal frame down to its record bytes, delivery, `rt_sigreturn` and system-call restart |
| Digests | `Rfc1321`, `Md5Answer`, `Md5Block`, `Md5` | streaming MD5 and HMAC against RFC 1321 and RFC 2104 |
| Calendar | `Calendar` | broken-down time to seconds, against a calendar counted year by year |
| Fault table | `FaultTable`, `FaultRecovery` | the sorter of the self-relative fault-recovery table and the kernel's search in it |
| Stack image | `StackImage`, `StackBuilder` | the argument, environment and auxiliary areas of a new process |

`Arith`, `Bytes` and `Options` are shared helpers. `dafny verify dfyconfig.toml` checks everything.

## How to read it

* **Page tables.** `PageTable.Walk` is the translation that the hardware makes. `FlatMap.Applied(old, new, ..., op, n)`
  says that the first `n` bytes of an operation have been carried out on the translation of *every* address, and that
  every other address translates as before. `Mmu.AddressSpace.Valid` ties each allocated table to the one place
  that refers to it. Ghost fields record what can go wrong: `failures` counts the allocations that failed, `starved`
  is set exactly when one fails, and `overwrote` exactly when a leaf is written where the table entry referred to another
  table (`TableTree.TableBelow`), so that this table is lost. The second is ruled out for every mapping onto unmapped
  addresses as long as no allocation has failed. `Pages()` is the set of pages that hold tables or lie in the pool; no
  call changes it.
  Completion is stated per call: a call stops early only if an allocation failed *in that call*, which takes a pool with
  fewer than three pages for every page of the range.
* **Message queue.** `Mpscq.Next` takes one step of one producer or of the consumer, and `Mpscq.Exec` a whole schedule.
  `cells` is the history of reservations, in order, and `taken` what was delivered. `MpscqSafety.Reached` holds of
  every state that any schedule with the discipline below leads to. `MpscqCalls` says, for every such state, what a call
  comes to while nobody else moves.
* **Signals.** `SignalFrame.User` is all that a program can observe of its processor state. `SignalRestart.Interruption`
  runs an interruption from beginning to end with a handler that leaves arbitrary registers and an arbitrary mask.
* **Digests, calendar, tables.** Each has a plain definition taken from the standard or from the calendar, and the
  imperative code is proved to compute it. Fields and records are also pinned down byte by byte, with
  literal weights and numbers, and MD5 by the digest of "abc".

## Where the code does not do what one would expect

* **A peek during a lap jump delivers padding.** When an allocation does not fit the rest of the lap, `mpscq_alloc` may
  jump to the next lap by moving `reserve_tail`, then `commit_tail`, then `head`. A consumer that starts a peek between
  the first and the last of these, and asks for no more than the rest of the lap, is handed slots that nobody enqueued.
  First-in first-out delivery holds in every schedule in which the consumer does not start such a peek (`Fifo`); after
  every step that breaks this, some schedule delivers padding (`DisciplineNeeded`); and one producer on a ring of two
  slots gets there (`HazardReached`, `PaddingDelivered`). A jump can only begin while the consumer finishes a pop
  (`JumpsStartInPop`). Callers can rule it out by themselves: for any set of sizes that calls may pass, delivery is in
  order in every schedule if and only if at most one of them is valid (from 1 to the ring size) and it divides the ring
  size (`SizesExactly`).
* **A free page is one whose translation is 0.** `arm_alloc_vaddr_with_min` takes a page that maps physical page 0 for a
  free one. The range it picks is unmapped exactly if none of its pages maps physical page 0 (`FreeMeansUnmapped`); with
  one such page, that page is handed out (`ZeroPageHandedOut`).
* **Unmapping off a page boundary.** `ummap_single_entry_r` returns `(size_t)-1` for an address or a size that is not a whole
  number of pages, and the loops subtract it. They then step back byte by byte, and reach whole pages exactly if the
  range ends at a page boundary: in that case the range from the page boundary below is worked on (`EditRange`,
  `OffPageUnmaps`), and otherwise every turn is refused and no table changes (`StuckTurns`).
* **fpsr and fpcr are 64 bits wide in the context and 32 bits wide in the frame.** A round trip through a handler is the identity
  exactly if both fit into 32 bits and no reserved bit of pstate is set (`ReturnedExactly`, `FpsrLost`).
* **The result of a system call is read into an `int`.** A 64-bit result is taken for a restart code exactly if its low half
  is one; a successful call that returns 0xFFFFFDA8 is made again (`ReadAsInt`, `SuccessMadeAgain`).
* **`tm_mday - 1` is computed in `int`.** It overflows for `tm_mday == INT_MIN` and for no other broken-down time
  (`TmToSecs`). The int variables of `__year_to_secs` hold the years from -8855602300 to 8855602772 after 1900 and no
  others (`YearsThatFit`), which is more than the fields of `struct tm` can give. The model calls every other year
  undefined. For those whose cycle number itself does not fit an int, C narrows it on assignment, and the code may
  return a wrong value instead.
* **Rounding up a record size wraps for the fifteen largest sizes.** Such a record is granted with no room
  (`PaddedEnough`, `HugeGranted`); the planner asks for none of them.

## Model

| member | source | states |
|---|---|---|
| Geometry.OffIsEntry | include/arch/arm_common/mmu.h:436-441 | In an aligned table, an address selects entry i if and only if it lies in the range of entry i, at every level |
| PageTable.PathWalk | arch/arm_common/mmu.c:285-334 | Translating an address from the root is the same as translating it from any table on its path |
| PageTable.PutEffect | arch/arm_common/mmu.c:222-228 | Writing one entry changes the translation of exactly the addresses that entry covers |
| PageTable.LinkEffect | arch/arm_common/mmu.c:389-402 | Linking a new table changes only addresses below the entry, which then translate as the new table says |
| PageTable.OneReference | arch/arm_common/mmu.c:385-421 | No table is referred to by two entries |
| TableTree.LocatedIsTree | arch/arm_common/mmu.c:385-421 | Reachable tables form a tree: a table found on two walks sits at the same level and covers the same range |
| TableTree.ReachableAllocated | arch/arm_common/mmu.c:490-521 | No freed table is reachable |
| TableTree.AllReachable | arch/arm_common/mmu.c:385-421 | With no block written over a table, the allocated tables are exactly the reachable ones |
| TableTree.MapsSomething | arch/arm_common/mmu.c:490-521 | In a state without empty tables, every table below the root translates some address |
| TableTree.NoLeakRelease | arch/arm_common/mmu.c:490-521 | Releasing an empty table and clearing the entry that refers to it leaks nothing |
| TableTree.BelowEntry | arch/arm_common/mmu.c:385-421 | A walk of any address finds a table below a level exactly if the entry at the end of its path refers to one |
| FlatMap.SplitResolves | arch/arm_common/mmu.c:463-488 | The 512 entries that replace a block translate every address of the block as the block did |
| FlatMap.AppliedInPieces | arch/arm_common/mmu.c:540-588 | Carrying out an operation in consecutive pieces is carrying it out once on the whole |
| Mmu.AddressSpace.PtableAlloc | arch/arm_common/mmu.c:178-185 | Hands out the first page of the pool, which is no table, or fails exactly if the pool is empty, with no other effect |
| Mmu.AddressSpace.PtableFree | arch/arm_common/mmu.c:187-195 | Appends exactly that table to the pool, which leaves the pages of tables and pool together as they were |
| Mmu.AddressSpace.ValidNum | arch/arm_common/mmu.c:257-272 | Is 0 if and only if no entry of the table is in use |
| Mmu.AddressSpace.Lookup | arch/arm_common/mmu.c:285-365 | The loop over levels computes the recursive translation, for every address |
| Mmu.AddressSpace.V2p | arch/arm_common/mmu.c:285-334 | The physical address of the translation, or 0 |
| Mmu.AddressSpace.GetAttr | arch/arm_common/mmu.c:336-365 | The attributes of the translation, or 0 |
| Mmu.AddressSpace.CreateTable | arch/arm_common/mmu.c:389-402 | A new table is linked without changing any translation or any table entry of a deeper level, or nothing changes |
| Mmu.AddressSpace.DescendForMap | arch/arm_common/mmu.c:385-411 | One level down: goes on only into a table, and stops only if this allocation failed or the address was already mapped |
| Mmu.AddressSpace.WriteOver | arch/arm_common/mmu.c:412-420 | Writing the leaf maps exactly its range, and loses a table if and only if the entry referred to one, which it does not if nothing was mapped there |
| Mmu.AddressSpace.MapSingle | arch/arm_common/mmu.c:367-423 | Maps exactly one entry's range, or changes no translation even if tables were linked; fails only for a misaligned or mapped address, or with fewer than three pages in the pool; loses a table if and only if the entry written referred to one |
| Mmu.AddressSpace.FillLeaves | arch/arm_common/mmu.c:477-484 | Fills a table with the pieces of a block, in order |
| Mmu.AddressSpace.SplitBlock | arch/arm_common/mmu.c:463-488 | Splitting a block changes no translation and leaks nothing |
| Mmu.AddressSpace.FreeLast | arch/arm_common/mmu.c:496-499 | Frees an empty table below the root |
| Mmu.AddressSpace.ClearParent | arch/arm_common/mmu.c:502-506 | Clears the entry that referred to it, changing no translation |
| Mmu.AddressSpace.ReleaseParent | arch/arm_common/mmu.c:503-520 | One turn upwards changes no translation: it frees the parent as well if that is empty now and not the root, and otherwise every invariant holds again |
| Mmu.AddressSpace.ReleaseEmpty | arch/arm_common/mmu.c:496-521 | Releases the empty tables of a path upwards, changing no translation, and leaves none empty |
| Mmu.AddressSpace.EditEntry | arch/arm_common/mmu.c:489-532 | Clears or rewrites exactly one leaf, then releases what became empty |
| Mmu.AddressSpace.UnmapSingle | arch/arm_common/mmu.c:425-538 | One call unmaps or modifies a non-empty mapped prefix of the range, at most all of it; -1 exactly off a page boundary, 0 only for an unmapped address or a failed split, and then no translation changes |
| Mmu.AddressSpace.EditRange | arch/arm_common/mmu.c:540-555 | The loop carries the operation out on exactly a mapped prefix, which is the whole range unless an allocation failed during this call or an address was unmapped; also for addresses off a page boundary |
| Mmu.AddressSpace.UnmapRange | arch/arm_common/mmu.c:540-555 | Unmapping refines removal from the flat map: exactly a prefix goes, the whole range if all of it was mapped and no split failed during this call; everything else keeps its address and attributes |
| Mmu.AddressSpace.Modify | arch/arm_common/mmu.c:923-944 | Changes the attributes of exactly the pages in the range and the physical address of none, through any splits; succeeds exactly if the whole range was done, which it is if all of it was mapped and no split failed during this call |
| Mmu.NeverSettles | arch/arm_common/mmu.c:425-555 | For a range that does not end at a page boundary, no turn of the loop sees whole pages, in 64-bit arithmetic |
| Mmu.AddressSpace.StuckTurns | arch/arm_common/mmu.c:425-555 | On such a range, any number of turns of the loop leaves every table as it is |
| Mmu.GetMapLevel | include/arch/arm_common/mmu.h:448-459 | The largest mapping size to which address, physical address and size are all aligned, and pages otherwise |
| Mmu.AddressSpace.MapEntries | arch/arm_common/mmu.c:576-586 | The loop maps a number of whole entries in order, all of them unless an allocation failed in it or the next address was mapped |
| Mmu.AddressSpace.MapRange | arch/arm_common/mmu.c:557-588 | Mapping refines flat-map update: all of the range (down to whole pages) on success, exactly a number of whole entries of the chosen level on failure, which has a cause in this call; unaligned addresses are refused; a table is lost if and only if an entry written referred to one, and none is if the range was unmapped and no allocation had failed before the call |
| Mmu.NothingToOverwrite | arch/arm_common/mmu.c:412-420 | Without empty tables, an unmapped range has no table entry where its leaf goes |
| MmuOps.AllocVaddr | arch/arm_common/mmu.c:714-761 | First fit, in user and in kernel space: the lowest run of free pages from the first candidate, or none if there is none |
| MmuOps.FreeMeansUnmapped | arch/arm_common/mmu.c:744-749 | A run that the search calls free is unmapped if and only if none of its pages maps physical page 0 |
| MmuOps.MappedThere | arch/arm_common/mmu.c:557-588 | A physical range below 2^48 is mapped address by address, with its attributes |
| MmuOps.MapTranslateUnmap | arch/arm_common/mmu.c:285-588 | Translation undoes mapping, for every address of the range; after unmapping it answers 0 |
| MmuOps.MapRegion | arch/arm_common/mmu.c:896-922 | A mapping without a given address goes to the lowest free run; it then changes no existing translation, overwrites no table if no allocation had failed before the call, and succeeds unless an allocation fails during it; with any address, whole pages are mapped and a table is lost exactly where an entry written referred to one |
| MmuOps.ZeroPageHandedOut | arch/arm_common/mmu.c:744-749 | With the page at 0x1000 mapped to physical page 0, the search hands out 0x1000 |
| MmuOps.OffPageUnmaps | arch/arm_common/mmu.c:540-555 | Unmapping 0xFFF bytes at 0x1001 unmaps the byte at 0x1000 |
| MmuOps.Run | arch/arm_common/mmu.c:367-588 | Any sequence of map, unmap and modify requests leaves a tree without freed tables that translates every address as the requests in turn say; each request is served in full unless an allocation failed during it or the flat map before it explains the stop; as long as no allocation has failed no table is empty, and if moreover every mapping request goes to addresses that the requests before it left unmapped, no table is lost, and allocations minus frees are the reachable tables below the root; tables and pool together hold the same pages as before |
| Mpscq.NextLap | components/common/mpscq.c:60-87 | The next lap starts after the position and at most one ring size away |
| MpscqSize.NextPow2Least | components/common/mpscq.c:27-38 | The bit-smearing code yields the least power of two that is not below its argument |
| MpscqSafety.InitOk | components/common/mpscq.c:90-137 | The invariant holds of a new ring with any number of producers |
| MpscqSafety.StepOk | components/common/mpscq.c:60-87 | Every disciplined step of any producer or the consumer keeps the invariant |
| MpscqSafety.ExecOk | components/common/mpscq.c:173-354 | So does every disciplined schedule |
| MpscqMoves.TakeDataOk | components/common/mpscq.c:173-207 | A reservation keeps the tiling of the uncommitted positions and shares no slot with any other |
| MpscqMoves.WriteSlotOk | components/common/mpscq.c:301-319 | Copying an element in disturbs no committed or foreign slot |
| MpscqMoves.PublishDataOk | components/common/mpscq.c:223-251 | Publishing makes exactly the owner's elements visible, in order |
| MpscqMoves.PublishLapOk | components/common/mpscq.c:60-87 | Publishing a jump makes only padding visible |
| MpscqMoves.JumpHeadOk | components/common/mpscq.c:60-87 | The jump of head skips only padding |
| MpscqMoves.PopOk | components/common/mpscq.c:286-298 | A pop delivers exactly the elements it passes |
| MpscqTheorems.CountersOrdered | components/common/mpscq.c:173-298 | In every reachable state head <= commit_tail <= reserve_tail <= head + size, and no push of a reserved token has failed |
| MpscqTheorems.ExactlyOneOwner | components/common/mpscq.c:173-251 | Every position between commit_tail and reserve_tail belongs to exactly one producer or normaliser |
| MpscqTheorems.OneCommitter | components/common/mpscq.c:223-251 | When there is such a position, exactly one actor holds the token equal to commit_tail |
| MpscqTheorems.SlotsDisjoint | components/common/mpscq.c:173-207 | Unread and reserved positions use different slots |
| MpscqTheorems.CommittedIntact | components/common/mpscq.c:262-298 | Every committed element is in its slot until it is popped |
| MpscqTheorems.Fifo | components/common/mpscq.c:262-354 | What was dequeued is, element for element, a prefix of what was enqueued in reservation order, without padding |
| MpscqTheorems.DrainedAtLap | components/common/mpscq.c:286-298 | Outside mpscq_pop, a drained queue stands at the start of a lap |
| MpscqCalls.DrainedAlloc | components/common/mpscq.c:173-207 | On a drained queue with nobody else moving, an allocation of every size from 1 to the ring size succeeds |
| MpscqCalls.AllocFrom | components/common/mpscq.c:177-206 | From every reachable state in which a call begins or begins again, and with nobody else moving: room is granted exactly if n slots are free and lie in one lap; otherwise the normaliser is entered exactly if nothing is queued or reserved |
| MpscqCalls.AllocAlone | components/common/mpscq.c:173-207 | The same for a whole call, which leaves no trace if it is refused |
| MpscqCalls.TakeOrAgain | components/common/mpscq.c:199-205 | With others moving, a call that found room takes it or begins again, and never gives up at that point |
| MpscqCalls.JumpAlone | components/common/mpscq.c:60-87 | A call that finds nothing queued but too little of the lap left moves all three counters to the next multiple of the ring size and gets its room there |
| MpscqCalls.EnqueueAlone | components/common/mpscq.c:301-319 | A whole call for which there is room copies its elements to the granted slots and no others, and commits them if nothing before is uncommitted; otherwise it waits, however long |
| MpscqCalls.DequeueAlone | components/common/mpscq.c:262-354 | A whole dequeue delivers exactly if n elements are committed and lie in one lap, and then the next n in order, moving a drained queue to the next lap; otherwise nothing changes |
| MpscqCalls.ThereAndBack | components/common/mpscq.c:301-354 | What a call puts into a drained queue is what the next one takes out, and the queue is drained again |
| MpscqTheorems.TornPeek | components/common/mpscq.c:60-87 | A peek granted while commit_tail has jumped and head has not delivers padding |
| MpscqTheorems.DisciplineNeeded | components/common/mpscq.c:262-283 | After every step that breaks the discipline, some schedule without further calls hands out padding |
| MpscqTheorems.JumpsStartInPop | components/common/mpscq.c:173-207 | A producer starts a jump only while the consumer finishes the pop that emptied the ring |
| MpscqTheorems.HazardReached | components/common/mpscq.c:173-298 | One producer and two slots reach a state in which the next peek breaks the discipline |
| MpscqTheorems.PaddingDelivered | components/common/mpscq.c:262-298 | From there the code delivers an element that was never enqueued: what was delivered is no prefix of what was enqueued |
| MpscqUniform.UniformOrderly | components/common/mpscq.c:173-207 | If every valid call passes d elements and d divides the ring size, every schedule is disciplined |
| MpscqUniform.UniformFifo | components/common/mpscq.c:262-354 | Then delivery is first-in first-out in every schedule, with no condition on the consumer |
| MpscqUniform.Unsafe | components/common/mpscq.c:173-298 | For every ring size and any set of sizes with a valid one that does not divide it, or with two valid ones, one producer passing only such sizes reaches the delivery of an element that was never enqueued |
| MpscqUniform.SizesExactly | components/common/mpscq.c:173-354 | For any set of sizes that calls may pass, delivery is in order in every schedule if and only if at most one of them is valid and it divides the ring size |
| SignalLayout.Layout.constructor | arch/aarch64/arch_signal.c:244-270 | The room for the terminator and for extra_context is kept back |
| SignalLayout.Layout.Append | arch/aarch64/arch_signal.c:299-344 | A record is granted if and only if its padded size fits, for every size; the subtraction never wraps |
| SignalLayout.Layout.PlaceExtra | arch/aarch64/arch_signal.c:307-332 | Placing extra_context never fails, and it lies with its terminator inside the reserved area |
| SignalLayout.Layout.Reserve | arch/aarch64/arch_signal.c:299-352 | Granted exactly if the record fits the room it is looked for in, and where; extra_context is placed at most once |
| SignalLayout.Layout.Seal | arch/aarch64/arch_signal.c:358-386 | The final terminator always finds its room |
| SignalLayout.Layout.PlanAll | arch/aarch64/arch_signal.c:244-386 | For every sequence of sizes and flags: each request is granted exactly if it fits the room that the ones before left, different granted records are disjoint, aligned and clear of extra_context, and the terminator gets its room behind them |
| SignalLayout.PaddedEnough | arch/aarch64/arch_signal.c:304-304 | The padded size is at least the size unless the size is one of the fifteen largest |
| SignalLayout.HugeGranted | arch/aarch64/arch_signal.c:304-341 | The largest size is granted with no room |
| SignalRecords.ParseRecords | arch/aarch64/arch_signal.c:847-938 | The parsing loop computes the recursive parser, on any bytes |
| SignalRecords.ParseAccepts | arch/aarch64/arch_signal.c:847-938 | Every chain of known, padded records with at most one FPSIMD record and a terminator is accepted, and the FPSIMD record is found where it is |
| SignalRecords.ParseOnly | arch/aarch64/arch_signal.c:847-938 | Nothing else is accepted |
| SignalRecords.VregsRoundTrip | arch/aarch64/arch_signal.c:483-499 | The vector registers read back from their bytes |
| SignalRecords.FpsimdFields | arch/aarch64/arch_signal.c:949-967 | A stored FPSIMD record reads back with fpsr and fpcr cut to 32 bits |
| SignalRecords.WordBytes | arch/aarch64/arch_signal.c:847-938 | A field is the little-endian number of its four bytes |
| SignalRecords.FpsimdBytes | arch/aarch64/arch_signal.c:483-499 | The record byte by byte: magic and size in numbers, then fpsr, fpcr and the registers, least significant byte first |
| SignalFrame.ArchContext.ValidateReturn | arch/aarch64/arch_signal.c:203-226 | Accepts exactly the EL0 states without masked exceptions, and always leaves a user state; bit by bit, an accepted status loses its reserved bits and a refused one keeps its condition flags |
| SignalFrame.ReturnBits | arch/aarch64/arch_signal.c:199-211 | Bit i of a status survives a return exactly if i is not 5, 13 to 20, 22, 23, 26, 27 or from 32 on |
| SignalFrame.UserBits | arch/aarch64/arch_signal.c:67-74 | A status is a user status exactly if bits 0 to 4 and 6 to 9 are clear |
| SignalFrame.HandlerStatus | arch/aarch64/arch_signal.c:613-652 | Bit by bit, the status that a handler starts with: that of the program without its reserved bits and TCO, bit 25 |
| SignalFrame.ArchContext.SetupHandler | arch/aarch64/arch_signal.c:613-652 | The registers in which the handler starts, and no other change |
| SignalFrame.HandlerSees | arch/aarch64/arch_signal.c:543-652 | Register by register, in numbers, what the handler starts with; all other registers are the interrupted program's |
| SignalFrame.FrameBelow | arch/aarch64/arch_signal.c:448-459 | Unwind record and frame lie whole below the stack top if and only if there is room for both, with less than 32 bytes lost |
| SignalFrame.FrameIsPlaced | kernel/process/signal/signal_action.c:120-153 | With SA_ONSTACK and the stack pointer off the alternate stack, frame and unwind record lie inside the alternate stack; otherwise below the program's stack pointer; each as close as alignment allows, given room |
| SignalFrame.FrameLayout | arch/aarch64/arch_signal.c:136-143 | The offsets in the frame follow from its members and their alignment |
| SignalFrame.SetAltStack | kernel/process/signal/signal_action.c:206-271 | Every sigaltstack request keeps the configuration one that can be put back |
| SignalFrame.AltStackRules | kernel/process/signal/signal_action.c:206-271 | Exactly which requests take effect, and how: none while on the stack, none with other flags, none below the minimal size |
| SignalFrame.AltRoundTrip | kernel/process/signal/signal_action.c:278-316 | Disarming the alternate stack for a handler is undone on return |
| SignalFrame.Applied | kernel/process/signal/signal_mask.c:92-121 | SIGKILL and SIGSTOP never get blocked, and any other mask is applied as it is |
| SignalFrame.Thread.RestoreSaved | kernel/process/signal/signal_mask.c:136-147 | The mask is the one that delivery would have saved |
| SignalFrame.Thread.Delivered | kernel/process/signal/signal_handler.c:527-551 | The mask during the handler, and the disarmed alternate stack |
| SignalFrame.Frame.SaveFpsimd | arch/aarch64/arch_signal.c:483-499 | The field stores make up exactly the record, and touch nothing else |
| SignalFrame.Frame.Populate | arch/aarch64/arch_signal.c:565-602 | The frame holds the interrupted state, mask and alternate stack, and a chain of one FPSIMD record and a terminator |
| SignalDelivery.Plan | arch/aarch64/arch_signal.c:279-386 | The planned offsets of the records and the frame size |
| SignalDelivery.BuildFrame | arch/aarch64/arch_signal.c:430-696 | The frame holds the interrupted state, the context enters the handler on it, and frame and unwind record lie inside the alternate stack or below the old stack pointer; without access to the stack nothing changes |
| SignalDelivery.EnterHandler | arch/aarch64/arch_signal.c:705-757 | The mask saved is the one to return to, also inside sigsuspend; the handler's mask, status bits and place on the stack |
| SignalDelivery.RestoreContext | arch/aarch64/arch_signal.c:940-1021 | On any frame: exactly when it is accepted, what is restored from it, and that the result is a user state |
| SignalDelivery.RtSigreturn | arch/aarch64/arch_signal.c:1030-1064 | SIGSEGV exactly for a misaligned, unreadable or malformed frame or a privileged pstate; otherwise the described state, with every bit of pstate but the reserved ones |
| SignalDelivery.ReturnedExactly | arch/aarch64/arch_signal.c:483-499 | A round trip is the identity if and only if fpsr and fpcr fit 32 bits and no reserved pstate bit is set |
| SignalDelivery.FpsrLost | arch/aarch64/arch_signal.c:492-493 | An fpsr of 2^32 comes back as 0 |
| SignalDelivery.BuiltRecords | arch/aarch64/arch_signal.c:847-938 | The parser finds exactly the FPSIMD record of a built frame, with the registers it was made from |
| SignalDelivery.MatchingReturn | arch/aarch64/arch_signal.c:974-1064 | rt_sigreturn on a built frame restores registers, mask and alternate stack, whatever the handler left |
| SignalRestart.SetupRestart | arch/aarch64/arch_signal.c:807-820 | The context becomes what the table gives for a call that no handler interrupts, but for the system-call number |
| SignalRestart.RestartToEintr | arch/aarch64/arch_signal.c:822-833 | Undoes that, with -EINTR, exactly for the codes that a handler interrupts |
| SignalRestart.FirstPhase | arch/aarch64/arch_signal.c:1084-1101 | Before signals are looked for, an interrupted call is rewound as the table says for no handler |
| SignalRestart.InNumbers | arch/aarch64/arch_signal.c:807-833 | With a handler, on x0, x8 and pc in numbers: -600 is made again with SA_RESTART and EINTR without, -601 is made again, -602 and -603 are EINTR, every other result stands |
| SignalRestart.InNumbersAlone | arch/aarch64/arch_signal.c:807-820 | Without one: -600 to -602 are made again, -603 as system call 128 |
| SignalRestart.DoSignal | arch/aarch64/arch_signal.c:1079-1122 | The two phases together give the outcome of the table, also in numbers, in the context or in the frame, the mask to return to, and the mask that the handler runs with |
| SignalRestart.Interruption | arch/aarch64/arch_signal.c:1030-1122 | After the handler and rt_sigreturn the program sees the outcome of the table, also in numbers, its own status bits but the reserved ones, its own mask and its own alternate stack |
| SignalRestart.ReadAsInt | arch/aarch64/arch_signal.c:1087-1095 | A result is classified as its 64-bit value would be, unless only its low half is a restart code |
| SignalRestart.SuccessMadeAgain | arch/aarch64/arch_signal.c:1087-1095 | A successful result whose low half is -600 is made again |
| Md5Block.SRotates | components/common/tiny_md5.c:108-108 | The two shifts of the macro S are a rotation |
| Md5Block.FMacroIs | components/common/tiny_md5.c:120-183 | The four macros F, two of them rewritten, are the functions F, G, H and I of RFC 1321 |
| Md5Block.PIs | components/common/tiny_md5.c:110-113 | The macro P is the operation of section 3.4 of RFC 1321 |
| Md5Block.FourSteps | components/common/tiny_md5.c:122-200 | Four written-out operations with fixed roles are four table-driven steps with rotating roles |
| Md5Block.Round0 | components/common/tiny_md5.c:120-137 | The first sixteen operations are round 1, with its word order, shifts and constants |
| Md5Block.Round1 | components/common/tiny_md5.c:141-158 | The next sixteen are round 2 |
| Md5Block.Round2 | components/common/tiny_md5.c:162-179 | The next sixteen are round 3 |
| Md5Block.Round3 | components/common/tiny_md5.c:183-200 | The last sixteen are round 4 |
| Md5.Load | components/common/tiny_md5.c:91-106 | The sixteen words of a block, low-order byte first |
| Md5.Process | components/common/tiny_md5.c:87-208 | The compression function of section 3.4, for every state and block |
| Rfc1321.AbsorbConcat | components/common/tiny_md5.c:238-242 | Blocks may be absorbed in any number of goes |
| Md5.RestGrows | components/common/tiny_md5.c:244-246 | Bytes that complete no block only join the rest |
| Md5.RestFills | components/common/tiny_md5.c:230-236 | Bytes that complete a block are compressed together with the rest |
| Md5.CountCarries | components/common/tiny_md5.c:221-228 | The two count words are the length modulo 2^64, with the carry noticed by a wrapped sum |
| Md5.LengthWords | components/common/tiny_md5.c:265-270 | The two length words are the bit count modulo 2^64 |
| Md5.PadLength | components/common/tiny_md5.c:272-273 | The padding is never empty and is the least that reaches 56 modulo 64 |
| Md5.Context.Starts | components/common/tiny_md5.c:76-85 | The context stands for the empty message |
| Md5.Context.Update | components/common/tiny_md5.c:213-247 | For every split into calls, the state is the fold over the complete blocks and the buffer holds the rest |
| Md5.Context.Finish | components/common/tiny_md5.c:259-282 | The digest of sections 3.1 to 3.5 of RFC 1321, for every message |
| Md5.Digest | components/common/tiny_md5.c:287-296 | The same in one call |
| Md5Answer.Answer | components/common/tiny_md5.c:287-296 | The digest of "abc" is the one that section A.5 of RFC 1321 gives |
| Md5.Context.SetPads | components/common/tiny_md5.c:312-318 | Both pads for a key of at most a block |
| Md5.Context.HmacStarts | components/common/tiny_md5.c:301-324 | The inner hash has taken the inner pad, for every key length |
| Md5.Context.HmacUpdate | components/common/tiny_md5.c:329-332 | Text is added, in any split |
| Md5.Context.HmacFinish | components/common/tiny_md5.c:337-348 | The value of section 2 of RFC 2104, for every key and text |
| Calendar.ClosedForm | components/clock/clock_tm_to_timespec64.c:37-81 | Counting years one by one, in both directions from 1970, gives the closed form for every year |
| Calendar.MonthsFillYear | components/clock/clock_tm_to_timespec64.c:86-92 | The month lengths make up the year |
| Calendar.QuotFloor | components/clock/clock_tm_to_timespec64.c:37-43 | C's division with the corrected remainder is floor division |
| Calendar.NearYear | components/clock/clock_tm_to_timespec64.c:18-31 | The shortcut for 1902 to 2038 counts correctly and stays within int |
| Calendar.AnyYear | components/clock/clock_tm_to_timespec64.c:33-81 | The general branch counts correctly for every year, including those of the shortcut, on which its ints do not overflow |
| Calendar.YearsThatFit | components/clock/clock_tm_to_timespec64.c:37-79 | Exactly which years those are |
| Calendar.YearToSecs | components/clock/clock_tm_to_timespec64.c:16-82 | Seconds to the start of a year and whether it is a leap year, against the year-by-year count, exactly for the years on which no int overflows |
| Calendar.MonthToSecs | components/clock/clock_tm_to_timespec64.c:84-93 | The table entry is the sum of the month lengths before |
| Calendar.TmToSecs | components/clock/clock_tm_to_timespec64.c:95-118 | 86400 times the day count, plus the time of day, for all field values in or out of range, undefined exactly for tm_mday == INT_MIN |
| Calendar.DayBefore | components/clock/clock_tm_to_timespec64.c:113-113 | The int subtraction overflows exactly there |
| Calendar.Posix | components/clock/clock_tm_to_timespec64.c:95-118 | From 1970 on, the formula of POSIX.1-2017 section 4.16 |
| FaultTable.PackRoundTrip | build-env/tools/sort_fault_recovery.py:87-87 | A packed record unpacks to itself, in either byte order |
| FaultTable.UnpackRoundTrip | build-env/tools/sort_fault_recovery.py:60-60 | Any twelve bytes are some record's, in either byte order |
| FaultTable.UnpackBytes | build-env/tools/sort_fault_recovery.py:57-60 | Each field is the number that its bytes make up by their weights, in either byte order, the first two in two's complement |
| FaultTable.DecodeBytes | build-env/tools/sort_fault_recovery.py:57-69 | Decoding a section gives record by record what its bytes say |
| FaultTable.EncodableIs | build-env/tools/sort_fault_recovery.py:40-43 | A table fits exactly if both relative fields of every record lie from -2^31 to 2^31 - 1 |
| FaultTable.DecodeEncode | build-env/tools/sort_fault_recovery.py:79-89 | An encoded table decodes, at the same address, to its entries |
| FaultTable.EncodeDecode | build-env/tools/sort_fault_recovery.py:59-69 | What was decoded from a section can be encoded again, to the same bytes |
| FaultTable.SortedOk | build-env/tools/sort_fault_recovery.py:80-80 | The sort is a permutation in ascending order of fault address |
| FaultTable.SortedStable | build-env/tools/sort_fault_recovery.py:80-80 | Entries for one address keep their order |
| FaultTable.SortedAlready | build-env/tools/sort_fault_recovery.py:80-80 | An ascending table is left alone |
| FaultRecovery.LoadEntries | build-env/tools/sort_fault_recovery.py:46-75 | The loop decodes the section, and fails exactly for a size that is no whole number of entries |
| FaultRecovery.BuildSortedBlob | build-env/tools/sort_fault_recovery.py:40-89 | The loop encodes the sorted table, and fails exactly if some new offset does not fit 32 bits |
| FaultRecovery.SortSection | build-env/tools/sort_fault_recovery.py:92-122 | What is written decodes to a stable ascending permutation of the original entries, also when the records are read from the bytes directly |
| FaultRecovery.SortedSectionStays | build-env/tools/sort_fault_recovery.py:109-122 | A section in order is written back unchanged |
| FaultRecovery.SortTwice | build-env/tools/sort_fault_recovery.py:79-89 | Sorting again is the identity |
| FaultRecovery.AccessorsAgree | include/fault_recovery_table.h:35-43 | The kernel's accessors compute the addresses that the tool computed, for every record |
| FaultRecovery.Find | kernel/utils/fault_recovery_table.c:29-55 | The binary search finds a record with the address if and only if there is one |
| FaultRecovery.SortedSearchable | kernel/utils/fault_recovery_table.c:20-28 | A sorted section is in order for the kernel, as long as no fault address wraps |
| FaultRecovery.Lookup | kernel/utils/fault_recovery_table.c:29-55 | After sorting, a lookup answers with a record that the bytes of the original section hold, and with none exactly if they hold none |
| StackImage.GetEnvSize | components/libelf/binfmt.c:102-131 | The loops sum up the size of all parts |
| StackImage.GetPhdrAddr | components/libelf/binfmt.c:133-143 | The address of the first PT_PHDR segment, or 0 |
| StackImage.PhdrAddrIs | components/libelf/binfmt.c:133-143 | It is the p_vaddr, from its bytes, of the first header whose type bytes are 6, 0, 0, 0 |
| StackImage.JoinedAt | components/libelf/binfmt.c:92-97 | Byte 56 * i + j of the copied headers is byte j of header i |
| StackImage.TableReads | components/libelf/binfmt.c:239-251 | A written table reads back, pointer by pointer, as its strings, and ends with NULL |
| StackImage.AuxReads | components/libelf/binfmt.c:80-84 | A written auxiliary vector reads back entry by entry |
| StackImage.AuxHit | components/libelf/binfmt.c:80-84 | A scan up to AT_NULL finds an entry that is the first of its kind |
| StackImage.AuxMiss | components/libelf/binfmt.c:80-84 | And nothing of a kind that does not occur |
| StackBuilder.PartsFit | components/libelf/binfmt.c:102-131 | The parts follow each other without overlap and end within the computed size, which is met exactly if the headers are copied |
| StackBuilder.Builder.PushAux | components/libelf/binfmt.c:80-84 | An entry is appended inside its table and nothing else changes |
| StackBuilder.Builder.WriteVector | components/libelf/binfmt.c:239-251 | The loop writes the table and the strings, and nothing else |
| StackBuilder.BuildPhdr | components/libelf/binfmt.c:224-235 | AT_PHDR points to the program's own headers or to a copy |
| StackBuilder.Build | components/libelf/binfmt.c:196-301 | In memory of just the computed size, whatever it held, the image reads back as argc, every argument and environment string and both NULLs; and a scan of the auxiliary vector finds, kind by kind and in numbers, entry, bases, header count and size, the headers themselves (mapped or copied byte by byte), the platform and file name strings and the random bytes, and no other kind |
| StackBuilder.NumbersAreFound | components/libelf/binfmt.c:255-296 | The values that getauxval finds, in numbers |
| StackBuilder.PointersAreFound | components/libelf/binfmt.c:224-269 | What lies at the addresses that getauxval finds: headers, platform, file name and random bytes |
| StackBuilder.Slots | components/libelf/binfmt.c:224-299 | No kind occurs twice in the auxiliary vector |
| StackBuilder.AuxVectorEnds | components/libelf/binfmt.c:224-299 | The auxiliary vector has at most 21 of its 52 entries and ends with its only AT_NULL |

## Left out

- TLB and cache maintenance, locks, the fixmap window through which tables are accessed, and user-access faults in the middle of a copy.
- AArch32 page tables, where a leaf may sit in the root table.
- MmuOps.AllocVaddr: counts pages without bound, while the source's int overflows after 2^31 free pages in a row; and a search that finds nothing up to the last page of the 64-bit address space ends here, while the source's address wraps to 0 there and goes on. A lower bound for a kernel mapping lies in kernel space.
- mmu_table_flush, table printing and the translation of memory attributes to descriptor bits: attributes are opaque numbers.
- Weak memory order in the queue: steps are sequentially consistent, and positions do not wrap at 2^64.
- Masking with size - 1 in the queue is written as the remainder, which is the same for the power-of-two sizes that mpscq_init makes.
- The byte-sized variants of the queue calls, mpscq_count and mpscq_destroy: they only add easy members.
- SVE and SME records, which the frame planner does not use; extra_context is planned for but never written or accepted.
- Choosing which signal is delivered (signal_fetch_deliverable), retargeting of shared pending signals, and do_syscall_restart_check, which nothing on this path calls.
- The suspension of a task whose frame cannot be built ends the model of that delivery.
- The offsets of the C library's ucontext_t and siginfo are constants here; that library is not part of this model.
- The sine table of MD5 is taken as the constants of RFC 1321; that they are the sines is not proved.
- The count words of the MD5 context are numbers below 2^32, and an OR of disjoint halves is written as a sum.
- Python's built-in sort is modelled by a stable insertion sort; ELF parsing and file handling are not modelled.
- FaultRecovery.Lookup: addresses are 64 bits wide; the 32-bit kernels are not modelled.
- The stack image is a sequence that each store replaces, and the mapping of its pages, the guard page and the vDSO are not modelled.
- Reading fewer than 16 bytes from the random device leaves the rest of those bytes as they were.
- Spinlocks, the scheduler, device drivers, ACPI, the network and the build scripts other than the table sorter.
