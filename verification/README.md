# A verified model of the RISC-V kernel

The kernel runs on one RV64 hart with Sv39 paging. This project models the parts of it whose
correctness depends on long runs or on several routines working together, and proves what they
keep:

* the **split virtqueues** of the network driver, as a protocol between the driver and any device that
  conforms to sections 2.7.5, 2.7.6, 2.7.8, 2.7.13 and 2.7.14 of VIRTIO 1.2 (`Virtqueue`, `TxQueue`,
  `TxDriver`, `RxQueue`, `RxDriver`);
* the **page allocator**, an intrusive free list (`PageAllocator`, `PageHeap`), and the **Sv39 page
  tables** built from its pages (`Sv39`, `PageTable`, `Paging`, `KernelSpace`, `KernelBoot`), against the
  translation algorithm of sections 4.3.2 and 4.4 of the RISC-V Privileged Architecture, version 20211203,
  and runs in which clients and page tables share the allocator (`KernelMemory`);
* the **context switch** as the instructions of `trap.S` and `process.S` (`Rv64`, `ContextSwitch`), the
  interrupt bits of `sstatus` (`Interrupts`) and preemption over whole runs (`Preemption`);
* the **process table and the round-robin scheduler** (`Scheduler`, `ProcessRecords`, `ProcessTable`), and the
  layout of its contexts and stacks (`ProcessLayout`); what becomes of **creations that are preempted**
  (`Creation`) and of traps inside dispatch and `yield` (`TrapWindows`); and table and hart as one system
  (`Lockstep`);
* the **timer hand-off** from M-mode to S-mode as the instructions of `mtrap.S` (`TimerHandoff`), and M-mode
  interrupts in the middle of the S-mode assembly (`Transparency`);
* the **devicetree walker** against a serialiser written from section 5.4 of the Devicetree
  Specification v0.4 (`Devicetree`, `DevicetreeWalker`), and the **digit loops** of the UART (`Digits`).

## How it is built

Each protocol has a machine: a state, a step function, a run over any sequence of steps, and an
invariant that every step keeps. A step that is not enabled changes nothing, so a theorem about all step
sequences is a theorem about all interleavings. The state carries an account of what happened
(unbounded counts, the packets sent, the frames read, the turns given) that no step looks at; the 16-bit
indices of the code are proved to be residues of it.

Code that changes memory in place is written as classes and methods with its loops: `TxDriver.Driver`,
`RxDriver.Driver`, `PageHeap.Allocator`, `ProcessTable.Kernel`, and the methods of `Paging`, `KernelBoot`,
`KernelMemory`, `DevicetreeWalker` and `Digits`. Each is proved to do exactly what its machine or
specification function does: the drivers' `State()` is a state of the protocol and every routine is a run
of it; `Valid()` of drivers, allocator and process table says that the concrete state is what the machine
has reached by the steps recorded so far, and every method extends that record by its own. So the theorems
about runs hold of the objects, for the allocator as `PageHeap.EveryAllocator` and for the drivers as
`TxDriver.EveryDriver` and `RxDriver.EveryDriver`. The driver's methods take the device moves that happen in
each gap of the routine as arguments: the contracts hold for all of them. The assembly routines are
instruction sequences executed by the interpreter in `Rv64`.

Integers are unbounded; wrap-around is written out (`% INDEX_MOD`, `% WORD_MOD`). Page-table memory is
page-indexed words, register-save memory is doublewords, packet memory is bytes.

## Assumptions

* The device conforms: it consumes published entries in order, returns each consumed descriptor once, in
  any order, writes the used element before the used index, and touches only buffers it holds.
* In `Scheduler`, `ProcessTable`, `Preemption` and `Lockstep` no trap falls inside dispatch
  (`src/kernel/process.c:99-103`), inside `yield` (`src/kernel/process.c:133-141`) or between the end of a
  process and its `yield`. The code does not mask interrupts there; `TrapWindows` has the traps in these
  places, what they do to the process table, and when they can come. Inside `proc_create` a trap may fall
  between any two of its steps in all of these modules.
* The path of `map_page` and `va2pa` holds no gigapage or megapage leaf (neither tests for leaves).
* Page 0 is not memory: a store through a NULL table is an access fault. `map_page` does not check the
  result of `mem_alloc` (`src/kernel/mem.c:164`), so it faults exactly when the pages run out, and the
  model says when that is.
* Clients do not double-free (`include/kernel/mem.h:48-49`).
* The C trap handler follows the calling convention: its entry code saves ra and the callee-saved
  registers it may change in a frame on the process's stack and its exit code reloads them. The stack has
  room for the trap frame and that frame.
* The process table, the scheduler's context and the boot stack lie outside the heap and do not overlap.
  That stacks overlap neither them nor each other is proved (`ProcessLayout.TableLayout`).
* Code between traps leaves SIE as it finds it: `main` enables interrupts before the scheduler starts, and
  the allocator restores what it masked (`src/kernel/mem.c:46-57`).
* After reset `mie` and `mip` are clear and `mscratch` holds the top of the M-mode stack
  (`src/asm/Start.S:35-43`). S-mode code may write `sie` and `sip`, as it does at `src/kernel/main.c:53` and
  `src/kernel/trap.c:103`, but that reaches neither MTIE nor STIP; and it reaches neither the machine CSRs
  nor `mtimecmp` nor the M-mode stack.
* `forkret` is not at address 0.

## What turned out different from its documentation

* `string_len` also stops at a newline (`src/kernel/utils.c:15`). A node name with a newline can send the
  walker into the middle of the name. `Devicetree.TraverseIsExact` has the exact condition: the walk is
  right if and only if, for every name, the length up to the first newline pads to the same number of
  words as the whole name. `Devicetree.UnsafeNameStops` shows that it otherwise stops at an unknown token
  and never runs on, and `Devicetree.UnsafeNameExists` gives such a name. Names without a newline always
  satisfy the condition (`Devicetree.PlainNamesAreSafe`).
* A unit name without `@` makes `parse_dtb_unit_name` step over its terminating NUL and read one more
  byte (`src/kernel/dtb.c:18-24`). `Devicetree.UnitInside` shows that this byte is still inside the block
  and is zero, so the loop ends there.
* `map_page` always sets V, so with flags that the hardware rejects (neither R nor X, or W without R) the
  page faults afterwards; `PageTable.MapPageRefines` says so exactly.
* `va2pa` tests neither that the address is canonical nor that the last entry is legal. Where the path of
  an address does not end early, it returns the hardware's translation if and only if the address is
  canonical and the entry is a leaf that the hardware accepts (`Paging.Va2Pa`). In all other cases the
  hardware faults. `Paging.NonCanonicalAlias` gives the input: the address 2^39 above any mapped one.
* Neither dispatch nor `forkret` nor `yield` enables interrupts. A process that is first dispatched, or
  goes on after its own `yield`, runs with interrupts disabled if a preemption came before, and cannot be
  preempted until it gives up the hart and a preempted process is dispatched. `Preemption.EnabledFollowsTraps`
  is the exact rule, `Preemption.DisabledUntilTrapReturn` the consequence, and `Preemption.DisabledFromBoot` a
  run from boot that gets there.
* `proc_create` makes its slot RUNNABLE (`src/kernel/process.c:67`) before it writes the slot's context
  (`src/kernel/process.c:82-88`), and masks nothing. A creator that is preempted in between is never resumed:
  the scheduler reaches the new slot first, and `swtch` takes return address 0 from its context
  (`Creation.TornCreationIsLost`, on registers and memory `Lockstep.TornCreationIsSeen`). A creator that is
  preempted between its search and line 67 gets a slot that another creation has taken, exactly if one took
  it meanwhile (`Creation.ClashIffTaken`). `Creation.TornCreationExists` and `Creation.ClashExists` are runs
  from boot that end so. Neither happens while the creator keeps the hart, and a caller can make sure of that
  by calling with SIE clear, and only so (`Creation.GuardIsExact`, and with registers and memory
  `Lockstep.GuardIsExact`); the boot code's creations are safe because no process is current. Where creations
  keep the hart, every process starts from its new context (`Lockstep.WholeCreationsStartRight`), and the
  scheduler ends with every process having had its turns (`ProcessTable.Kernel.RunScheduler`).
* A timer trap between `current_process = p` and the end of `swtch` in the scheduler overwrites the context of
  the slot about to run. One in `yield` between the store of RUNNABLE and `current_process = NULL`
  (`src/kernel/process.c:136-138`) lets the process be dispatched into the second half of `yield`; its slot
  then stays RUNNING with nobody in it, it is never dispatched again, and the scheduler never returns but
  waits in the `wfi` branch that is otherwise unreachable (`TrapWindows.YieldTrapIsFinal`,
  `TrapWindows.NeverReturns`, `TrapWindows.YieldTrapHangs`). With traps anywhere, no run harms the process
  subsystem if and only if interrupts are disabled when it starts (`TrapWindows.SafeIffDisabled`); `main`
  enables them at `src/kernel/main.c:54`.

## Model

| member | source | states |
|---|---|---|
| `Virtqueue.IndexTestsAreExact` | src/driver/virt_mmio.c:273-278 | for runs of any length the 16-bit comparison of `last_used_idx` and `used.idx` is true exactly when a completion is unreaped, likewise the device's comparison for new entries; never more than 256 publications are unreaped |
| `Virtqueue.WriteAvailSlotKeepsInv` | src/driver/virt_mmio.c:253 | the next available slot holds no entry the device still has to read, and the invariant survives the store |
| `Virtqueue.BumpAvailKeepsInv` | src/driver/virt_mmio.c:257 | advancing the index publishes exactly the descriptor in the slot and keeps every descriptor with one owner |
| `Virtqueue.ReapKeepsInv` | src/driver/virt_mmio.c:358-365 | taking the used element at the driver's position retires the oldest unreaped completion and keeps the invariant |
| `Virtqueue.NextCompletion` | src/driver/virt_mmio.c:360-361 | the used element at `last_used_idx` names the descriptor of the oldest unreaped completion, and it is in range |
| `Virtqueue.ConsumeIntact` | src/driver/virt_mmio.c:253-257 | a device that takes the next entry gets exactly the descriptor that was published there |
| `Virtqueue.ConsumeKeepsInv` | src/driver/virt_mmio.c:253-257 | taking an entry, or finding none, keeps every descriptor with one owner and every unread slot intact |
| `Virtqueue.WriteUsedKeepsInv` | src/driver/virt_mmio.c:273-280 | a used element the device writes, for any chain it holds, never lands on one that is still unread |
| `Virtqueue.BumpUsedKeepsInv` | src/driver/virt_mmio.c:273-280 | completing a chain adds it once to the completions and takes it from the device |
| `TxQueue.SearchFindsFirst` | src/driver/virt_mmio.c:238-244 | the search stops at the first free descriptor counted cyclically from `next_desc` |
| `TxQueue.SearchFailsOnlyWhenFull` | src/driver/virt_mmio.c:238-248 | it ends on an occupied descriptor exactly when every descriptor is in use |
| `TxQueue.CopyLeavesOthers` | src/driver/virt_mmio.c:198-201 | copying a packet to one descriptor's buffer changes what no other descriptor shows |
| `TxQueue.StepKeepsInv` | src/driver/virt_mmio.c:238-258 | every driver or device micro-step keeps ownership, buffers, marks and ring contents |
| `TxQueue.DeviceReadsWhatWasSent` | src/driver/virt_mmio.c:238-259 | in every interleaving each device read for a publication yields exactly the bytes of the send call that published it |
| `TxQueue.SendsTakeTheNextFree` | src/driver/virt_mmio.c:238-255 | in every interleaving publication k is made by an accepted send, and its descriptor is the first one, counted cyclically from one past that of publication k-1, or from 0 for the first, that is not published and unreaped when the send chooses it |
| `TxQueue.PublishedStands` | src/driver/virt_mmio.c:198-252 | in every run, as long as a descriptor is published and not reaped, its table entry is its own buffer's address with the packet's length and no flags, and the buffer starts with the packet |
| `TxQueue.TxAccounting` | src/driver/virt_mmio.c:238-257 | in every run, between calls: the in-use table marks exactly the published, unreaped descriptors, their number is `avail.idx - last_used_idx` modulo 2^16 and at most 256, and send finds no descriptor exactly when there are 256 |
| `TxQueue.ReapsFollowCompletions` | src/driver/virt_mmio.c:358-366 | in every run, past wrap-around, the test is exact, the j-th reap takes the j-th completion, and no completion occurs twice |
| `TxDriver.Driver.constructor` | src/driver/virt_mmio.c:192-204 | zeroed rings and one buffer of 2048 bytes per descriptor at consecutive addresses: the initial state of the protocol |
| `TxDriver.Driver.FillTable` | src/driver/virt_mmio.c:198-204 | every descriptor gets its own buffer at its own address |
| `TxQueue.BufferAddrIs` | src/driver/virt_mmio.c:199-200 | buffers lie at the address of the queue's memory plus the index times 2048 |
| `TxDriver.Driver.FindFree` | src/driver/virt_mmio.c:238-244 | the search loop computes the cyclic search |
| `TxDriver.Driver.CopyIn` | src/driver/virt_mmio.c:250 | the byte loop replaces exactly the packet's range of memory |
| `TxDriver.Driver.CopyPacket` | src/driver/virt_mmio.c:250 | is the copy step of the protocol |
| `TxDriver.Driver.FillDescriptor` | src/driver/virt_mmio.c:251-252 | is the descriptor step of the protocol |
| `TxDriver.Driver.QueueSlot` | src/driver/virt_mmio.c:253-255 | is the slot step: ring entry, in-use mark and the search position one past the descriptor |
| `TxDriver.Driver.Publish` | src/driver/virt_mmio.c:257 | is the index step |
| `TxDriver.Driver.NetSend` | src/driver/virt_mmio.c:230-260 | refuses exactly an oversized packet or a full table and then changes nothing; otherwise it adds one publication with the packet, in the first descriptor counted from one past that of the publication before (from 0 for the first) that is not published and unreaped, and the call, with any device moves in its gaps, is that run of the protocol |
| `TxDriver.Driver.TakeCompletion` | src/driver/virt_mmio.c:360-365 | is the reap step |
| `TxDriver.Driver.ReapOne` | src/driver/virt_mmio.c:355-368 | one turn of the completion loop takes a completion exactly when one is unreaped, and then the descriptor of the oldest one, and is that run of the protocol |
| `TxDriver.EveryDriver` | src/driver/virt_mmio.c:230-260 | of every driver object that the code brings about: device reads yield what was sent, the table entry of every published descriptor is its own buffer with the packet's length, marks and indices count what is under way, and reaps follow completions |
| `RxQueue.RoomToRecycle` | src/driver/virt_mmio.c:319-322 | an unread completion leaves a free slot in the available ring, so recycling overwrites no unconsumed entry |
| `RxQueue.UsedSlotStays` | src/driver/virt_mmio.c:273-280 | no device write changes the used element of an unread completion |
| `RxQueue.NextUsedStays` | src/driver/virt_mmio.c:273-280 | in particular not the one that the driver reads next |
| `RxQueue.FillLeavesOthers` | src/driver/virt_mmio.c:198-201 | a device write into one receive buffer changes no other |
| `RxQueue.StepKeepsInv` | src/driver/virt_mmio.c:267-326 | every micro-step, including those between the two index increments, keeps the invariant |
| `RxQueue.RxConservation` | src/driver/virt_mmio.c:207-326 | at every moment of every run the 256 descriptors are split, each exactly once, between published-unconsumed, device-held and completed-unreaped |
| `RxQueue.DriverReadsWhatWasReceived` | src/driver/virt_mmio.c:273-291 | the j-th frame and length the driver reads are the buffer as the device left it and the length it reported at the j-th completion, and between turns it has read one frame per reap; a conforming device never drives the invalid-descriptor branch |
| `RxDriver.Driver.constructor` | src/driver/virt_mmio.c:192-211 | the receive queue with every descriptor published is the initial state of the protocol |
| `RxDriver.Driver.FillTable` | src/driver/virt_mmio.c:198-204 | every descriptor gets its own device-writable buffer |
| `RxDriver.Driver.PublishAll` | src/driver/virt_mmio.c:208-211 | descriptors 0 to 255 are published in order and the index says so |
| `RxDriver.Driver.Take` | src/driver/virt_mmio.c:278-291 | is the step that reads the used element and the frame; the length is the smaller one of the reported one and the caller's |
| `RxDriver.Driver.Recycle` | src/driver/virt_mmio.c:319-323 | with the device moving in every gap, the descriptor is reaped and published again, and frames received meanwhile are only added |
| `RxDriver.Driver.QueueSlot` | src/driver/virt_mmio.c:320 | is the slot step of recycling |
| `RxDriver.Driver.Republish` | src/driver/virt_mmio.c:322 | is the index step of recycling |
| `RxDriver.Driver.Advance` | src/driver/virt_mmio.c:323 | is the step of the second index |
| `RxDriver.Driver.PollRx` | src/driver/virt_mmio.c:267-332 | one turn of the loop takes a completion exactly when one is unreaped: the frame read is the next one received, the length the smaller one of the reported one and the caller's, and the same descriptor is published again; with any device moves at every point it is that run of the protocol |
| `RxDriver.EveryDriver` | src/driver/virt_mmio.c:267-332 | of every driver object that the code brings about: frames read are those received, in order, one per reap; the index test is true exactly when a frame is unread; and the descriptors are split between published, held and completed |
| `PageAllocator.FirstRun` | src/kernel/mem.c:223-237 | the first list entry that starts a free run of the requested length, with no earlier one |
| `PageAllocator.Without` | src/kernel/mem.c:240-250 | the list keeps exactly the pages outside the run |
| `PageAllocator.PagesHoldBytes` | src/kernel/mem.c:203 | the number of pages is that of the bytes: the pages of a run are exactly those that a byte of the request lies in |
| `PageAllocator.GrantHoldsBytes` | src/kernel/mem.c:198-258 | a grant owns exactly the pages that hold its bytes, all of them were free, and exactly they leave the list |
| `PageAllocator.RequestSucceedsIff` | src/kernel/mem.c:198-258 | a request succeeds exactly when its size is positive and a page-aligned range of that many bytes lies in free pages |
| `PageAllocator.OrderDoesNotMatter` | src/kernel/mem.c:218-219 | success depends on the set of free pages only, not on the order of the list |
| `PageAllocator.CountFindsRuns` | src/kernel/mem.c:229-237 | counting list entries in an address range equals the range length exactly when the whole range is free |
| `PageAllocator.AllocTakesOnlyFree` | src/kernel/mem.c:198-258 | a request takes only free pages, so no live page changes its owner |
| `PageAllocator.KeptUntilFreed` | include/kernel/mem.h:45-49 | through any run a page stays with the request that got it until it is freed: live allocations never overlap |
| `PageAllocator.EveryRun` | src/kernel/mem.c:198-273 | after any run of requests and disciplined frees the list has no duplicates, free and live pages partition the heap, and a request succeeds exactly when a page-aligned range of its bytes is free |
| `PageAllocator.FreedBlockIsGrantedAgain` | src/kernel/mem.c:260-273 | whatever ran in between, once all pages that a block's bytes lie in are freed, in any order, the same request succeeds again |
| `PageAllocator.BumpStep` | src/kernel/mem.c:205-254 | on an ascending list a request that fits gets the lowest free page and the list stays ascending; one that does not fit is refused |
| `PageAllocator.BumpRun` | src/kernel/mem.c:32-41 | until the first free, for any heap bounds and any requests, the list is an ascending interval ending at the top of the heap |
| `PageHeap.UnlinkAfter` | src/kernel/mem.c:243-245 | storing an entry's successor in the link that led to it removes exactly that entry from the chain |
| `PageHeap.BeyondHeap` | src/kernel/mem.c:226-228 | skipping a range that ends beyond the heap skips no free run |
| `PageHeap.NoRoom` | src/kernel/mem.c:205-208 | with fewer free pages than asked for there is no run, so the early refusal is right |
| `PageHeap.HeapBounds` | src/kernel/mem.c:23-33 | the bounds of the heap, against the linker symbols: page-aligned, from less than a page above the one to less than a page below the nearer of the two limits |
| `PageHeap.Allocator.constructor` | src/kernel/mem.c:21-42 | for any linker symbols: the heap starts at the first page boundary from the physical address of its symbol on, and ends at the last one that is neither above the stack's nor more than 16 MiB further; an acyclic list of all its pages in ascending order, links inside the pages, count equal to length: a fresh heap |
| `PageHeap.Allocator.BuildList` | src/kernel/mem.c:35-41 | the downward loop builds the ascending list and touches only its pages |
| `PageHeap.Allocator.PushFree` | src/kernel/mem.c:268-271 | puts a page at the head of the chain |
| `PageHeap.Allocator.MemFree` | src/kernel/mem.c:260-273 | NULL, an address outside the heap or an unaligned one changes nothing; otherwise the page, which some request owned, is pushed by its physical address and no longer owned |
| `PageHeap.Allocator.CountRange` | src/kernel/mem.c:229-234 | the inner loop counts the list entries in the byte range |
| `PageHeap.Allocator.FindRun` | src/kernel/mem.c:223-237 | the outer loop finds the first entry that starts a free run, or NULL |
| `PageHeap.Allocator.Unlink` | src/kernel/mem.c:239-250 | the pointer-to-pointer loop leaves a chain of exactly the other entries in their order, writes only pages of the list, and leaves every page a page |
| `PageHeap.Allocator.PopFirst` | src/kernel/mem.c:210-216 | the single-page path takes the head of the list |
| `PageHeap.Allocator.TakeRun` | src/kernel/mem.c:239-251 | removes the run, keeps count and chain in step, and leaves every page a page |
| `PageHeap.Allocator.TakePages` | src/kernel/mem.c:198-258 | what a request does to memory and list: the first run long enough, or nothing; exactly the pages that hold bytes of the grant leave the list |
| `PageHeap.GrantedBytes` | src/kernel/mem.c:198-258 | what a grant is to the client: aligned, inside the heap, every byte in a page that was free and now belongs to this request, and no other page does |
| `PageHeap.Allocator.MemAlloc` | src/kernel/mem.c:198-258 | returns the address of the first list entry that starts a long enough run and is that request of the allocator's account, or NULL; non-NULL exactly if the size is positive and an aligned range of that many bytes is free; every byte of a grant then lies in a page that was free and belongs to this request, which owns no other; pages outside the list are untouched, and every page stays a page |
| `PageHeap.EveryAllocator` | src/kernel/mem.c:9-12 | of every allocator that the code brings about, by any requests and frees: the count is the length of the list, free and live pages partition the heap, and a request succeeds exactly when an aligned range of its bytes is free |
| `Sv39.SamePageSameIndices` | include/kernel/mem.h:23-26 | two addresses agree in all three `PX` indices exactly when they lie in the same virtual page |
| `Sv39.PointerBits` | include/kernel/mem.h:20-22 | the entry for a table page is a legal pointer that the hardware follows to that page |
| `Sv39.TreeFrame` | src/kernel/mem.c:151-174 | translation through a tree of tables depends on the pages of that tree only |
| `PageTable.LeafPteLegal` | src/kernel/mem.c:172-173 | for any flags, the entry `map_page` stores is a leaf the hardware accepts exactly when the flags hold R, or X without W, and the page number fits its field |
| `PageTable.LeafPteFields` | src/kernel/mem.c:172-173 | for any address and any flags, the page number in the entry is that of `pa` or-ed with the bits of the flags above the flag field, and its low ten bits are those of the flags with V set |
| `PageTable.LeafPteAddress` | src/kernel/mem.c:172-173 | such a leaf leads to that page plus the offset |
| `PageTable.AddTable1Walk` | src/kernel/mem.c:162-169 | installing a cleared table in an invalid root entry changes no translation |
| `PageTable.AddTable0Walk` | src/kernel/mem.c:162-169 | likewise one level down |
| `PageTable.SetLeafWalk` | src/kernel/mem.c:171-173 | storing a leaf changes the translation of its page and of no other address |
| `PageTable.MapPageRefines` | src/kernel/mem.c:151-174 | `map_page` refines a map update: under the hardware walk every address in the page of `va` translates to the entry's page, which is that of `pa` for flags inside the flag field, plus its offset, if the leaf is legal, and every other address, gigapages included, as before |
| `PageTable.PlainLeaf` | src/kernel/mem.c:172-173 | flags inside the flag field leave the page number of `pa` as it is |
| `PageTable.MapPageFrame` | src/kernel/mem.c:151-174 | it takes exactly the missing tables from the front of the free list, adds exactly their paths to the tree, and leaves every page that is neither free nor a table |
| `Paging.Follows` | src/kernel/mem.c:158-161 | a valid entry leads the loop to the next table of the tree |
| `Paging.InstallsNext` | src/kernel/mem.c:162-169 | an invalid entry gets the first free page, cleared, as the next table |
| `Paging.TakePage` | src/kernel/mem.c:198-216 | a one-page request pops the first free page or returns NULL; heap bounds and memory stay |
| `Paging.LinkTable` | src/kernel/mem.c:165-168 | clears the new table and links it, changing nothing else |
| `Paging.FollowsShort` | src/kernel/mem.c:158-164 | when too few pages are free the loop reaches an invalid entry with none left |
| `Paging.Descend` | src/kernel/mem.c:152-170 | the loop over levels 2 and 1 opens the path and ends on its level-0 table, or runs out of pages, exactly when more tables are missing than pages are free |
| `Paging.MapPage` | src/kernel/mem.c:151-174 | the code, with its loop, allocator and physical addresses, changes memory, tree and free list exactly as the specification of `map_page`, with one-page requests only; it faults exactly when more tables are missing than pages are free |
| `PageTable.ExhaustedWalk` | src/kernel/mem.c:162-165 | what `map_page` has done when the pages run out changes no translation |
| `Paging.Va2Pa` | src/kernel/mem.c:176-196 | the result is the hardware's translation exactly for canonical addresses whose path ends in a legal leaf, and for all others the hardware faults; 0 where the path ends early, otherwise the entry's page plus the offset |
| `Paging.NonCanonicalAlias` | src/kernel/mem.c:176-196 | 2^39 above a mapped address the hardware faults although `va2pa` finds the same entry |
| `KernelSpace.MapAllCost` | src/kernel/mem.c:78-84 | any sequence of `map_page` calls takes exactly as many pages as it has new level-2 prefixes plus new level-2/level-1 prefixes, and spares all pages outside tree and free list |
| `KernelSpace.MapAllRefines` | src/kernel/mem.c:69-84 | any sequence of `map_page` calls refines the sequence of map updates |
| `KernelSpace.DeviceCost` | src/kernel/mem.c:69-84 | UART and all VirtIO slots cost exactly two table pages on a fresh root |
| `KernelSpace.KernelTableMeaning` | src/kernel/mem.c:117-134 | the finished table maps 0x80000000 to 0xBFFFFFFF and the nine pages from 0x10000000 to themselves, 0xFFFFFFC080000000 to 0xFFFFFFC0BFFFFFFF to the same memory, and nothing else |
| `KernelSpace.DeviceList` | src/kernel/mem.c:69-84 | the calls one by one: the page at 0x10000000 with R, W and X, then the eight pages behind it with R and W, each at its own address |
| `KernelSpace.MemoryMeansItself` | src/kernel/mem.c:117-134 | in the finished table physical memory up to 1 GiB from its base is mapped to itself, and its high-half image to it, so the links inside free pages and the page numbers in tables stay good after `satp` is set |
| `KernelSpace.SatpSwitchKeepsMeaning` | src/kernel/mem.c:97-144 | boot table and `mem_init` table, as functions of the memory, translate every virtual address alike, and building the second leaves the first as it was |
| `KernelBoot.SetupDeviceMappings` | src/kernel/mem.c:69-84 | the UART call and the slot loop are that sequence of mappings; they fault exactly when its cost exceeds the free pages; heap bounds stay |
| `KernelBoot.BuildRoot` | src/kernel/mem.c:123-131 | clears the root and stores the two gigapage entries, leaving the free list intact |
| `KernelBoot.SetupBootTable` | src/kernel/mem.c:86-95 | stores the same two entries in the zeroed boot table |
| `KernelBoot.RelocateKernel` | src/kernel/mem.c:97-115 | builds the heap and the boot table outside it; takes two pages and faults exactly when the heap has fewer; the table gives every address its meaning |
| `KernelBoot.MemInit` | src/kernel/mem.c:117-148 | fails exactly when no page is free, changing nothing; faults exactly on one or two pages; otherwise takes three, writes no other page, the new root translates every address as the kernel map says, and it heads a well-formed tree apart from the free list, as the runs of `KernelMemory` need |
| `KernelBoot.Boot` | src/kernel/mem.c:97-148 | the two routines in sequence: with at least five heap pages both succeed and in the final memory the old and the new `satp` table translate every virtual address alike; with fewer it says how the sequence ends |
| `KernelMemory.StepKeepsInv` | src/kernel/mem.c:151-273 | client requests, frees and writes and `map_page`, in any order, keep free, table and client pages apart |
| `KernelMemory.OnlyMapsTranslate` | src/kernel/mem.c:151-273 | in every such run the translation of every address is the initial one with the run's mappings applied in order: no client activity changes it |
| `KernelMemory.ClientPageKept` | src/kernel/mem.c:151-273 | a client's page keeps its owner and its contents through every run in which nobody frees or writes it, whatever is mapped, allocated and freed meanwhile |
| `KernelMemory.PagesApart` | src/kernel/mem.c:151-273 | after every run each heap page is exactly one of free, table and client |
| `KernelMemory.FromAllocator` | src/kernel/mem.c:9-12 | every allocator of the code with a tree in its memory is a state of that machine |
| `KernelMemory.AllocFor` | src/kernel/mem.c:198-258 | `mem_alloc` is the machine's request, and the pages that hold the bytes of a grant, and no others, become the client's |
| `KernelMemory.FreeFor` | src/kernel/mem.c:260-273 | `mem_free` of a client's page is the machine's free |
| `KernelMemory.MapFor` | src/kernel/mem.c:151-174 | `map_page` is the machine's mapping step, unless it faults |
| `Rv64.StoresWrite` | src/asm/trap.S:26-54 | a block of stores off one base puts each register in its slot |
| `Rv64.StoresLeave` | src/asm/trap.S:26-54 | and changes no register and no doubleword it has no slot for |
| `Rv64.LoadsFill` | src/asm/trap.S:76-106 | a block of loads fills each register from its slot |
| `Rv64.LoadsLeave` | src/asm/trap.S:76-106 | and changes memory and no other register |
| `ContextSwitch.SwtchMoves` | src/asm/process.S:5-38 | leaves ra, sp and s0 to s11 in the old context, takes them from the new one, writes nothing else |
| `ContextSwitch.SwtchByField` | src/asm/process.S:5-38 | register by register: x1, x2, x8, x9 and x18 to x27 land at offsets 0, 8, 16, 24 and 32 to 104 of the old context and come from there in the new one |
| `ContextSwitch.TrapEntrySaves` | src/asm/trap.S:13-67 | puts all 31 registers as they were at the trap, `sstatus`, `sepc`, `scause` and `stval` in the frame, passes its address to the handler, and writes nothing outside it |
| `ContextSwitch.TrapExitRestores` | src/asm/trap.S:70-112 | restores all 31 registers, `sstatus` and `sepc` from the frame |
| `ContextSwitch.PrologueKeeps` | src/asm/trap.S:68 | the handler's entry code keeps ra and s0 to s11 in its own frame |
| `ContextSwitch.EpilogueRestores` | src/asm/trap.S:68 | its exit code restores x1, x8, x9, x18 to x27 and the stack pointer |
| `Preemption.HandlerParks` | src/asm/trap.S:13-68 | inside the handler the interrupted state is in memory and only the process's own stack below its stack pointer has changed |
| `Preemption.HandlerReturns` | src/asm/trap.S:68-71 | a resumed handler returns into the trap vector |
| `Preemption.TrapWithoutSwitch` | src/kernel/process.c:132-134 | an interrupt while no process is current, where yield does nothing, returns to its pc with all 31 registers, and `sstatus` as before but for SPIE and SPP |
| `Preemption.SwitchKeepsInv` | src/kernel/process.c:132-143 | a switch parks one agent, resumes the other exactly and leaves all parked ones |
| `Preemption.ClaimKeepsInv` | src/kernel/process.c:67 | making a slot dispatchable disturbs nobody; its context is still zero |
| `Preemption.WriteKeepsInv` | src/kernel/process.c:82-88 | each of the three parts of the new context (zeros, stack top, entry wrapper) disturbs no other parked agent |
| `Interrupts.TrapAndReturn` | src/asm/trap.S:1-8 | taking a trap clears SIE (bit 1), keeps it in SPIE (bit 5) and sets SPP (bit 8); `sret` takes SIE back from SPIE, sets SPIE and clears SPP; together they change only SPIE and SPP |
| `Preemption.PreemptionIsPossible` | src/kernel/trap.c:106-114 | a process with room on its stack can be preempted exactly when interrupts are enabled; then even a handler that yields at once is an allowed preemption and ends in the scheduler |
| `Preemption.EnabledFollowsTraps` | src/kernel/process.c:93-143 | in every run interrupts are enabled for whoever runs exactly when the last preemption or trap return in it was a return, or there was none and they were enabled at the start |
| `Preemption.DisabledUntilTrapReturn` | src/kernel/process.c:10-27 | after a preemption no process can be preempted until a preempted one is dispatched again |
| `Preemption.FreshStartsDisabled` | src/kernel/process.c:10-27 | a process first dispatched after a preemption has room on its stack and no step preempts it |
| `Preemption.DisabledFromBoot` | src/kernel/main.c:54-79 | a run from boot with two processes and interrupts enabled that ends with such a process on the hart |
| `Preemption.StepKeepsInv` | src/kernel/process.c:42-143 | whatever the running agent does within its rights, parts of creations included, everything parked stays restorable |
| `Preemption.EveryResumptionIsExact` | src/asm/trap.S:13-112 | in every run from `proc_init`, with creations preempted anywhere, each resumption restores what was parked: all 31 registers, `sepc`, and `sstatus` with interrupts enabled after a preemption, the callee-saved registers after a call of `swtch`, the new context at a first dispatch, or, if that was not complete, as much of it as was written, with return address 0, where the run ends |
| `Preemption.PreemptedComesBack` | src/kernel/process.c:93-143 | a process preempted at some pc and dispatched after any run of the others goes on there with the 31 registers it had, and with `sstatus` as it was but for SPIE and SPP, which `sret` sets and clears |
| `Preemption.PreemptedFindsStack` | src/kernel/process.c:93-143 | and finds its stack, from its stack pointer up, as it was |
| `Preemption.CalledComesBack` | src/asm/process.S:5-38 | an agent that called `swtch` and is switched to after any run of the others has x1, x2, x8, x9 and x18 to x27 as they were at its call |
| `Preemption.CalledFindsStack` | src/asm/process.S:5-38 | and finds its whole stack as it left it |
| `Scheduler.FreeSlot` | src/kernel/process.c:45-51 | the first unused slot, or none |
| `Scheduler.StepKeepsInv` | src/kernel/process.c:42-143 | every step, the three parts of a creation and preemptions between them included, keeps one running process, the scan facts, the waiting bound, the slot lives and the order in which slots are taken |
| `Scheduler.SchedulerSafety` | src/kernel/process.c:93-130 | in every run at most one process is RUNNING and none during a scan, the `wfi` branch is unreachable, and the scheduler exits only when all slots are UNUSED or ZOMBIE; creations may be preempted anywhere |
| `Scheduler.BoundedWaiting` | src/kernel/process.c:93-109 | in every run a RUNNABLE process has seen at most NPROC-1 dispatches of others |
| `Scheduler.RoundRobin` | src/kernel/process.c:96-109 | two consecutive dispatches of one slot are exactly one round apart: every other slot is examined exactly once in between |
| `Scheduler.VisitsDispatch` | src/kernel/process.c:96-109 | a slot in use at one moment and not ended at a later one is dispatched by every visit in between |
| `Scheduler.RoundRobinOnce` | src/kernel/process.c:96-109 | between two consecutive dispatches of one slot, every other slot in use at the first and not ended by the second is dispatched exactly once |
| `Creation.WholeCreationsAreSafe` | src/kernel/process.c:42-91 | if no creator loses the hart before its creation is complete, no slot is dispatched without a context and no two creations take one slot |
| `Creation.GuardedRunsAreSafe` | src/kernel/process.c:42-91 | so it is when processes call `proc_create` only with SIE clear |
| `Creation.TornCreationIsLost` | src/kernel/process.c:67-88 | a creator preempted between the two lines is not resumed in any continuation; the scheduler examines at most the slots up to the new one and, if it gets there, dispatches it without a context |
| `Creation.GuardIsExact` | src/kernel/process.c:42-91 | with a free slot ahead, no continuation does harm while the creation is under way if and only if SIE is clear at the call |
| `Creation.ClashIffTaken` | src/kernel/process.c:45-67 | a creator preempted between search and claim takes a slot in use exactly if another creation made it runnable meanwhile |
| `Creation.TornCreationExists` | src/kernel/process.c:67-88 | a run from boot that dispatches a slot without a context |
| `Creation.ClashExists` | src/kernel/process.c:45-67 | a run from boot in which two creations take one slot |
| `TrapWindows.YieldTrapIsFinal` | src/kernel/process.c:132-143 | a process trapped in `yield` after it made itself RUNNABLE never goes on; unless the system is harmed otherwise, it waits and its next dispatch leaves the slot RUNNING with nobody in it, and the scheduler does not return |
| `TrapWindows.NeverReturns` | src/kernel/process.c:111-128 | with such a slot the scheduler never returns and never dispatches it, whatever follows |
| `TrapWindows.YieldTrapHangs` | src/kernel/process.c:111-128 | a run from boot with one process that ends in the `wfi` branch |
| `TrapWindows.CrossedRun` | src/kernel/process.c:99-103 | a run from boot in which a trap overwrites the context of the slot being dispatched |
| `TrapWindows.SafeIffDisabled` | src/kernel/process.c:42-143 | with traps anywhere in the process code, every run is unharmed if and only if interrupts are disabled at the start |
| `Lockstep.Projects` | src/kernel/process.c:42-143 | every run of the kernel is a run of the process table and a run of registers and memory |
| `Lockstep.RunAgrees` | src/kernel/process.c:42-143 | after every run both agree on who has the hart, on SIE, and for every slot on whether it is unused, half created, and parked in a trap |
| `Lockstep.EarlyIsLast` | src/asm/process.S:5-38 | a process has been entered without a complete context exactly if the run ended with that dispatch, and then the return address is 0 |
| `Lockstep.WholeCreationsStartRight` | src/kernel/process.c:81-88 | where creations keep the hart, every first dispatch starts with the entry wrapper, the stack top and zeros |
| `Lockstep.TornCreationIsSeen` | src/kernel/process.c:67-88 | on registers and memory: the preempted creator does not come back, and the dispatch of the new slot loads return address 0 |
| `Lockstep.GuardIsExact` | src/kernel/process.c:42-91 | on the whole system, for a process with room on its stack and a free slot ahead: no continuation does harm while its creation is under way if and only if SIE is clear at the call |
| `ProcessTable.Kernel.constructor` | src/kernel/process.c:29-40 | all slots unused, numbers, stacks and names cleared, no current process: the machine's initial state |
| `ProcessRecords.NewStack` | src/kernel/process.c:58-68 | a page that nobody owned, as the new stack, is no other process's stack |
| `ProcessRecords.StacksApart` | src/kernel/process.c:58-68 | the stacks of different processes do not overlap |
| `ProcessRecords.CopyFromIs` | src/kernel/process.c:71-79 | the name field holds the name up to its NUL, at most 15 characters, then a NUL |
| `ProcessRecords.NameFieldIs` | src/kernel/process.c:71-79 | with a NULL name the field gets a NUL at its start and nothing else; otherwise the name up to its NUL, at most 15 characters, then a NUL, then what was there |
| `ProcessRecords.CopyName` | src/kernel/process.c:71-79 | the copy loop computes that field |
| `ProcessRecords.ZeroReturnAddress` | src/kernel/process.c:66-88 | the return address in the context of a slot in use is 0 exactly while its creation is not complete |
| `ProcessTable.Kernel.FindSlot` | src/kernel/process.c:45-51 | the search loop finds the first unused slot, or none |
| `ProcessTable.Kernel.Search` | src/kernel/process.c:42-56 | the search and its outcome are the first step of a creation and change nothing else |
| `ProcessTable.Kernel.WriteEntry` | src/kernel/process.c:66-79 | number, stack and name of the slot, and nothing else |
| `ProcessTable.Kernel.TakeStack` | src/kernel/process.c:58-79 | takes the first free page as stack and makes the slot RUNNABLE, or ends the creation without a page; the run ends exactly if another creation has taken the slot |
| `ProcessTable.Kernel.WriteContext` | src/kernel/process.c:81-88 | clears the context, stores stack top and entry wrapper: the last step of a creation |
| `ProcessTable.Kernel.ProcCreate` | src/kernel/process.c:42-91 | uninterrupted: makes the first unused slot RUNNABLE, with the first free page as its stack, its number, name and start context, and returns it; with no slot or no page returns none and changes nothing |
| `ProcessTable.Kernel.Complete` | src/kernel/process.c:58-90 | an interrupted creation goes on where it was; it brings the system down only if its slot is in use by then |
| `ProcessLayout.TableLayout` | src/kernel/process.c:5-7 | in every state of the table, contexts and stacks are apart as preemption needs; a slot in use has the start context of a new process there, or zeros while its creation is not complete |
| `ProcessTable.Kernel.Dispatch` | src/kernel/process.c:98-103 | is the dispatch step, with SIE as a resumed trap leaves it; it ends the run exactly if the slot is half made |
| `ProcessTable.Kernel.YieldBack` | src/kernel/process.c:132-143 | is the yield step: RUNNING becomes RUNNABLE, no current process, back in the scan |
| `ProcessTable.Kernel.PreemptBack` | src/kernel/trap.c:106-114 | a timer trap whose handler yields is the preemption step: as `yield`, with SIE clear and the process parked in the trap |
| `ProcessTable.Kernel.FinishUp` | src/kernel/process.c:16-23 | is the end of a process: ZOMBIE, and yield leaves it so |
| `ProcessTable.Kernel.CreateChildren` | src/kernel/process.c:42-91 | the processes created in a turn use up slots and leave the running process as it is |
| `ProcessTable.Kernel.EndTurn` | src/kernel/process.c:42-143 | a turn ends by `yield`, or, while SIE is set, by a trap outside or inside a creation |
| `ProcessTable.Kernel.RunTurn` | src/kernel/process.c:98-108 | one turn, with an interrupted creation behind it and any number of creations in it, lowers the termination measure or brings the system down; not the latter if no creation is or can be interrupted |
| `ProcessTable.Kernel.Pass` | src/kernel/process.c:95-109 | one pass over the table, unless it brings the system down; a pass that found work lowers the measure |
| `ProcessTable.Kernel.AnyActive` | src/kernel/process.c:113-119 | true exactly when some slot is neither UNUSED nor ZOMBIE |
| `ProcessTable.NothingActive` | src/kernel/process.c:111-127 | after a pass that found nothing no slot is active, so the loop exits |
| `ProcessTable.Kernel.RunScheduler` | src/kernel/process.c:93-130 | with processes of finitely many turns, which may create others in every turn and be preempted in it and inside creations, the scheduler ends: it returns with every used slot ZOMBIE after exactly the turns of its program, or an interrupted creation has brought it down, which is excluded when no program is interrupted in a creation or SIE is clear |
| `TimerHandoff.EnterEffect` | src/asm/mtrap.S:7-25 | entry saves t0, t1, t2, a0, a7 on the M-mode stack and leaves the cause in t1 |
| `TimerHandoff.ArmEffect` | src/asm/mtrap.S:38-54 | the arming call sets `mtimecmp`, clears STIP, sets MTIE and steps over the ecall |
| `TimerHandoff.RaiseEffect` | src/asm/mtrap.S:77-84 | the timer interrupt clears MTIE and sets STIP |
| `TimerHandoff.LeaveEffect` | src/asm/mtrap.S:86-98 | exit reloads the registers and `mscratch` |
| `TimerHandoff.MTrapEffect` | src/asm/mtrap.S:7-98 | every handled trap restores all registers and `mscratch`, changes memory only on its stack and in `mtimecmp` and of the CSRs only `mepc`, and does exactly its hand-off: cause 9 with call number 0 writes a0 to 0x2004000, clears bit 5 of `mip` and sets bit 7 of `mie`, the timer interrupt does the reverse with the bits; it panics exactly on other causes and calls |
| `TimerHandoff.StepKeepsInv` | src/asm/mtrap.S:7-98 | arming, time, interrupts and S-mode work, writes of `sie` and `sip` included, keep the hand-off invariant |
| `TimerHandoff.HandoffHolds` | src/asm/mtrap.S:38-84 | in every run, with S-mode writing `sie` and `sip` as it does, exactly one of MTIE and STIP is set after the first arming, each arming raises STIP at most once and not before its deadline, and arming calls and timer interrupts never panic |
| `TimerHandoff.EventsAre` | include/kernel/timer.h:6-13 | in every reachable state: `set_timer` puts time plus interval, modulo 2^64, into `mtimecmp` and hands the timer to M-mode, and a due interrupt hands it back and is the signal of the last arming |
| `TimerHandoff.ArmedTimerSignals` | src/kernel/trap.c:106-114 | an armed timer whose deadline has passed does raise STIP, and the handler's next arming withdraws it |
| `Transparency.Transparent` | src/asm/mtrap.S:7-98 | M-mode timer interrupts, any number of them between any two instructions of S-mode code that keeps to its own memory and CSRs, leave registers, CSRs and its memory as the uninterrupted sequence does |
| `Transparency.SwtchInterrupted` | src/asm/process.S:5-38 | so it is for `swtch` |
| `Transparency.EntryInterrupted` | src/asm/trap.S:13-67 | for the entry of the trap vector |
| `Transparency.ExitInterrupted` | src/asm/trap.S:70-112 | and for its exit |
| `Devicetree.ReadsBack` | src/kernel/utils.c:96-105 | a big-endian field reads back as the number written |
| `Devicetree.StringLenIs` | src/kernel/utils.c:11-21 | the length found for a name is that up to its first newline or its end |
| `Devicetree.AlignsUp` | src/kernel/utils.c:90-94 | from a 4-aligned field the pointer alignment is the padding of the format |
| `Devicetree.UnitInside` | src/kernel/dtb.c:13-37 | reading the unit address stays inside the block, also for a name without `@` |
| `Devicetree.WalkProp` | src/kernel/dtb.c:80-113 | a property gives one callback with its value and length, unless empty, and the walk goes on behind its padding |
| `Devicetree.WalkName` | src/kernel/dtb.c:68-79 | behind a name the walk goes on where the name, cut at its first newline, would end |
| `Devicetree.UnsafeNameStops` | src/kernel/dtb.c:120-123 | a newline that changes the padded length makes the walk stop at an unknown token, without a callback |
| `Devicetree.WalkBlock` | src/kernel/dtb.c:59-125 | over an encoded block with safe names the walk makes exactly the expected calls and stops at its end; otherwise it stops at an unknown token |
| `Devicetree.DocumentOrder` | src/kernel/dtb.c:59-125 | the tokens of a tree, NOPs anywhere, list its non-empty values in document order |
| `Devicetree.TraverseIsExact` | src/kernel/dtb.c:39-128 | for every serialised tree the walk reads inside the block; it calls back once per non-empty property, in document order, pointing at the right bytes, and ends exactly at the end, if and only if every name is safe; otherwise it ends at an unknown token |
| `Devicetree.PlainNamesAreSafe` | src/kernel/utils.c:14-18 | names without a newline are safe |
| `Devicetree.BlobHolds` | src/kernel/dtb.c:42-54 | every block has a blob whose header the walker accepts |
| `Devicetree.OneNodeWalk` | src/kernel/dtb.c:59-125 | on the blob of a one-node tree the walk ends at an unknown token exactly when the name is not safe |
| `Devicetree.UnsafeNameExists` | src/kernel/utils.c:15 | a blob on which the walk ends at an unknown token: the tree whose one node is named newline, a, b, c |
| `DevicetreeWalker.Be2Le` | src/kernel/utils.c:96-105 | the loop reverses the four bytes |
| `DevicetreeWalker.SwapReadsBe` | src/kernel/utils.c:96-105 | reversing a little-endian load of a field gives its big-endian value |
| `DevicetreeWalker.ReadField` | src/kernel/dtb.c:42-61 | header fields and tokens are read as big-endian numbers |
| `DevicetreeWalker.StrLen` | src/kernel/utils.c:11-21 | the loop computes the length: up to the first NUL or newline, or none before the end |
| `DevicetreeWalker.ParseUnitName` | src/kernel/dtb.c:13-37 | the two loops compute the unit address that `Digits.UnitAddressIs` describes |
| `DevicetreeWalker.FdtTraverse` | src/kernel/dtb.c:39-128 | refuses exactly a block without the magic number 0xd00dfeed; otherwise the token loop makes the calls and ends as the walk |
| `Digits.PrintHex64` | src/kernel/uart.c:112-119 | prints `0x` and 16 characters, the i-th the one of value `v / 16^(15-i) % 16` in 0123456789ABCDEF |
| `Digits.PrintedAddressReadsBack` | src/kernel/dtb.c:13-37 | for every 64-bit value those digits behind an `@` are read back as the value |
| `Digits.UnitAddressIs` | src/kernel/dtb.c:13-37 | for every input: from the first `@` or NUL on, any number of hexadecimal digits in either case; ended by a NUL they give their sum weighted by powers of 16, modulo 2^64 (exact for 16 digits), ended by another character 16 times that, and the end of the block is a fault |
| `Digits.StopsNowhere` | src/kernel/dtb.c:18-21 | without `@` and NUL the search itself runs into the end |
| `Digits.FillDigits` | src/kernel/uart.c:78-84 | twenty cells suffice, and the digits, lowest first, denote the number |
| `Digits.PrintBackwards` | src/kernel/uart.c:87-89 | prints the buffer from its last cell to its first |
| `Digits.PrintDec64` | src/kernel/uart.c:72-90 | for every 64-bit number the printed digits denote it, at most 20 of them, without a leading zero |

## Left out

- Device negotiation and queue setup (`virt_mmio_negotiation`, `virt_mmio_setup_queue`): a fixed sequence of register writes with no state between calls.
- Failure of the queue allocations in `virt_mmio_net_virtq_init`: the drivers start after both have succeeded.
- The byte layout of ring structures and descriptors: descriptors are records, and no claim is made about the wire format.
- Packet building in `virt_mmio_net_tx` and the printing of received frames: what is built there is not what is sent, and printing is display only.
- Progress of the polling loops: it depends on the device; one turn of each loop is modelled.
- TLB and memory barriers: stores are seen in program order by device and walker, which the barriers are there to ensure.
- Page permissions and the A and D bits: translation gives an address or a fault.
- `Paging.MapPage`: takes the no-superpage assumption as a precondition, because the code does not test for leaves.
- `KernelBoot.MemInit`: what the access fault handler does on one or two pages is not modelled; the run ends there.
- `ContextSwitch.PrologueKeeps`: stands for the compiled code of the C handler, which is not part of this model; it saves ra and all callee-saved registers at the bottom of one frame, as the calling convention allows.
- `ContextSwitch.EpilogueRestores`: likewise for the handler's exit code.
- `Preemption.EveryResumptionIsExact`: the layout gives each slot the stack it gets in the run; memory is addressed by doublewords; traps inside dispatch and `yield` are in `TrapWindows`, for the process table only.
- `ProcessTable.Kernel.ProcCreate`: processes are created by the boot code before the scheduler starts or by a running process; the entry pointer is the child's program.
- `ProcessTable.Kernel.StartCreation`: a trap between the allocation of the stack and the claim of the slot counts as one before the allocation; the two differ only in who gets which page.
- What the kernel does after a jump to address 0, or with a slot that two creations have taken, or with an overwritten context: runs end there.
- `handle_exception`, register dumps, the weak empty handlers, and the dispatch in `trap_handler` on causes other than the timer: no state that the properties speak of.
- Masking of interrupts inside the allocator: its routines are atomic here.
- `dtb_callback`, `string_comp`, `h2i`, `mem_copy`, `mem_set` and `mem_compare`: easy or off the path; the callback is the list of calls made.
- Boot code and linker script: their results are initial conditions.
- UART, MMIO and `wfi` effects: output is a sequence of characters, and notifications to the device are left out because the device may move at any time.
