# A verified model of the kernel's memory and thread management

This project models three connected parts of an OS/161 kernel with demand
paging, in its FINAL configuration (page table, on-demand loading, swap and
coremap all on), and proves what they promise.

**Demand paging.** `vm_fault` ties the coremap, the linked page table, the
swap slots with the swapfile, and the TLB together. `demand.dfy` gives the
fault handler as a function on those tables, with the faults its own copies
to and from user memory raise nested inside it and the TLB flushed at any
point of a copy; `frames.dfy`, `swaptable.dfy`, `tlbtable.dfy`,
`vmstats.dfy`, `pagetable.dfy` and `vmsystem.dfy` are the same handler over
arrays and linked lists changed in place, each method proved to compute that
function. `soundness.dfy` and `paging.dfy` show that a whole fault equals one
atomic step; `transparency.dfy` that the step changes no page's contents;
`kernel.dfy`, `usersteps.dfy`, `spaces.dfy`, `refinement.dfy` and `runs.dfy`
that a machine of many address spaces and kernel blocks refines a flat memory
over whole runs; `definitions.dfy` where segments and stack lie in a program's
memory; `counters.dfy` and `kindlaws.dfy` what the statistics come to after
any run; `fifo.dfy` that eviction is first in, first out; `tlbreplacement.dfy`
which TLB slot a write takes; `loading.dfy` when page-by-page loads amount to
the whole segment.

**Kernel heap.** `kheap.dfy` specifies `kmalloc` and `kfree` over the frame
allocator, with the invariant that `heapalloc.dfy` and `heapfree.dfy` show
they keep; `heapsuccess.dfy` says when an allocation succeeds and with which
address, `heapconserve.dfy` what `kfree` gives back and that no frame is lost;
`kheapruns.dfy` adds disjointness and whole runs; `jointruns.dfy` and
`jointconserve.dfy` put the heap and demand paging on the same frames, over
every interleaving of both; `recordleak.dfy` is the run in which `kfree`
fails; `kmallocator.dfy`
is the allocator over page records with index links, a bit table, counters
and the words of the blocks, changed in place.

**Threads.** `threadlist.dfy` is the sentinel list over linked nodes,
`threads.dfy` the run queues, wait channels, zombies and migration as a
transition system over any number of processors, with `threadsteps.dfy`,
`migrationsteps.dfy` and `threadruns.dfy` on what its steps and runs keep and
`threadeffects.dfy` on who is woken, waits or runs next; `migration.dfy` is
one undisturbed migration and its loops, `migrationruns.dfy` shows that the
steps of a processor left alone amount to it; `semaphore.dfy` is semaphores
under every interleaving, `interrupts.dfy` and `interruptruns.dfy` the interrupt
accounting of one processor and of all of them. `uio.dfy` is the transfer
loop of `uiomove`.

Where the code does not do what its comments or checks say:

- The printed statistics checks can fail. `tlbR`, when it finds the victim in
  the TLB, counts the fault as "with free" a second time; it finds it unless a
  flush closes the victim's write-out. A fault outside every segment is
  counted and then fails. The first check comes out exactly when there are as
  many of the one as of the other, the second when there is none of the other
  (`Balance.CounterLaws`; `Balance.SqueezeFails` and `Balance.StrayFails` are
  runs in which they fail, `KindLaws.EachCounter` gives every other counter).
- `vm_fault` reads as many bytes from the program file as the segment has in
  memory, so data after the file part of a segment shows up where zeros
  should be (`Loading.ElfImage`, `Loading.ElfImageDiffers`).
- Defining a segment over a page already in memory or in swap hides the old
  page table entry for good (`Spaces.PrependCoherent`).
- A segment shorter than a page that straddles two, or whose file offset and
  address differ within their pages, is loaded wrongly
  (`Loading.LoadsTileSegment`, `Loading.BadlyPlaced`).
- `allocpageref` marks a record before it has a page for it and does not
  unmark it when there is none; 256 such failures make a later `kfree` of a
  live block fail an assertion (`HeapFreeing.KfreeInv`, `RecordLeak.RootLeaks`,
  `RecordLeak.KfreeCanFail`).
- `uiomove` moves a block whole even when it reaches past the residual count,
  which then wraps around (`Uio.CountsTruly`, `Uio.CountWraps`).
- `frame_kalloc(0)` returns the address of a frame it does not claim
  (`Frames.FrameTable.FrameKalloc`).

Parameters and conventions: the number of TLB slots, the stack top, the size
of RAM and of the swap space and the first managed address are arbitrary; a
panic, a null dereference and an out-of-range access are results, shown not
to happen; byte moves by file system and copy routines are atomic, with any
sequence of TLB flushes and accesses around them. A record's two list links
in the heap are slot numbers with -1 for null.

## Model

| member | source | states |
|---|---|---|
| `Runs.PagingIsInvisible` | kern/vm/vm.c:308-411 | Paging is transparent over every run: loads, kills, results and final memory are those of a flat memory with no frames, swap or TLB, until memory and swap run out |
| `Refinement.StepRefines` | kern/vm/vm.c:308-411 | Every single operation (user load or store, TLB flush, switch, segment definition, destruction, kernel block) is the same operation on flat memory and keeps the invariant |
| `UserSteps.UserRefines` | kern/vm/vm.c:223-411 | A user load returns, and a user store changes, exactly the byte flat memory has at that address; an uncovered address is an EFAULT and a store to a read-only segment the read-only panic, never anything else |
| `UserSteps.AccessKeeps` | kern/vm/vm.c:308-411 | What an access can end in: served, EFAULT exactly outside every segment, read-only only on a read-only segment, no victim, swap full; never a missing slot, a bad index or a fault nested too deep |
| `Runs.BootedInv` | kern/vm/coremap.c:24-55 | The tables as the kernel sets them up satisfy the invariant and show an empty flat memory |
| `Balance.CounterLaws` | kern/vm/vm_stats.c:65-106 | After any run from boot, with F the accesses outside every segment, counted on flat memory from the operations alone, and R the evictions whose write-out no TLB flush closes: Faults = Reloads + Disk + Zeroed + F, Disk = ELF + Swap, Free + Replace = Faults - F + R, Writes = evictions; printed check 1 comes out exactly when R = F, check 2 exactly when F = 0, check 3 always |
| `Balance.UserRoom` | kern/vm/vm.c:348-351 | A user access stops the kernel for want of room exactly when its page is out of memory and cannot be loaded; otherwise the tally grows by what the page table says |
| `KindLaws.EachCounter` | kern/vm/vm_stats.c:46-106 | After any run from boot each counter by itself: swapped-in pages count as Swap, first touches as ELF or Zeroed by whether their segment has a file, every flush of an address space's TLB, those inside copies included, as an invalidation; Replace counts the TLB writes that found neither their page nor an invalid slot, and there is none since the last flush while no more pages than slots have been mapped since |
| `KindLaws.FaultGains` | kern/vm/vm.c:353-398 | What one fault adds to Zeroed, ELF, Swap and invalidations |
| `Balance.SqueezeFails` | kern/vm/tlb.c:30-47 | On any kernel with one spare frame, a program that touches two pages makes check 1 fail with no fault failed |
| `Balance.StrayFails` | kern/vm/vm.c:327-329 | A single access outside every segment makes checks 1 and 2 fail |
| `Balance.FlushedNeverReuse` | kern/vm/addrspace.c:103-123 | When a flush closes every write-out, `tlbR` never finds the victim |
| `Runs.KernelBlockFixed` | kern/vm/coremap.c:124-206 | After any run every block recorded at its head is inside the coremap and all FIXED with no owner |
| `Runs.KernelBlocksApart` | kern/vm/coremap.c:124-206 | After any run no two such blocks share a frame |
| `Runs.UserStepMoves` | kern/vm/vm.c:338-405 | A user step changes the coremap only by the one page-in of its page, and memory only in frames its own address space owns |
| `Fifo.EvictionIsFifo` | kern/vm/coremap.c:227-258 | Over every run each address space loses its pages in exactly the order it loaded them, and its frames hold the pages loaded since, oldest stamp first |
| `Fifo.VictimIsHead` | kern/vm/coremap.c:227-258 | The frame `cm_evict` scans out is the head of the address space's queue by load time |
| `Fifo.LoadQueue` | kern/vm/coremap.c:162-180 | A load appends the page to its address space's queue and, when it evicts, removes the head |
| `Fifo.OtherInOrder` | kern/vm/coremap.c:227-258 | A load leaves the order of every other address space as it was |
| `Fifo.KernelFramesKept` | kern/vm/coremap.c:162-258 | No operation but a free of its own block or a store to it changes a FIXED frame, neither its record nor its bytes |
| `Soundness.NestedFault` | kern/vm/vm.c:333-344 | A fault raised while the kernel copies to or from a page whose frame is LOADING takes the in-memory branch at any depth, and only maps the page, writable |
| `Soundness.ReadKeeps` | kern/vm/swap.c:75-108 | A copy out of a user page delivers its frame and changes only the TLB and balanced counters, whatever TLB flushes and nested faults surround it, and leaves the page in the TLB unless a flush closes it |
| `Soundness.WriteKeeps` | kern/vm/vm.c:373-398 | A copy into a user page changes that page's frame only, and never meets a read-only mapping |
| `Soundness.WriteSound` | kern/vm/tlb.c:50-101 | `tlbW` leaves no page with two entries and every entry agreeing with its page table entry; a mapping has been replaced since the last flush only if more pages than slots have been mapped since |
| `TlbReplacement.WritePlaces` | kern/vm/tlb.c:50-101 | `tlbW` changes one slot: the page's own, else an invalid one, with no other page's mapping lost and Free alone counted; only when no slot is invalid the one at the pointer, whose mapping alone is lost, with Replace alone counted and the pointer moved on |
| `TlbReplacement.RoundRobin` | kern/vm/tlb.c:20-26 | As many replacements in a row as there are slots overwrite each slot exactly once and leave the pointer where it was |
| `TlbReplacement.WritesInTurn` | kern/vm/tlb.c:92-100 | Fewer replacements in a row overwrite the slots from the pointer on, in turn |
| `TlbReplacement.ReusePlaces` | kern/vm/tlb.c:30-47 | `tlbR` changes the victim's slot alone, and nothing when it has none |
| `Paging.ReuseSound` | kern/vm/tlb.c:30-47 | `tlbR` leaves no entry for the victim; the new page, if it gets the slot, is mapped writable for its copy |
| `Paging.SwapOutEffect` | kern/vm/swap.c:75-108 | `swap_out` panics exactly when no slot is vacant, and otherwise puts the victim's bytes in the first vacant slot and changes nothing else but TLB and counters; the victim is then in the TLB exactly when no flush closes the copy |
| `Paging.GetFrameEffect` | kern/vm/vm.c:200-216 | A frame is had exactly when one is free, or there is a victim and a slot for it; the victim is then in its slot, its entry marked, its frame the new page's, and the copy into it can begin |
| `Paging.EvictFails` | kern/vm/coremap.c:241-243 | Without a victim or without a slot the kernel panics, and says which |
| `Paging.SwapInEffect` | kern/vm/swap.c:37-66 | `swap_in` fills the frame with the page's own block and vacates its slot |
| `Paging.FirstTouchEffect` | kern/vm/vm.c:373-405 | A first touch leaves the frame with the page's initial image: zeros, or zeros with the bytes of its load |
| `Paging.FinishEffect` | kern/vm/vm.c:362-363 | Ending a load marks the frame CLEAN and maps the page with its segment's permission, leaving the TLB sound |
| `Paging.PageInEffect` | kern/vm/vm.c:345-405 | A page-in with all its copies, flushes and nested faults equals one atomic step on the tables, with the page mapped under its segment's permission |
| `Paging.FaultReload` | kern/vm/vm.c:333-344 | A fault on a page in memory changes only the TLB and the counters, which stay balanced |
| `Paging.FaultLoad` | kern/vm/vm.c:345-405 | A fault on a page out of memory succeeds whenever there is room, does the atomic page-in, and keeps every counter equation |
| `Paging.FaultNoRoom` | kern/vm/vm.c:348-351 | With no room the fault panics for lack of a victim or of swap, and in no other way |
| `Transparency.FaultTransparent` | kern/vm/vm.c:308-411 | One fault with everything nested in it: EFAULT exactly outside every segment, a panic exactly when a page out of memory finds no room, and otherwise the page in memory and mapped under its permission, tables coherent, TLB sound, counters as balanced as before, and no page of the address space changed |
| `Transparency.NetCoherent` | kern/vm/vm.c:346-375 | After a load in-memory entries and owned frames correspond one to one, swapped entries and held slots one to one, and no entry is both |
| `Transparency.NetTables` | kern/vm/coremap.c:162-272 | After a load every record is well formed and live frames carry distinct timestamps below the clock |
| `Transparency.NetContents` | kern/vm/vm.c:346-398 | A load changes the contents of no page of its address space: not the one loaded, not the victim, not any other |
| `Transparency.NetUndisturbed` | kern/vm/coremap.c:227-258 | A load touches no frame and no slot of another address space |
| `Transparency.TargetFrame` | kern/vm/coremap.c:162-180 | The frame a load takes is a free one or the address space's own CLEAN frame, never a FIXED one |
| `Spaces.FreeAllEffect` | kern/vm/addrspace.c:92-101 | After `as_destroy` no frame and no swap slot names the address space, and every other address space is untouched |
| `Spaces.DestroyFlat` | kern/vm/addrspace.c:92-101 | Destroying an address space removes it from flat memory and changes no other |
| `Spaces.NewSpace` | kern/vm/addrspace.c:54-70 | A new address space starts with no pages, also when it gets the name of a destroyed one |
| `Spaces.PrependCoherent` | kern/vm/addrspace.c:145-193 | A definition keeps the address space coherent if and only if none of the new segment's pages is in memory or in swap |
| `Spaces.PrependFlat` | kern/vm/addrspace.c:145-193 | A definition adds the segment's pages with their initial images to flat memory and changes no other page |
| `Spaces.RegionKeeps` | kern/vm/addrspace.c:145-193 | Defining a program segment shows in flat memory as new pages with their images: the parts of one copy of the whole segment where it is well placed, else what each page's own load brings |
| `Spaces.StackKeeps` | kern/vm/addrspace.c:234-268 | Defining the stack keeps the invariant and is the same definition on flat memory |
| `Definitions.StackLies` | kern/vm/addrspace.c:234-268 | After `as_define_stack` a page is new, zero and writable if and only if it is one of the 18 pages below the top; every other page and every other program is as it was |
| `Definitions.StackServes` | kern/vm/addrspace.c:234-268 | A load from those 18 pages then returns 0, and one anywhere else, the top included, what it would have returned before |
| `Definitions.RegionLies` | kern/vm/addrspace.c:145-193 | After `as_define_region` exactly the pages with bytes of the region, and the page of its address, are new, writable as asked; in a well-placed region each byte is the program file's byte at the same distance from the offset, or 0 |
| `Spaces.ResumeKeeps` | kern/vm/addrspace.c:103-123 | A switch, with its TLB flush, changes no page of any address space |
| `Spaces.KernelAllocKeeps` | kern/vm/coremap.c:124-157 | Allocating a kernel block is invisible to every program and keeps every table invariant |
| `Spaces.KernelFreeKeeps` | kern/vm/coremap.c:184-206 | So is freeing one |
| `AddressSpace.SearchAgrees` | kern/vm/vm.c:314-332 | The bounded per-segment search and the full scan of `pt_update` find the same entry, the search never runs off the list, and both fail exactly when no segment covers the page; holds for overlapping segments too |
| `AddressSpace.PrependLaid` | kern/vm/addrspace.c:162-193 | The page table stays the concatenation of the segments' chains, in list order |
| `AddressSpace.PrependFirst` | kern/vm/addrspace.c:162-193 | Where each page is found after a definition |
| `Loading.LoadsTileSegment` | kern/vm/vm.c:165-195 | The page-by-page loads equal one copy of the whole segment if and only if file offset and address agree within their pages and a segment shorter than a page stays in one page (or is empty) |
| `Loading.LoadsDisjoint` | kern/vm/vm.c:390-398 | No two pages load the same address |
| `Loading.WellPlacedIsLocal` | kern/vm/vm.c:165-195 | Every load stays within its page |
| `Loading.BadlyPlaced` | kern/vm/vm.c:165-195 | For a segment not so placed, an address that is loaded wrongly |
| `Loading.InitialIsRegion` | kern/vm/vm.c:373-398 | The image a page gets on first touch is its part of the whole-segment image |
| `Loading.ElfImage` | kern/vm/vm.c:391-392 | Since as many bytes are read from the file as the segment has in memory, the image is the one the ELF header asks for if and only if the file holds only zeros, or ends, between file size and memory size |
| `Loading.ElfImageDiffers` | kern/vm/vm.c:391-392 | A file and a segment for which the images differ |
| `Coremap.LowestRun` | kern/vm/coremap.c:124-157 | The run found is of free frames, and no lower one exists |
| `Coremap.Oldest` | kern/vm/coremap.c:227-258 | The frame found is evictable and no evictable one is older; none is found only if none is older than the clock |
| `Coremap.BlocksDisjoint` | kern/vm/coremap.c:139-150 | Blocks recorded at their heads never share a frame |
| `Coremap.ClaimKeepsBlocks` | kern/vm/coremap.c:139-150 | A new block leaves the others alone and is disjoint from them |
| `Coremap.ReleaseKeepsBlocks` | kern/vm/coremap.c:184-206 | `frame_kfree` frees exactly the block at the address |
| `Coremap.ReleaseUndoesClaim` | kern/vm/coremap.c:124-206 | Freeing a block just allocated restores the coremap exactly |
| `Frames.FrameTable.constructor` | kern/vm/coremap.c:24-55 | `cm_bootstrap` builds the boot table |
| `Frames.FrameTable.FrameKalloc` | kern/vm/coremap.c:124-157 | Returns the lowest run of that many free frames and claims exactly it, 0 exactly when there is none; for 0 frames claims nothing and returns the first free frame's address |
| `Frames.FrameTable.FrameKfree` | kern/vm/coremap.c:184-206 | Frees the frames of the block at the address and no others |
| `Frames.FrameTable.FrameAlloc` | kern/vm/coremap.c:162-180 | Takes the first free frame, 0 exactly when there is none |
| `Frames.FrameTable.CmEvict` | kern/vm/coremap.c:227-258 | Unhooks the oldest evictable frame of the address space |
| `Frames.FrameTable.CmAsfree` | kern/vm/coremap.c:210-223 | Frees every frame of the address space that is not FIXED |
| `SwapTable.SwapFile.Take` | kern/vm/swap.c:82-95 | Takes the first vacant slot, or none when all are held |
| `SwapTable.SwapFile.Give` | kern/vm/swap.c:43-54 | Vacates the first slot of the page, or none |
| `SwapTable.SwapFile.SwapAsfree` | kern/vm/swap.c:128-138 | Vacates every slot of the address space |
| `TlbTable.TlbRegisters.Write` | kern/vm/tlb.c:50-101 | Rewrites the page's own slot, else the first invalid one, else the round-robin victim, and counts which |
| `TlbTable.TlbRegisters.Reuse` | kern/vm/tlb.c:30-47 | Hands the victim's slot to the page, counting it exactly when there is one |
| `TlbTable.TlbRegisters.Flush` | kern/vm/addrspace.c:115-119 | Invalidates every slot |
| `PageTable.AddrSpace.BuildChain` | kern/vm/addrspace.c:168-184 | The chain of new entries, linked in order |
| `PageTable.AddrSpace.DefineRegion` | kern/vm/addrspace.c:145-193 | The linked lists after `as_define_region` hold the new segment and its chain in front of what they held; a region of no pages, which has no chain to hook on, is reported |
| `PageTable.AddrSpace.DefineStack` | kern/vm/addrspace.c:234-268 | The same for the stack |
| `PageTable.AddrSpace.Update` | kern/vm/pt.c:23-35 | Marks the first entry of the page as swapped out and no other |
| `PageTable.AddrSpace.FindSegment` | kern/vm/vm.c:314-325 | The first segment that covers the address |
| `PageTable.AddrSpace.FindPage` | kern/vm/vm.c:331-411 | The bounded walk over the linked entries, with the count it ends on |
| `VmSystem.Vm.VmFault` | kern/vm/vm.c:223-411 | Between faults: EFAULT exactly outside every segment, a panic only for want of a victim or of swap, and otherwise every table coherent, the TLB sound and every page of the address space as it was |
| `VmSystem.Vm.EvictFor` | kern/vm/vm.c:200-216 | `handle_victim_and_swapout` over arrays and lists |
| `VmSystem.Vm.FirstTouch` | kern/vm/vm.c:373-398 | The first touch of a page |
| `VmSystem.Vm.Reload` | kern/vm/vm.c:333-344 | The in-memory branch |
| `VmSystem.Vm.PageIn` | kern/vm/vm.c:345-405 | Both branches that load a page |
| `VmSystem.Vm.Fault` | kern/vm/vm.c:223-411 | `vm_fault` over the arrays and linked lists computes the function the theorems are about, for every table, schedule and depth |
| `VmSystem.Vm.SwapOut` | kern/vm/swap.c:75-108 | `swap_out` over the arrays |
| `VmSystem.Vm.SwapIn` | kern/vm/swap.c:37-66 | `swap_in` over the arrays |
| `VmSystem.Vm.AsDestroy` | kern/vm/addrspace.c:92-101 | `as_destroy` over arrays and lists |
| `VmSystem.Vm.AsActivate` | kern/vm/addrspace.c:103-123 | `as_activate`: flush and count |
| `KHeapRuns.HeapKept` | kern/vm/kmalloc.c:1166-1219 | The heap invariant holds after every sequence of allocations, frees of live blocks and paging activity |
| `HeapAllocation.KmallocInv` | kern/vm/kmalloc.c:1166-1199 | `kmalloc` never panics; what it returns was not live, lies in the smallest class that fits or in whole pages, and every block of every heap page is then again free or live |
| `HeapSuccess.BigSucceeds` | kern/vm/kmalloc.c:1178-1191 | `kmalloc` of 2048 bytes or more returns NULL if and only if no run of as many free frames as the size takes pages exists; else the address of the lowest such run, which alone becomes FIXED |
| `HeapSuccess.SmallSucceeds` | kern/vm/kmalloc.c:914-977 | `kmalloc` of less returns NULL if and only if no page of the smallest class that fits has a free block and, besides, no frame is free, or no record is unmarked, or the first unmarked record's root has no page and no second frame is free; else the head of the first free list of the class, or the last block of a page in the lowest free frame |
| `HeapSuccess.RefSucceeds` | kern/vm/kmalloc.c:256-298 | `allocpageref` fails if and only if every record is marked, or the first unmarked one's root has no page and no frame is free |
| `HeapFreeing.KfreeInv` | kern/vm/kmalloc.c:1207-1219 | `kfree` of any live block goes to the layer that produced it, frees that block alone, and fails if and only if the block is the last of its page and an earlier root has marked records but no page |
| `RecordLeak.KfreeCanFail` | kern/vm/kmalloc.c:304-318 | A run from the booted kernel in which that failure happens: the records of one root used up, 256 allocations in vain while a program leaves one frame free, the program gone, then one block handed out and freed |
| `RecordLeak.RootLeaks` | kern/vm/kmalloc.c:256-298 | In every state with one frame free and no block free, with the first root without a page of records and all before it full, 256 allocations fail and mark every record of that root |
| `RecordLeak.LeakOne` | kern/vm/kmalloc.c:256-298 | Each of them gets its page, gets no page of records, gives the page back and leaves the record marked |
| `HeapFreeing.PageReturned` | kern/vm/kmalloc.c:1137-1144 | A heap page goes back to the frame allocator exactly when its last live block is freed |
| `HeapConservation.BigFreed` | kern/vm/kmalloc.c:1213-1218 | `kfree` of a block of whole pages frees exactly its frames |
| `HeapConservation.SmallFreed` | kern/vm/kmalloc.c:1109-1146 | `kfree` of a small block puts it at the head of its page's list, or, as the last of its page, frees the page's frame and its record; nothing else changes |
| `HeapConservation.KmallocConserves` | kern/vm/kmalloc.c:1166-1199 | After `kmalloc`, also one that fails half way, every kernel block is a heap page, a page of records or a live block, and every FIXED frame but the coremap's own is in one |
| `HeapConservation.KfreeConserves` | kern/vm/kmalloc.c:1207-1219 | So it is after `kfree` |
| `JointConservation.NoFrameLost` | kern/vm/kmalloc.c:874-1219 | After any run of the heap and demand paging from boot in which every block has been freed again, the only frames still FIXED are the coremap's own and the pages of records |
| `HeapAllocation.AllocRefInv` | kern/vm/kmalloc.c:256-298 | `allocpageref` returns a record nobody has, on an existing page of records, and keeps every page |
| `HeapFreeing.FullList` | kern/vm/kmalloc.c:1136-1138 | The free count reaches the number of blocks exactly when every block is free |
| `HeapAllocation.FreshOk` | kern/vm/kmalloc.c:990-1002 | The list made for a fresh page names each of its blocks once |
| `KHeap.BlockType` | kern/vm/kmalloc.c:853-867 | The smallest class whose blocks hold the size |
| `KHeapRuns.LiveDisjoint` | kern/vm/kmalloc.c:914-959 | Two live blocks never overlap, whole extents included |
| `KHeapRuns.FreeApartFromLive` | kern/vm/kmalloc.c:926-942 | A free block never overlaps a live one |
| `KHeapRuns.LiveIsKernel` | kern/vm/coremap.c:139-150 | Every byte of a live block is in a FIXED frame |
| `KHeapRuns.StoreKeepsLists` | kern/vm/kmalloc.c:926-942 | A store anywhere in a live block leaves every in-page free list threaded as it was |
| `JointRuns.SharingKept` | kern/vm/coremap.c:124-258 | Over every interleaving of `kmalloc`, `kfree` of live blocks, stores to them and paging operations, the paging invariant and the heap invariant hold on the frames they share, and flat memory follows the paging operations alone |
| `JointRuns.BlockBytesKept` | kern/vm/coremap.c:124-258 | Over every such run a live block that is not freed stays live and keeps every byte not stored to |
| `JointRuns.StepOk` | kern/vm/kmalloc.c:1166-1219 | Each step of such a run keeps both invariants; one of the heap is invisible to programs |
| `JointRuns.PagingIsElsewhere` | kern/vm/coremap.c:162-258 | Demand paging never changes a heap page or a large block, record or byte |
| `JointRuns.AllocMoves` | kern/vm/vm.c:121-136 | The heap's `alloc_kpages` is an invisible step of the paging kernel |
| `JointRuns.FreeMoves` | kern/vm/vm.c:138-153 | So is its `free_kpages` |
| `Kmallocator.Allocator.Kmalloc` | kern/vm/kmalloc.c:1166-1199 | `kmalloc` over records, index links, bit table and block words computes the specified allocation and keeps every list consistent |
| `Kmallocator.Allocator.Kfree` | kern/vm/kmalloc.c:1207-1219 | `kfree` likewise for a live block; nothing happens for the null pointer, and a panic for an address that fails its checks |
| `Kmallocator.Allocator.SubpageKmalloc` | kern/vm/kmalloc.c:874-1018 | `subpage_kmalloc`: the first page of the class with room, else a fresh one |
| `Kmallocator.Allocator.FreeOnPage` | kern/vm/kmalloc.c:1074-1146 | `subpage_kfree` once the page is found |
| `Kmallocator.Allocator.TakeBlock` | kern/vm/kmalloc.c:926-943 | The head of the in-page list, followed through the words of the blocks |
| `Kmallocator.Allocator.PushBlock` | kern/vm/kmalloc.c:1111-1133 | The block back at the head of the in-page list |
| `Kmallocator.Allocator.ThreadPage` | kern/vm/kmalloc.c:988-1002 | The words of a fresh page |
| `Kmallocator.Allocator.LinkPage` | kern/vm/kmalloc.c:980-1011 | A fresh page at the front of both lists |
| `Kmallocator.Allocator.RemoveLists` | kern/vm/kmalloc.c:824-845 | Both lists without the page, in the same order; each size list stays the pages of its class |
| `Kmallocator.Allocator.AllocRef` | kern/vm/kmalloc.c:256-298 | `allocpageref` over the bit table; each root's count stays its number of set bits |
| `Kmallocator.Allocator.FreeRef` | kern/vm/kmalloc.c:304-337 | `freepageref`, and exactly when its assertion fails |
| `Kmallocator.Allocator.FindFreePage` | kern/vm/kmalloc.c:914-924 | The search of a size list finds the first page of the class with room |
| `Kmallocator.Allocator.FindPageOf` | kern/vm/kmalloc.c:1064-1078 | The search of the list of all pages |
| `Semaphores.NoLostWakeup` | kern/thread/synch.c:89-135 | In every run of any number of threads: count = initial + completed Vs - completed Ps when the lock is free; while a thread sleeps the count is at most the woken threads that have not rechecked, plus one while a V that has counted holds the lock; the lock has one holder |
| `Semaphores.StepInv` | kern/thread/synch.c:89-135 | Every step of `P`, `V` and wakeup keeps that invariant |
| `Semaphores.NeverOverdrawn` | kern/thread/synch.c:113-114 | No more `P`s complete than the initial count and the `V`s allow |
| `Semaphores.SomebodyCanMove` | kern/thread/synch.c:89-135 | A thread inside an operation and not asleep means some step is possible |
| `Semaphores.WhoWakes` | kern/thread/synch.c:99-135 | A thread goes to sleep exactly by testing a count of 0, last on the channel; `V` wakes exactly the first sleeper, if any; the count changes by exactly one per `V` and per successful test |
| `Semaphores.WokenInOrder` | kern/thread/thread.c:1023-1039 | Over every run sleepers are woken in the order in which they went to sleep |
| `ThreadLists.ThreadList.AddHead` | kern/thread/threadlist.c:162-170 | The listed threads with the new one first |
| `ThreadLists.ThreadList.AddTail` | kern/thread/threadlist.c:172-180 | .. last |
| `ThreadLists.ThreadList.RemHead` | kern/thread/threadlist.c:182-198 | The first thread, or null exactly on an empty list |
| `ThreadLists.ThreadList.RemTail` | kern/thread/threadlist.c:200-216 | The last thread, or null exactly on an empty list |
| `ThreadLists.ThreadList.InsertAfter` | kern/thread/threadlist.c:218-224 | The new thread right after the given one |
| `ThreadLists.ThreadList.InsertBefore` | kern/thread/threadlist.c:226-232 | .. right before it |
| `ThreadLists.ThreadList.Remove` | kern/thread/threadlist.c:234-240 | The list without the thread, whose node is loose again |
| `ThreadLists.ThreadList.InsertAfterNode` | kern/thread/threadlist.c:105-119 | The splice, with the count |
| `ThreadLists.ThreadList.InsertBeforeNode` | kern/thread/threadlist.c:125-139 | The splice, with the count |
| `ThreadLists.ThreadList.RemoveNode` | kern/thread/threadlist.c:144-155 | The unsplice, with the count |
| `ThreadLists.ThreadList.constructor` | kern/thread/threadlist.c:60-72 | An empty list |
| `ThreadLists.ThreadList.IsEmpty` | kern/thread/threadlist.c:91-97 | Empty exactly when no thread is listed |
| `ThreadLists.OnceOnly` | kern/thread/threadlist.c:105-155 | No thread is on a list twice, and one with a loose node is on none |
| `ThreadLists.ListsDisjoint` | kern/thread/threadlist.c:105-155 | Two lists never share a thread |
| `ThreadRuns.ThreadsKept` | kern/thread/thread.c:449-1072 | From boot, over every interleaving of fork, yield, sleep, exit, dispatch, reap, wakeone, wakeall and migration no assertion fails, no null thread is used, and the invariant holds |
| `ThreadRuns.StepInv` | kern/thread/thread.c:449-1072 | Every step keeps it |
| `ThreadRuns.ExactlyOnePlace` | kern/thread/thread.c:594-648 | Every thread is at one position of one list or running on one processor; no two processors have the same current thread, even while idle |
| `ThreadRuns.ThreadsConserved` | kern/thread/thread.c:491-549 | Threads appear only by fork and go only when a zombie is reaped |
| `ThreadEffects.GrabTakesAll` | kern/thread/thread.c:1050-1061 | The first loop of `wchan_wakeall` empties the channel into its private list, in order, and changes nothing else |
| `ThreadEffects.WakesHead` | kern/thread/thread.c:449-479 | `thread_make_runnable` of the head of a list of sleepers: it is ready at the tail of its own processor's queue, and nothing else changes |
| `ThreadEffects.WakeOneWakes` | kern/thread/thread.c:1023-1039 | `wchan_wakeone` does that to the first sleeper of the channel |
| `ThreadEffects.WakeAllWakes` | kern/thread/thread.c:1045-1072 | A whole undisturbed `wchan_wakeall` leaves every old sleeper of the channel ready on its own processor's queue, in order, and touches no other thread |
| `ThreadEffects.ForkQueues` | kern/thread/thread.c:491-549 | A forked thread is ready at the tail of the forking processor's queue |
| `ThreadEffects.LeaveQueues` | kern/thread/thread.c:594-648 | A yield with nobody queued changes nothing; else the thread goes, ready, asleep or a zombie, to the tail of the queue, the channel or the zombies |
| `ThreadEffects.DispatchRuns` | kern/thread/thread.c:651-700 | The thread at the head of the queue runs next |
| `ThreadEffects.YieldIsRoundRobin` | kern/thread/thread.c:804-808 | Yielding is round robin: every queued thread runs once, in order, before the first runs again |
| `ThreadSteps.ReapAsserts` | kern/thread/thread.c:293-303 | What `exorcise` asserts holds: the zombie is a zombie and not the current thread |
| `MigrationSteps.SendToKept` | kern/thread/thread.c:886-928 | The inner migration loop never finds the victims empty, under concurrent changes of other queues, and never fills a queue beyond the share |
| `MigrationSteps.TakeVictimsQueues` | kern/thread/thread.c:874-882 | The victims are the tail of the caller's queue, in order |
| `MigrationSteps.ReturnQueues` | kern/thread/thread.c:931-942 | The leftovers go back to the caller's queue, in order |
| `MigrationExact.MigrationOutcome` | kern/thread/thread.c:844-947 | Undisturbed, with k the least number such that k threads on each processor make room for all queued ones: a caller with fewer moves nothing; else it keeps the first k, followed by its current thread if that is among the rest; every other thread of the rest is on another queue; the others only grow, and not beyond k |
| `MigrationSteps.CeilLeast` | kern/thread/thread.c:865-865 | `one_share` is that least number |
| `MigrationSteps.DecideTakes` | kern/thread/thread.c:865-882 | A processor that counted fewer threads of its own than that stops; else the threads beyond it, from the tail of its queue in order, become the victims, whatever other processors have done since the count |
| `MigrationRuns.AloneIsWhole` | kern/thread/thread.c:844-947 | The steps of a processor that migrates with no other step in between amount to that undisturbed migration |
| `MigrationExact.SpareEnough` | kern/thread/thread.c:868-873 | A share that makes room for all threads leaves room on the other processors for every victim |
| `MigrationExact.Scheduler.ConsiderMigration` | kern/thread/thread.c:844-947 | The loops of `thread_consider_migration` compute that migration |
| `Interrupts.Processor.SplRaise` | kern/thread/spl.c:86-104 | Counts, and turns interrupts off on the first raise |
| `Interrupts.Processor.SplLower` | kern/thread/spl.c:106-124 | Uncounts, and turns interrupts on exactly when the count reaches 0 |
| `Interrupts.Processor.Splx` | kern/thread/spl.c:131-160 | Sets the level, returns the old one, keeps the account |
| `Interrupts.Processor.Acquire` | kern/thread/spinlock.c:74-115 | Takes the lock with interrupts off and the account kept |
| `Interrupts.Processor.Release` | kern/thread/spinlock.c:120-134 | Gives it up with the account kept |
| `Interrupts.Processor.SwitchTo` | kern/thread/thread.c:664-728 | The lock one thread took is released by the next; the old thread can be resumed, the new one has the level it had |
| `Interrupts.ForkState` | kern/thread/thread.c:530-536 | A forked thread can be resumed like a switched-out one |
| `InterruptRuns.AccountingHolds` | kern/thread/spl.c:86-160 | In every state of every run from boot the running thread's count is the spinlocks held or awaited plus one if its level is high, interrupts are off exactly when it is positive, and every other thread has count 2 |
| `InterruptRuns.HandOff` | kern/thread/thread.c:664-757 | After any switch the new thread can release the run queue lock and lower its level, and then has count 0, no spinlock and interrupts on |
| `InterruptRuns.LockedMeansOff` | kern/thread/spinlock.c:75-95 | A processor that holds or awaits a spinlock has its interrupts off |
| `InterruptRuns.SplxSets` | kern/thread/spl.c:131-160 | `splx` sets the level and nothing else; interrupts are then on exactly at low level without spinlocks |
| `InterruptRuns.SplxUndone` | kern/thread/spl.c:131-160 | Setting the old level again restores the state exactly |
| `InterruptRuns.AcquireTakes` | kern/thread/spinlock.c:74-115 | A free spinlock is taken with interrupts off, one spinlock and one count more, and is then the processor's |
| `InterruptRuns.ReleaseUndoes` | kern/thread/spinlock.c:120-134 | Giving it up again restores the state exactly |
| `InterruptRuns.HeldIsNotTaken` | kern/thread/spinlock.c:92-107 | While another processor holds the lock it cannot be taken, and stays that processor's until it gives it up |
| `Uio.Transfer.Uiomove` | kern/lib/uio.c:41-119 | Whatever the residual count: moves as many bytes as both sides have, in order, or up to where the count comes to 0 between two blocks; adjusts count, offset and blocks by that number, the count as a 32-bit number; runs out of buffers exactly when more is asked for than the blocks hold and the count does not stop it, never when the count is the total |
| `Uio.CountsTruly` | kern/lib/uio.c:58-116 | The residual count goes down by what is moved, without wrapping, if and only if it is no less than both sides have or comes to 0 between two blocks |
| `Uio.CountWraps` | kern/lib/uio.c:58-116 | One block of 8 bytes and a count of 4, for which it wraps |
| `Uio.Transfer.Uiomovezeros` | kern/lib/uio.c:121-144 | Moves as many zeros as both sides have, when the residual count covers them; runs out of buffers exactly when both the caller and the count ask for more |
| `Uio.TransfersCompose` | kern/lib/uio.c:58-116 | Two transfers, the second where the first stopped, are one, in both directions |
| `Uio.ScatterExact` | kern/lib/uio.c:77-88 | With no address twice, every byte arrives and nothing else changes |
| `Uio.FlatBound` | kern/lib/uio.c:60-66 | Every address of a valid transfer is in range |

## Left out

- Timestamps and thread ids are unbounded numbers; the wrap-around of the 32-bit timestamp and of 32-bit addresses is not modelled.
- Two address spaces are not interleaved inside one fault: `swap_in` frees its slot before it reads the block, which another address space could overwrite meanwhile.
- Runs take program segments whose loads each stay within their page; a load that crosses into the next page would page in inside a page-in, and is modelled as a crash that runs exclude. `Loading.LoadsTileSegment` covers all segments.
- Runs define a segment before any of its pages has been touched; a definition over touched pages loses coherence (`Spaces.PrependCoherent`), and what programs then see is not modelled.
- `as_define_region` with no pages uses an uninitialised pointer: `PageTable.AddrSpace.DefineRegion` reports it and does nothing, runs take at least one page.
- The result of `load_page_from_elf` is ignored by `vm_fault`; a short read leaves zeros, as in the code. ELF header checks are not modelled.
- `as_copy`, `as_prepare_load`, TLB shootdown between processors, and the configurations without page table or on-demand loading: stubs or dead code here.
- Failure of `kmalloc` for page table entries, segments, threads and lists is not modelled.
- Allocation before the coremap exists (`ram_stealmem`) is not modelled: runs of the heap start empty at the booted coremap, where the kernel's already has a page of records.
- `kmalloc` and `kfree` are atomic: the windows in which they drop their lock around `alloc_kpages` and `free_kpages` are not interleaved.
- Guard bands, labels and the filling of freed blocks with a pattern are compiled out or do not touch the free lists. A word of the record bit table is a group of 32 booleans.
- Locks, condition variables and `schedule()` are unimplemented in the source. `lock_acquire` and the rest are stubs.
- `thread_panic`, shutdown, starting secondary processors, stack checking and interprocessor interrupts are not modelled; that an idle processor is eventually woken is not stated.
- The thread transition system has no spinlocks: what a processor does while it holds a run queue or channel lock is one step. The locks themselves are in `Semaphores` and `InterruptRuns`.
- Interrupts taken inside `cpu_idle` appear as steps of the thread transition system, not in the interrupt accounting.
- `Interrupts.Processor.Acquire`: starts where the lock is found free; the spinning itself is the step `StartAcquire` of `InterruptRuns`.
- `Uio.Transfer.Uiomove`: kernel addresses only, and a buffer apart from the blocks' memory; the user-space branch, where a copy can fail, is not modelled.
- `Uio.Transfer.Uiomovezeros`: takes a residual count that covers what is moved; a smaller one can stop it at a multiple of 16 bytes as well as between two blocks.
- `Kmallocator.Allocator.Kfree`: takes live blocks, the null pointer and addresses its own checks catch; a double free or a stray pointer that passes the checks is not covered.
