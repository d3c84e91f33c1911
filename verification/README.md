# HaydenOS: a verified model of the kernel's stateful core

HaydenOS is a small x86-64 kernel. This project models the parts of it that are
hardest to get right, in the form the source gives them (static variables become the
fields of a class, loops stay loops, pointers into shared memory stay pointers into
shared memory), and proves what the rest of the kernel relies on.

`dafny verify dfyconfig.toml` checks everything. The modules follow the source files:

| modules | models | what is proved about it |
|---|---|---|
| `MemDef`, `PfAlloc` | frame allocator | each allocation takes the least usable frame never issued, or the pool's head; the free list lives inside the free frames; every usable frame is ahead, free or out |
| `Bits`, `PageTree`, `PageTable`, `DirectMap` | 4-level page table, demand paging, direct map of physical memory | the tree of frames refines a flat map from pages to entries, and the demand pages a flat map from pages to contents; every frame handed out has exactly one owner; what a page may be used for is the meet of the rights on its path, and new tables leave the pages that were there theirs; the direct map reaches all usable memory, writable and not executable, and stays |
| `HeapAlloc`, `KmallocHeap`, `KmallocSteps`, `KmallocPages`, `HeapMemory`, `Kmalloc` | kernel heap and its allocator | list nodes and headers, overlaid on the memory that is handed out, never meet a live payload; all of it lies on pages that are pending or hold a frame of their own, and every word the allocator or a client reads or writes is the word of the frame that the page tables lead to |
| `StackAlloc` | thread stacks | mapped stack pages are exactly those of live stacks; guard pages never are; the clients of the heap may go on meanwhile |
| `RoundRobin`, `ProcQueue`, `Scheduler`, `ProcModel`, `Proc` | run queue, wait queues, process life cycle | exact round-robin distance; over every run of the kernel each thread is in one place, each switch goes to the next thread of the ready queue, and a ready thread waits for a bounded number of switches; the linked queues refine the sequences |
| `ContextLayout`, `Threads` | creation and exit of threads with their memory | every thread has a context block and a stack that no other thread shares; both go when it exits; a new context holds, at the offsets that C and the context switch agree on, what enters the thread |
| `CircBuff`, `Serial`, `SerialSteps`, `SerialSystem`, `SerialRuns`, `SerialFaults`, `SerialCalls`, `SerialDriver`, `Keyboard`, `KeyboardDriver` | ring buffer, UART driver, keyboard, blocking protocol | FIFO refinement; over every interleaving of threads and interrupts: no lost wake-up of keyboard readers, which get exactly the keys that found room, and a call that writes to the serial port returns with its whole text accepted; for the serial driver exactly which interleavings keep the order and strand no writer; each step is one of the real driver |
| `Fat`, `LongName`, `DirRecord`, `ReadDir`, `Vfs` | FAT32 reader and path lookup | reading is slicing the clusters of the data area that the FAT chains; directories written there as records are listed as they were written; when a path's lookup can be relied on |
| `Wrappers`, `CString`, `Numerals`, `Printk` | strings, numerals and formats | numerals and numbers are in bijection; a format composed of texts and conversions prints them one behind the other, each number by its C type's value |
| `Multiboot` | boot loader tags | when the kernel's own sections are kept from the frame allocator |

The memory layers are stacked: `ThreadTable` runs on `ProcTable` and on `ThreadStacks`,
which runs on `Allocator`, which runs on `KernelHeap`, `AddressSpace` and
`FrameAllocator`, and each layer's invariant contains those below it. Classes hold real
state; ghost fields (`nodes`, `owner`, `view`, `pool`, `words`, `layout`, ...) describe it
and are tied to it by `Valid()`. The concurrent parts are step systems over a value that
`Proc.ProcTable` is proved to implement.

Where the code does not do what is expected of it, the model keeps the code and a lemma
states exactly when it does: see the members whose names end in `Iff`. Concrete
failures are `PfAlloc.ExhaustionIssuesForeignFrame`, `Kmalloc.HugeRequest`,
`Kmalloc.TerabyteRequest` and `Kmalloc.HugeArray`, `StackAlloc.StackInKernelText`,
`SerialFaults.LostInterrupt` and `SerialFaults.Overtaking`, `LongName.StaleTail` and, for
the call of FS_inode_for_path on a file missing from its directory,
`Vfs.MissingFileFindsDirectory`.

## Model

| member | source | states |
|---|---|---|
| MemDef.PackUnpack | src/kernel/mem/page_table.c:23-38 | the bit-field view of an entry loses nothing of the raw word |
| MemDef.UnpackPack | src/kernel/mem/page_table.c:23-38 | a raw word read through the bit-fields gives back the entry that was stored |
| PfAlloc.RangeContainsIff | src/kernel/mem/pf_alloc.c:31-34 | the wrapping one-comparison test is start <= addr < end when start <= end; inverted ranges accept the complement |
| PfAlloc.BumpIssuesLeast | src/kernel/mem/pf_alloc.c:83-111 | while a usable frame is left, the bump path issues the least one: in a region, outside both reserved ranges, never issued before |
| PfAlloc.BumpStaysInListIff | src/kernel/mem/pf_alloc.c:88-95 | an allocation stays inside the list of regions exactly when a usable frame was left |
| PfAlloc.ExhaustionIssuesForeignFrame | src/kernel/mem/pf_alloc.c:88-95 | on a one-frame machine the second allocation neither panics nor returns memory: it returns address 0 |
| PfAlloc.FreeListPush | src/kernel/mem/pf_alloc.c:36-48 | writing the old head into the freed frame's first word prepends that frame to the list |
| PfAlloc.FreeListFrame | src/kernel/mem/pf_alloc.c:14-20 | the free list depends on no memory but the free frames themselves |
| PfAlloc.FrameAllocator.constructor | src/kernel/mem/pf_alloc.c:66-70 | the initial state is in order, with nothing issued |
| PfAlloc.FrameAllocator.PushFreePf | src/kernel/mem/pf_alloc.c:36-48 | the frame leaves the frames that are out and heads the pool; no other frame's contents change |
| PfAlloc.FrameAllocator.PopFreePf | src/kernel/mem/pf_alloc.c:50-64 | delivers the pool's head, or reports an empty pool and changes nothing |
| PfAlloc.FrameAllocator.PfAlloc | src/kernel/mem/pf_alloc.c:73-112 | never returns a frame that is out; takes the pool's head if there is one, else the least usable frame ahead of the pointer |
| PfAlloc.FrameAllocator.BumpFromRegions | src/kernel/mem/pf_alloc.c:83-111 | the goto loop terminates and computes the recursive specification `Bump` |
| PfAlloc.FrameAllocator.PfFree | src/kernel/mem/pf_alloc.c:115-119 | any address inside a frame that is out gives that frame back, and one more frame can be allocated |
| PageTree.PathOfIff | src/kernel/mem/page_table.c:46-53 | two canonical addresses split into the same four indices exactly when they lie in the same page |
| PageTree.PathSpells | src/kernel/mem/page_table.c:46-53 | the four indices, the PML4's first, are the digits to base 512 of the page number within 48 bits |
| PageTree.HugeSlotIff | src/kernel/include/memdef.h:6-9 | an address goes through PML4 slot 256 exactly when it lies in the direct map |
| PageTree.Exclusive | src/kernel/mem/page_table.c:62-90 | no table has two parents, no two pages share a demand frame, no demand frame is a table |
| PageTree.TablesUnchanged | src/kernel/mem/page_table.c:62-90 | writes to frames that are not tables change no page's entry |
| PageTree.LinkKeeps | src/kernel/mem/page_table.c:81-90 | hanging a fresh zeroed table below an absent entry keeps the tree in order and every page's leaf entry |
| PageTree.LinkRights | src/kernel/mem/page_table.c:81-90 | a new table changes what the tables above a page allow only for pages that could not be looked up before, and there takes nothing but what its link does not grant |
| PageTree.LinkDirect | src/kernel/mem/page_table.c:81-90 | hanging a new table into the tree touches neither slot 256 nor the direct map's table |
| PageTree.LeafKeeps | src/kernel/mem/page_table.c:108-110 | writing a leaf entry changes that one page of the flat map and keeps the tree and its owners in order |
| PageTree.LeafDirect | src/kernel/mem/page_table.c:108-110 | nor does writing a leaf entry |
| PageTree.ViewStores | src/kernel/mem/page_table.c:152-165 | as no two pages share a frame, a store into one page's frame changes the contents of that page alone |
| PageTree.ViewLoses | src/kernel/mem/page_table.c:233-254 | a frame that is given up, and overwritten by the free list's link, takes the contents of its own page only |
| PageTable.RawEntryFields | src/kernel/mem/page_table.c:108-110 | the raw store of phys and flags, field by field: present, write, user and execute rights, the allocated mark and the frame number are where the bit-field accessors look for them, and all other bits are zero |
| PageTable.OrIsSum | src/kernel/mem/page_table.c:110 | the disjunction of a page-aligned physical address and the flags word is their sum and fits 64 bits, so the raw store is `RawEntry` |
| Bits.OrSplit | src/kernel/mem/page_table.c:110 | the disjunction of two numbers splits at any bit into those of their high and their low parts |
| PageTable.AddressSpace.constructor | src/kernel/mem/page_table.c:313-317 | a new top-level table maps no page; on an untouched allocator it is the least usable frame |
| DirectMap.MapPhysicalMemory | src/kernel/mem/page_table.c:264-289 | every physical address in the gigabytes up to the end of the last region is reached through the direct map at its own offset, to read and write but not to execute and not from ring 3, and nothing behind them, through the new top-level table and the boot loader's; no page of the tree changes |
| DirectMap.DirectStays | src/kernel/mem/page_table.c:94-111 | in every state that the address space reaches from then on, through mappings, faults, releases, stores and allocations, the direct map is as it was made |
| DirectMap.FrameIsReached | src/kernel/mem/page_table.c:272-275 | each byte of each frame that the allocator may hand out is reached, writable and not executable |
| DirectMap.MappedTarget | src/kernel/mem/page_table.c:256-262 | an address of the direct map leads to its own offset, with those rights, exactly below the gigabytes mapped so far |
| DirectMap.SetupPml4 | src/kernel/mem/page_table.c:313-320 | from an untouched allocator: an address space without pages, with the direct map in place, and no frame lost |
| PageTable.AddressSpace.AllocateTable | src/kernel/mem/page_table.c:62-66 | a zeroed frame that nobody else holds |
| PageTable.AddressSpace.GetOrAllocTable | src/kernel/mem/page_table.c:81-90 | the table below the entry; an absent entry gets exactly the write and user rights of the request and no other bit, and a present one keeps all its fields; no page's leaf entry changes, and pages that could be looked up keep what their tables allow |
| PageTable.PageRights | src/kernel/mem/page_table.c:94-111 | once a page's leaf is written with a mapping's rights, its four levels together allow exactly what its tables did before the call, as far as there were any, and the mapping asks for |
| PageTable.AddressSpace.MapPage | src/kernel/mem/page_table.c:94-111 | the page's leaf entry becomes phys and flags; its rights are the meet of the flags' and of what its path allowed, tables created by the call allowing what the flags do; every other page keeps its entry, even if up to three tables are created; NULL maps nothing |
| PageTable.AddressSpace.MapRange | src/kernel/mem/page_table.c:115-125 | exactly ceil(size / 4096) consecutive pages get consecutive frames; all other pages keep their entries, and pages that could be looked up keep what their tables allow |
| PageTable.RangeCoveredIff | src/kernel/mem/page_table.c:121-124 | the count is the least number of pages that hold size bytes, and an unaligned range is covered to its last byte exactly when its offset into the first page leaves room in the pages counted |
| PageTable.AddressSpace.UserAllocateRange | src/kernel/mem/page_table.c:128-137 | the pages become pending, with the given write and execute rights, and usable from ring 3 and writable as far as the tables that were there before allow; on a path whose tables the call creates that is what was asked for; others are unchanged |
| PageTable.AddressSpace.GetPageFrame | src/kernel/mem/page_table.c:140-149 | on any page with a page table, the walk ends at the very slot map_page writes |
| PageTable.AddressSpace.PageFault | src/kernel/mem/page_table.c:152-184 | a pending page gets a frame nobody holds, with what that frame contains, and becomes present; no other page's contents change; any other fault changes nothing |
| PageTable.AddressSpace.FreePfFromVirtualAddr | src/kernel/mem/page_table.c:233-254 | a present demand page's frame heads the pool and its contents are gone, a pending page loses its mark, and no other page or its contents change |
| PageTable.AddressSpace.AllocFrame | src/kernel/mem/pf_alloc.c:73-112 | a direct caller holds a frame that had no owner |
| PageTable.AddressSpace.FreeFrame | src/kernel/mem/pf_alloc.c:115-119 | a held frame goes back to the pool and no page is affected |
| PageTable.AddressSpace.Store | src/kernel/mem/page_table.c:152-165 | a store into a demand page changes that one word of that page's contents, no other page's, and no table and no other frame |
| PageTable.AddressSpace.Load | src/kernel/mem/page_table.c:140-149 | a load from a demand page delivers that word of the page's contents |
| PageTable.AddressSpace.Conserved | src/kernel/mem/pf_alloc.c:36-119 | in every reachable state a usable frame is ahead of the pointer, in the pool exactly once, or owned by exactly one table, page or caller |
| HeapAlloc.HeapPathIff | src/kernel/include/memdef.h:6-9 | an address goes through PML4 slots 257 to 510 exactly when it lies in the heap region |
| HeapAlloc.KernelHeap.AllocPage | src/kernel/mem/heap_alloc.c:9-24 | the page at the break becomes pending, with an entry that lets the kernel write and nobody execute, and the break moves over it, or 0 when the region is used up; nothing outside the heap changes |
| HeapAlloc.KernelHeap.AllocPages | src/kernel/mem/heap_alloc.c:26-36 | as many consecutive pages from the old break on as the region has room for become pending, and no other page changes |
| HeapAlloc.FittingFits | src/kernel/mem/heap_alloc.c:9-36 | all the pages asked for are mapped exactly if they end inside the region |
| HeapAlloc.KernelHeap.FreePage | src/kernel/mem/heap_alloc.c:38-50 | the page keeps neither frame nor mark, all other pages are kept; addresses outside the heap are refused |
| HeapAlloc.KernelHeap.FreePages | src/kernel/mem/heap_alloc.c:52-59 | exactly those pages are released |
| HeapAlloc.KernelHeap.Touch | src/kernel/mem/page_table.c:152-165 | the first access to a heap page gives it a frame of its own |
| KmallocHeap.PoolFor | src/kernel/lib/kmalloc.c:24-32 | the least size class that holds the request with its header, or none |
| KmallocHeap.Separation | src/kernel/lib/kmalloc.c:76-104 | a live payload is 16-byte aligned, inside its block or run, and shares no word with another payload, a header or a list node |
| KmallocHeap.PayloadWrite | src/kernel/lib/kmalloc.c:9-22 | any store of a client into its own payload keeps the whole heap invariant and every other payload |
| KmallocHeap.FreedWrite | src/kernel/lib/kmalloc.c:9-22 | a store into a free block behind its first word keeps the whole heap invariant and every payload |
| KmallocHeap.MetaFrame | src/kernel/lib/kmalloc.c:9-22 | the allocator relies on its own words only |
| HeapMemory.PokeWords | src/kernel/mem/page_table.c:140-165 | a store through the page tables is a store of that one heap word |
| HeapMemory.TouchWords | src/kernel/mem/page_table.c:152-165 | a page that gets a frame adds its 512 words, as the frame has them, and changes none |
| HeapMemory.TouchedIff | src/kernel/mem/page_table.c:152-165 | a heap word is there exactly if its page is not pending |
| KmallocSteps.PopKeeps | src/kernel/lib/kmalloc.c:67-73 | taking a block and stamping its header keeps the heap invariant |
| KmallocSteps.PushKeeps | src/kernel/lib/kmalloc.c:114-119 | giving a block back, over its first header word, keeps the heap invariant |
| KmallocSteps.CarveKeeps | src/kernel/lib/kmalloc.c:39-65 | a fresh page's blocks, linked by nodes at their starts, become the pool's free list and overlap nothing |
| KmallocSteps.BlocksSpread | src/kernel/lib/kmalloc.c:48-58 | the blocks of a page are inside it, aligned, in order and disjoint |
| Kmalloc.NumPagesIff | src/kernel/lib/kmalloc.c:35-37 | the int result is the page count exactly up to MAX_FULL (just under 8 TiB) |
| Kmalloc.PoolAccounting | src/kernel/lib/kmalloc.c:39-73 | avail is the list's length, and the blocks carved for a pool are its free and its live ones, disjointly |
| Kmalloc.Allocator.Poke | src/kernel/mem/page_table.c:140-165 | each store of the allocator goes to the frame behind the page tables and changes that one word of the heap |
| Kmalloc.Allocator.TouchPage | src/kernel/mem/page_table.c:152-184 | an access to a pending page takes one frame and keeps every word that was there |
| Kmalloc.Allocator.PayloadTouched | src/kernel/lib/kmalloc.c:67-73 | a pool's block lies in one page, which its header's store has touched, so its payload takes no page fault |
| Kmalloc.RestrictKeeps | src/kernel/lib/kmalloc.c:132-134 | what vanishes with a run's frames is no word that the allocator or another allocation relies on |
| Kmalloc.KmallocHoldsIff | src/kernel/lib/kmalloc.c:76-104 | what the code hands out, by a sum that wraps and a page count cut to an int, holds header and request exactly if the size is at most MAX_FULL - 16, just under 8 TiB |
| Kmalloc.HugeRequest | src/kernel/lib/kmalloc.c:76-80 | a request for 2^64 - 16 bytes is taken for one of no bytes at all and gets a block of the smallest pool |
| Kmalloc.TerabyteRequest | src/kernel/lib/kmalloc.c:35-37 | a request for 16 TiB gets one page, and one for 8 TiB, whose count is negative, none |
| Kmalloc.KcallocHoldsIff | src/kernel/lib/kmalloc.c:108-112 | what kcalloc gets for its wrapping product holds the array exactly if the true product is at most MAX_FULL - 16 |
| Kmalloc.HugeArray | src/kernel/lib/kmalloc.c:108-112 | an array of 2^32 elements of 2^32 bytes gets a block with room for the header alone, and one of 2^22 elements of 2^22 bytes a page |
| Kmalloc.Allocator.AllocateBlocks | src/kernel/lib/kmalloc.c:39-65 | an empty pool gets a page of blocks, touched by the first store; live allocations and all memory below the old break are untouched |
| Kmalloc.Allocator.CarvePage | src/kernel/lib/kmalloc.c:48-58 | each block of the page starts with a pointer to the next, the last with NULL |
| Kmalloc.Allocator.PopAndStamp | src/kernel/lib/kmalloc.c:67-73 | the pool's head becomes live and holds its pool and size |
| Kmalloc.Allocator.Kmalloc | src/kernel/lib/kmalloc.c:76-104 | a new live allocation in the smallest pool that fits, or in exactly the pages it needs from the old break on; all other payloads keep their contents; at most one frame is taken beside those for tables |
| Kmalloc.Allocator.Kcalloc | src/kernel/lib/kmalloc.c:108-112 | as kmalloc, all other payloads kept included, and every byte of the array is zero, those of a last partial word too |
| Kmalloc.Allocator.Clear | src/kernel/lib/string.c:3-14 | the n bytes from the payload's start become zero and no other byte changes, with at most one page fault for each page of a run behind the first and none for a block |
| Kmalloc.Allocator.PushBlock | src/kernel/lib/kmalloc.c:114-119 | the block heads the pool it was taken from |
| Kmalloc.Allocator.Kfree | src/kernel/lib/kmalloc.c:123-138 | a block returns to its pool and one word changes; a run releases exactly its own pages; NULL does nothing; all other payloads are kept |
| Kmalloc.Allocator.Store | src/kernel/lib/kmalloc.c:76-104 | a client's store into its own payload, on a page that it has touched, keeps the allocator in order and every other payload |
| Kmalloc.Allocator.PayloadBacked | src/kernel/lib/kmalloc.c:76-104 | in every reachable state each byte of a live block or run lies on a page that is pending or holds a frame of its own, writable by the kernel, not executable and closed to ring 3 |
| Kmalloc.Allocator.Touch | src/kernel/mem/page_table.c:152-165 | the first access to a heap page, live or free, keeps the allocator in order and all words that were there, and gives the page a frame |
| KmallocPages.UnitsKept | src/kernel/mem/page_table.c:233-254 | a change to one page, anywhere, that leaves it backed or lies outside the heap in use leaves every block and run backed |
| KmallocPages.DropBacked | src/kernel/lib/kmalloc.c:132-134 | releasing the pages of a run takes no page from another block or run |
| KmallocPages.CarveBacked | src/kernel/lib/kmalloc.c:39-46 | the page that is carved is backed, and all others still are |
| KmallocPages.RunBacked | src/kernel/lib/kmalloc.c:84-91 | so are the pages of a new run |
| StackAlloc.StacksDisjoint | src/kernel/mem/stack_alloc.c:29-37 | two stacks that share an address are the same, and a stack is above its own guard page |
| StackAlloc.StackInKernelText | src/kernel/mem/stack_alloc.c:29-37 | the stack of slot 44564480 lies in the kernel's text |
| StackAlloc.ThreadStacks.AllocStack | src/kernel/mem/stack_alloc.c:16-38 | a slot that was not live, at the address range it always had; its two pages and no guard page become mapped; the only heap allocation that goes is the list's first node, and the others keep their contents |
| StackAlloc.ThreadStacks.ReuseSlot | src/kernel/mem/stack_alloc.c:21-24 | the most recently freed slot leaves the list and its node, no other allocation, the heap |
| StackAlloc.LinkSurvives | src/kernel/mem/stack_alloc.c:22-24 | reading the node's link after kfree still gives the rest of the list, as kfree overwrites the header only |
| StackAlloc.ThreadStacks.FreeStack | src/kernel/mem/stack_alloc.c:40-62 | releases exactly the two pages of the slot and puts it in front of the list; the one new heap allocation is its node, and all others keep their contents |
| StackAlloc.ThreadStacks.ReleaseSlot | src/kernel/mem/stack_alloc.c:44-49 | the pages of the other live stacks, and only those, stay mapped |
| StackAlloc.ThreadStacks.ClientKmalloc | src/kernel/lib/kmalloc.c:76-104 | a client's kmalloc keeps the list of stacks, all stacks and all other allocations |
| StackAlloc.ThreadStacks.ClientKcalloc | src/kernel/lib/kmalloc.c:108-112 | so does kcalloc, with the array zeroed |
| StackAlloc.ThreadStacks.ClientKfree | src/kernel/lib/kmalloc.c:123-138 | so does kfree of an allocation that is no list node |
| StackAlloc.ThreadStacks.ClientStore | src/kernel/lib/kmalloc.c:76-104 | so does a store into an allocation that is no list node |
| StackAlloc.ThreadStacks.TouchHeap | src/kernel/mem/page_table.c:152-165 | so does the first access to a heap page |
| StackAlloc.ThreadStacks.TouchStack | src/kernel/mem/page_table.c:152-165 | so does the first access to a stack page, which gets a frame of its own |
| RoundRobin.DistanceNext | src/kernel/proc/scheduler.c:15-24 | rr_next either chooses p, exactly when it was one step away, or brings p exactly one step nearer |
| RoundRobin.DistanceRemove | src/kernel/proc/scheduler.c:43-48 | removing another thread brings p nearer by one if it was ahead of p, and otherwise, in particular for the current thread, leaves the distance alone |
| RoundRobin.DistanceAdmit | src/kernel/proc/scheduler.c:10-12 | admitting a thread sends p back by one exactly if the cursor still has to pass the tail, else not at all |
| RoundRobin.Fairness | src/kernel/proc/scheduler.c:10-48 | any run that leaves p waiting has fewer rr_next calls than p's distance plus the admissions |
| ProcQueue.Queue.RemoveProc | src/kernel/proc/proc_queue.c:16-30 | the linked queue loses that process and nothing else; a process in no queue is left alone |
| ProcQueue.Queue.AppendProc | src/kernel/proc/proc_queue.c:33-43 | the process becomes the last one |
| ProcQueue.Queue.PopProc | src/kernel/proc/proc_queue.c:46-65 | the first process, unlinked, or NULL from an empty queue |
| Scheduler.Sched.SchedAdmit | src/kernel/proc/scheduler.c:10-12 | implements `Admit` on the real queue |
| Scheduler.Sched.NextThread | src/kernel/proc/scheduler.c:15-24 | implements `RrNext`: choice and cursor |
| Scheduler.Sched.SchedRemove | src/kernel/proc/scheduler.c:43-48 | implements `Remove`, with the cursor stepping back from a removed current thread |
| Scheduler.Sched.AreProcsScheduled | src/kernel/proc/scheduler.c:50-52 | true exactly when some thread is ready |
| ProcModel.BlockPlaced | src/kernel/proc/proc.c:105-113 | the running thread moves from the ready queue to one wait queue; nothing else moves |
| ProcModel.UnblockPlaced | src/kernel/proc/proc.c:125-134 | a wake-up keeps every thread in exactly one queue |
| ProcModel.UnblockAllPlaced | src/kernel/proc/proc.c:115-123 | so does waking a whole queue |
| ProcModel.ExitPlaced | src/kernel/proc/proc.c:89-101 | the running thread, and no other, leaves the system |
| ProcModel.YieldPlaced | src/kernel/proc/proc.c:45-51 | after a yield the running thread is the one under the cursor, or the boot context, and every thread is where it was |
| ProcModel.RrNextFollows | src/kernel/proc/scheduler.c:15-24 | rr_next takes the cyclic successor of the current thread in the ready sequence, its head if there is no current thread |
| ProcModel.RescheduleSwitches | src/kernel/proc/proc.c:45-51 | a yield and its switch: that successor runs and is current, the boot context if nobody is ready, and no queue changes |
| ProcModel.ExitMoves | src/kernel/proc/proc.c:89-101 | an exit takes the running thread out of the ready sequence, at its place and no other, and the thread behind that place runs next, or the boot context |
| ProcModel.StepMoves | src/kernel/proc/proc.c:34-134 | every legal step moves exactly the threads it names: creation and wake-ups append to the ready sequence in order, a block takes the running thread out and puts it behind its wait queue, and each switch goes to the cyclic successor |
| ProcModel.FairRun | src/kernel/proc/proc.c:34-134 | over every run in which p stays ready and never runs there are fewer switches, by yield, block or exit, than p's distance from the cursor, at most the length of the queue, plus the threads created or woken |
| ProcModel.StepOk | src/kernel/proc/proc.c:34-134 | every legal step keeps placement, including wake-ups between a block and its yield |
| ProcModel.RunPlaced | src/kernel/proc/proc.c:34-134 | over every run the queued threads are exactly those created and not exited, each in one queue at one position |
| ProcModel.BootRunPlaced | src/kernel/proc/proc.c:34-43 | in particular for every run from boot |
| Proc.ProcTable.constructor | src/kernel/proc/proc.c:34-36 | the real queues at boot hold the model's initial state |
| Proc.ProcTable.RescheduleProc | src/kernel/proc/proc.c:45-51 | on the real queue: next_proc is the cyclic successor of the scheduler's current thread, the boot context if nobody is ready |
| Proc.ProcTable.Yield | src/kernel/proc/proc.c:81-86 | on the real queue: the thread behind the current one runs, the first one behind the last, and no queue changes |
| Proc.ProcTable.CreateKthread | src/kernel/proc/proc.c:76 | a new process, with the next pid, goes to the end of the real queue |
| Proc.ProcTable.BlockProc | src/kernel/proc/proc.c:105-113 | on two linked queues: the running thread leaves the ready sequence at its place, with the cursor one back, and goes behind one wait queue |
| Proc.ProcTable.UnblockHeadProc | src/kernel/proc/proc.c:125-134 | implements `UnblockHead` |
| Proc.ProcTable.UnblockAllProc | src/kernel/proc/proc.c:115-123 | the loop implements `UnblockAll` |
| Proc.ProcTable.ExitProc | src/kernel/proc/proc.c:93-100 | the run queue's part: the running thread leaves the ready sequence, and the thread behind its place runs |
| Threads.ThreadTable.CreateThread | src/kernel/proc/proc.c:59-78 | a zeroed context of its own, whose fields, at the offsets of the C structure, enter the wrapper in the kernel's code segment with entry point and argument in rdi and rsi, on an empty stack, with the interrupt flag set; a stack that was not live, whose top the context names three times; the next pid, and admission to the run queue |
| ContextLayout.SwitchAgrees | src/kernel/irq/isr_wrapper.asm:6-32 | the offsets that the assembler's structure gives to the registers, with its explicit padding, are those of the C structure with alignment |
| ContextLayout.FieldsApart | src/kernel/include/proc.h:12-33 | no two fields of a structure overlap |
| Threads.ContextOffsets | src/kernel/include/proc.h:12-33 | the offsets and the size that creation uses are those of process_t |
| Threads.ThreadTable.ExitThread | src/kernel/proc/proc.c:89-101 | the running thread's own stack, place and context go, and no other thread's; the context's block is on its free list; the thread behind its place in the ready sequence runs |
| Threads.ThreadTable.SaveDead | src/kernel/irq/isr_wrapper.asm:61-112 | the context switch behind kexit_isr saves registers into the context that was just freed; that disturbs neither the free list nor any live allocation, stack or context |
| Threads.ThreadTable.SetField | src/kernel/proc/proc.c:62-73 | an assignment to a context's field changes that field of that context alone |
| Threads.ThreadTable.YieldThread | src/kernel/proc/proc.c:81-86 | a yield runs the next thread of the ready sequence and keeps every thread's context and stack its own |
| Threads.ThreadTable.BlockThread | src/kernel/proc/proc.c:105-113 | the running thread goes behind the wait queue; every thread keeps its context and stack |
| Threads.ThreadTable.WakeThread | src/kernel/proc/proc.c:125-134 | so does waking one thread |
| Threads.ThreadTable.WakeThreads | src/kernel/proc/proc.c:115-123 | so does waking a whole queue |
| Threads.ThreadTable.SaveRegister | src/kernel/irq/isr_wrapper.asm:54-80 | a register saved in a thread's context changes no stack top and no other context |
| Threads.ThreadTable.ClientKmalloc | src/kernel/lib/kmalloc.c:76-104 | what a client gets from kmalloc is neither a context nor a node of the list of stacks, and all of those stay |
| Threads.ThreadTable.ClientKfree | src/kernel/lib/kmalloc.c:123-138 | a client's kfree of a block of its own leaves all threads alone |
| Threads.ThreadTable.ClientStore | src/kernel/lib/kmalloc.c:76-104 | so does its store into a block of its own |
| Threads.HomesAfterFreeStack | src/kernel/proc/proc.c:91 | giving a stack back turns no thread's context or stack into a list node |
| CircBuff.Ring.IsEmpty | src/kernel/lib/circ_buff.c:11-13 | equal heads mean an empty FIFO |
| CircBuff.Ring.IsFull | src/kernel/lib/circ_buff.c:15-23 | the two-case test holds exactly at 1023 elements |
| CircBuff.Ring.ConsumerRead | src/kernel/lib/circ_buff.c:28-37 | removes the oldest element, or reports an empty FIFO |
| CircBuff.Ring.ProducerWrite | src/kernel/lib/circ_buff.c:41-50 | appends exactly when there is room, and otherwise changes nothing |
| Serial.FlushMoves | src/kernel/dev/serial.c:73-87 | a flush loses and reorders nothing, sends at most 14 characters and only from idle, and leaves an idle UART only behind an empty ring |
| Serial.WriteAccepts | src/kernel/dev/serial.c:91-108 | the characters SER_write takes go to the end of the stream |
| Serial.SerialPort.InitHwWrite | src/kernel/dev/serial.c:73-87 | the burst loop implements `Flush` |
| Serial.SerialPort.SerWrite | src/kernel/dev/serial.c:91-108 | takes as much of the text as fits, drops the rest, and returns how much it took |
| SerialSteps.NextSys | src/kernel/dev/serial.c:73-153 | every step of writers, their flushes, interrupts and other threads, harmful ones included, keeps queues and places in order, and what is accepted is what was sent, is in hand or is in the ring, whatever the order |
| SerialSystem.NextIsOk | src/kernel/dev/serial.c:73-153 | every step but a harmful interrupt keeps the order of the characters, the interrupt that is due and what will wake a blocked writer |
| SerialRuns.RunRightIff | src/kernel/dev/serial.c:73-153 | over every run from boot: the sent characters are the accepted ones in order and the driver can go on, exactly if no interrupt falls into a flush that runs with interrupts on and there overtakes a different character in hand, or comes behind the last send with an empty ring |
| SerialRuns.NoStrandedWriter | src/kernel/dev/serial.c:113-153 | over every run without such an interrupt: sent characters, the one in hand and the ring are those accepted, in order; with no writer running, a non-empty ring means that an interrupt is due, and a blocked writer that one is due or a woken writer has yet to run |
| SerialRuns.StaysBroken | src/kernel/dev/serial.c:73-108 | behind a harmful interrupt nothing mends: the order stays wrong, or nothing is ever sent again |
| SerialRuns.QuietIsHarmless | src/kernel/dev/serial.c:73-87 | without interrupts inside a flush no interrupt does harm, and at most 14 characters go out between two interrupts |
| SerialRuns.FittingRunIsRight | src/kernel/dev/serial.c:113-131 | if every SER_writeb finds room for its whole text, which a caller can test, it never waits, its flush runs with interrupts off, and the run is right |
| SerialFaults.LostInterrupt | src/kernel/dev/serial.c:73-131 | a run from boot with a text of 1024 characters after which the driver waits for ever for an interrupt that has come |
| SerialFaults.Overtaking | src/kernel/dev/serial.c:73-131 | a run from boot with a text of 1026 characters whose last two are sent in the wrong order |
| SerialFaults.FlushSteps | src/kernel/dev/serial.c:73-87 | the flush's reads, sends and end, with no interrupt between them, compute `Flush` |
| SerialCalls.LogStepOk | src/kernel/dev/serial.c:113-131 | one step of one writer: what it gets accepted goes from the rest of its text to the end of what this call has written, and nobody else's rest changes |
| SerialCalls.TextIsWritten | src/kernel/dev/serial.c:113-131 | over every run from boot, harmful interrupts included: a call of SER_writeb under way has had its text accepted, in order, up to a rest, and one that has returned all of it |
| SerialDriver.WriteOnPort | src/kernel/dev/serial.c:117-120 | producer_write on the driver's ring is the system's write step: the character is accepted, or the writer turns to its flush |
| SerialDriver.BeginFlush | src/kernel/dev/serial.c:77 | the flush is entered exactly if the driver is idle |
| SerialDriver.ReadForFlush | src/kernel/dev/serial.c:79 | the loop's test reads the character of the system's step, and fails exactly where the flush ends |
| SerialDriver.SendForFlush | src/kernel/dev/serial.c:80 | TX_byte is the system's send |
| SerialDriver.EndFlush | src/kernel/dev/serial.c:83 | the driver becomes busy as the system does |
| SerialDriver.TestPort | src/kernel/dev/serial.c:124 | the writer blocks exactly if the ring is full |
| SerialDriver.TransmitEmpty | src/kernel/dev/serial.c:139-142 | the transmit branch of the interrupt is the system's interrupt |
| SerialDriver.WriteText | src/kernel/dev/serial.c:91-108 | SER_write is the system's step, and the text's first n characters, n being what it returns, are those accepted |
| Keyboard.ReadOk | src/kernel/dev/keyboard.c:279-285 | the read behind the wait always finds a character |
| Keyboard.NextIsOk | src/kernel/include/proc.h:49-56 | every step, key presses between any two included, keeps the invariant of the check-then-block loop: characters in the order they were accepted, and a woken reader for each one that blocked readers could take |
| Keyboard.NoLostWakeup | src/kernel/dev/keyboard.c:419-426 | over every run: while a thread is blocked, there are at most as many buffered characters as woken threads; characters are read in the order they were accepted |
| KeyboardDriver.PressesAccepted | src/kernel/dev/keyboard.c:419-426 | over every run the accepted characters are exactly those pressed while fewer than 1023 were buffered, in order |
| KeyboardDriver.KeysAreRead | src/kernel/dev/keyboard.c:279-285 | over every run from boot, what getc has returned and what is buffered are together exactly those presses, in order |
| KeyboardDriver.PressOnRing | src/kernel/lib/circ_buff.c:41-50 | producer_write on the real ring does to its contents what the key press does |
| KeyboardDriver.TestRing | src/kernel/dev/keyboard.c:281 | the reader blocks exactly if the ring is empty |
| KeyboardDriver.ReadFromRing | src/kernel/dev/keyboard.c:283 | consumer_read behind the wait delivers the oldest character, as the read step does |
| Fat.EntryFits | src/kernel/fs/fat.c:266-278 | for every chainable cluster neither offset nor sector overflows 32 bits, and the entry lies whole in its sector |
| Fat.FirstFetchIff | src/kernel/fs/fat.c:254-264 | the first fetch is right exactly if the sector is not 0, or is blank: 0 doubles as "nothing cached" |
| Fat.Volume.GetNextClusterNum | src/kernel/fs/fat.c:266-278 | after any sequence of lookups, the device's own 28-bit entry |
| Fat.ChainUnique | src/kernel/fs/fat.c:169-179 | there is only one way to follow a chain |
| Fat.ChainAcyclic | src/kernel/fs/fat.c:169-179 | a chain that ends visits no cluster twice |
| Fat.ClusterIsData | src/kernel/fs/fat.c:98-101 | on a volume of reserved sectors, FATs and data area, one behind the other, cluster c is read as sector c - 2 of the data area |
| Fat.BytesAreArea | src/kernel/fs/fat.c:98-101 | so what a chain stores is what its clusters hold in the data area |
| Fat.LinkIsEntry | src/kernel/fs/fat.c:266-278 | the entry of cluster c is the little-endian word at byte 4 c of the first FAT, without its upper four bits |
| Fat.ChainIsChained | src/kernel/fs/fat.c:169-179 | a chain of the first FAT, of clusters in the data area, is what the driver follows |
| Fat.File.Seek | src/kernel/fs/fat.c:169-175 | finds the chain from the cursor's cluster on, or that the chain ends before |
| Fat.File.Read | src/kernel/fs/fat.c:163-198 | delivers exactly the slice of the stored bytes at the cursor, on a laid-out volume those of the data area, of the length min(len, what is left), moves the cursor behind it and leaves the rest of the destination alone |
| Fat.ReadInFileIff | src/kernel/fs/fat.c:187 | a read delivers bytes of the file only, exactly when the cursor is not past its end or nothing is stored there; within the file it delivers what is asked for, up to the end |
| Fat.ReadTwice | src/kernel/fs/fat.c:163-198 | reading x and then y bytes delivers what reading x + y does |
| Fat.File.Mmap | src/kernel/fs/fat.c:200-209 | the start of the file, on a laid-out volume from the data area, in memory, and the cursor where it was |
| Fat.MmapWholeIff | src/kernel/fs/fat.c:205 | the whole file is delivered exactly if it is smaller than 2 GiB, the size being passed as an int |
| LongName.InBufferIff | src/kernel/fs/fat.c:108-126 | an entry's 13 characters lie inside the 256-byte buffer exactly for numbers 1 to 19 |
| LongName.PlaceEntry | src/kernel/fs/fat.c:108-126 | the three loops put the entry's characters at 13 times its number and change nothing else |
| LongName.Reassembled | src/kernel/fs/fat.c:108-126 | a name's entries, applied in any order, leave the name, followed by the buffer's old tail if the length is a multiple of 13 |
| LongName.RoundTripIff | src/kernel/fs/fat.c:108-126 | the name comes back exactly when its length is no multiple of 13, or a terminator happened to follow |
| LongName.StaleTail | src/kernel/fs/fat.c:286-308 | a name of such a length comes out with the tail of a longer name read before it |
| DirRecord.DecodeEncode | src/kernel/fs/fat.c:305-327 | every directory entry survives being written as a 32-byte record |
| DirRecord.JoinClusterIff | src/kernel/fs/fat.c:322 | the cluster number is put together right exactly below 2^31, the high half being shifted as an int |
| ReadDir.ScanFile | src/kernel/fs/fat.c:305-332 | a file's entries report it once, with its cluster, size and kind, exactly if its name does not start with a dot, and under its own name exactly if that name ends: its length is no multiple of 13 or a terminator happened to follow |
| ReadDir.ScanDirectory | src/kernel/fs/fat.c:305-332 | a directory is reported file by file without the names that start with a dot, and as it was written exactly if every name shown ends, given what the buffer holds at its turn |
| ReadDir.ReadableAnyway | src/kernel/fs/fat.c:108-126 | whatever the buffer holds, names end if no length is a multiple of 13 |
| ReadDir.Directory.Readdir | src/kernel/fs/fat.c:282-337 | scans the used entries of all clusters in order |
| ReadDir.UsedInBytes | src/kernel/fs/fat.c:292-333 | what the loops read from a chain of clusters whose bytes are records and then zeros is those records, wherever cluster borders fall |
| ReadDir.DirectoryRoundTrip | src/kernel/fs/fat.c:282-337 | a directory whose files are written as records to the bytes of its clusters in the data area comes back without its hidden files, however the records fall onto clusters, and as it was written exactly if the names shown end |
| CString.Strlen | src/kernel/lib/string.c:32-37 | the length of the text before the terminator |
| CString.Strrev | src/kernel/lib/string.c:96-105 | the text is reversed in place and the rest of the array kept |
| CString.Strcmp | src/kernel/lib/string.c:54-62 | zero exactly for equal texts; otherwise its sign is the order of the texts at their first difference |
| CString.BeforeIsOneWay | src/kernel/lib/string.c:54-62 | that order never holds both ways |
| Numerals.NumeralReadsBack | src/kernel/lib/printk.c:62-89 | what is printed is a numeral, in letters of the case asked for and without leading zeros, that reads back as the number |
| Numerals.ReadPrintsBack | src/kernel/lib/printk.c:62-89 | every such numeral is what is printed for the number it denotes |
| Numerals.LengthIff | src/kernel/lib/printk.c:77-82 | at most k digits exactly below base to the k |
| Numerals.UnsignedFitsIff | src/kernel/lib/printk.c:120-124 | an unsigned decimal fits the 20-byte buffer exactly below 10^19 |
| Numerals.HexFits | src/kernel/lib/printk.c:126-139 | every 64-bit hexadecimal fits, also behind 0x |
| Numerals.ItoaRightIff | src/kernel/lib/printk.c:19-58 | itoa prints the signed numeral of everything but INT64_MIN |
| Numerals.SignedFitsIff | src/kernel/lib/printk.c:114-118 | a signed decimal fits the buffer exactly above -10^18, or if it is INT64_MIN |
| Numerals.WriteDigits | src/kernel/lib/printk.c:41-46 | the digit loop leaves the numeral in reverse |
| Numerals.Uitoa | src/kernel/lib/printk.c:62-89 | the numeral and a terminator at the given place, and nothing else |
| Numerals.Itoa | src/kernel/lib/printk.c:19-58 | the signed text and a terminator at the given place, and nothing else |
| Printk.CheckFormatSpec | src/kernel/lib/printk.c:144-189 | accepts exactly the 20 conversions, with their lengths |
| Printk.DecimalFitsIff | src/kernel/lib/printk.c:114-124 | only l and q decimals can miss the buffer, and exactly which do |
| Printk.EscapeRoundTrip | src/kernel/lib/printk.c:192-265 | a text with its percent signs doubled prints as itself |
| Printk.ComposeRoundTrip | src/kernel/lib/printk.c:192-268 | a format composed of any texts, percent signs doubled, and any of the conversions prints those texts and its arguments, each once and in order |
| Printk.UnsignedShown | src/kernel/lib/printk.c:226-249 | u, x and X print the argument modulo 2^16, 2^32 or 2^64, by length, as a decimal or a hexadecimal whose letters are lower case for x and upper case for X |
| Printk.SignedShown | src/kernel/lib/printk.c:218-225 | d prints the number of that many bits that the argument stands for, with its sign; of the least 64-bit number the sign alone |
| Printk.OthersShown | src/kernel/lib/printk.c:250-258 | a pointer is 0x and a lower-case hexadecimal, a string itself, a character the argument's low byte |
| Printk.InvalidIsLiteral | src/kernel/lib/printk.c:192-265 | where no valid conversion starts, the format prints itself |
| Printk.Console.PrintArg | src/kernel/lib/printk.c:213-261 | each conversion prints its argument, cut to the width its length character selects |
| Printk.Console.PrintBackend | src/kernel/lib/printk.c:192-268 | the scan with two indices prints what reading the format from left to right means, and returns 1 |
| Multiboot.WidenAllIsHull | src/kernel/mem/multiboot.c:51-70 | the range is the hull of what it was and of the non-empty sections |
| Multiboot.AdjustedIff | src/kernel/mem/multiboot.c:57-61 | the code's physical address is the load address exactly if the address is not the very first one of the kernel's half |
| Multiboot.CoveredIff | src/kernel/mem/multiboot.c:47-114 | the kernel range covers what the sections are loaded to exactly when no memory map tag follows them and none of them starts at the very first kernel address, unless the range starts at 0 anyway |
| Multiboot.KernelIsReserved | src/kernel/mem/multiboot.c:47-73 | with the memory map first, the range is one the frame allocator accepts |
| Multiboot.ReservedIsSparedIff | src/kernel/mem/pf_alloc.c:103-107 | a reserved range is spared to its last byte exactly if it starts at a frame's first byte, or the frame it starts in is in no region or in the other range |
| Multiboot.KernelIsSpared | src/kernel/mem/multiboot.c:47-137 | with a memory map before the sections and none behind, no frame that the allocator issues starts in a section, and no byte of one lies in a section exactly if the kernel starts at a frame's first byte or the frame it starts in is not usable |
| Multiboot.BootAllocator | src/kernel/mem/pf_alloc.c:66-70 | parsing the tags in memory and starting the frame allocator on what they leave gives an allocator in order; no frame of it starts in a section, and sections are spared to the last byte exactly under the condition above |
| Multiboot.RegionsAreLastMap | src/kernel/mem/multiboot.c:90-114 | the recorded regions are those of the last memory map |
| Multiboot.Recorded | src/kernel/mem/multiboot.c:90-114 | all free regions are recorded exactly if there are at most 64 |
| Multiboot.MemoryMap.ParseElfTag | src/kernel/mem/multiboot.c:47-73 | the loop computes the widened range; the tag is remembered |
| Multiboot.MemoryMap.ParseMmapTag | src/kernel/mem/multiboot.c:90-114 | the first 64 free regions in order, the range forgotten, other slots kept |
| Multiboot.MemoryMap.ParseMultibootTags | src/kernel/mem/multiboot.c:118-137 | tags laid out in memory, each rounded up to 8 bytes, up to the end tag: the boot information's own range, the kernel range, the regions and the last section tag after all of them |
| Vfs.ComponentsOfJoin | src/kernel/fs/vfs.c:44-53 | splitting a path gives back the components it was joined from, with or without a trailing slash |
| Vfs.CopyPathItem | src/kernel/fs/vfs.c:44-53 | the component at the path's position, terminated, and its length |
| Vfs.FindIff | src/kernel/fs/vfs.c:67-76 | with unique names, the callback finds exactly the entry of that name |
| Vfs.ResolveIff | src/kernel/fs/vfs.c:91-118 | a path resolves to an inode exactly if there is a trail of inodes to it, each the last entry of that component's name in the one before |
| Vfs.PathSearch.PathCb | src/kernel/fs/vfs.c:67-76 | the result changes exactly on an entry of the searched name; any other inode is freed |
| Vfs.PathSearch.Search | src/kernel/fs/vfs.c:104-106 | over a directory: the named entry if there is one, else the old result, and exactly the inodes of the other entries are freed |
| Vfs.ExistingPath | src/kernel/fs/vfs.c:91-118 | a path whose components exist leads where component-by-component resolution leads, whatever the result held before |
| Vfs.MissingIsSkipped | src/kernel/fs/vfs.c:101-116 | from a directory already reached, a missing component is passed over |
| Vfs.ThroughFileIff | src/kernel/fs/vfs.c:101-116 | the present components resolve to nothing exactly if some prefix of them leads to a file while components are left |
| Vfs.CallRightIff | src/kernel/fs/vfs.c:79-119 | whatever the uninitialised result holds: the call is right exactly if the path is safe, or its first component is missing and the garbage is NULL or has a file in the way of the rest |
| Vfs.LookupRightIff | src/kernel/fs/vfs.c:79-119 | the call is right for every content of the uninitialised result exactly if it starts at a file, or the first component exists and from there on the others exist or a file is in the way |
| Vfs.MissingFileFindsDirectory | src/kernel/fs/vfs.c:79-119 | the call with path /d/x, where d is a directory without x, returns d instead of NULL, whatever the uninitialised result held |
| Vfs.InodeForPath | src/kernel/fs/vfs.c:79-119 | relative, absolute and trailing-slash paths: the result goes where the first component, or the garbage, leads and from there over the present components; it is the path's own inode exactly under the condition above |

## Left out

- PfAlloc: the regions are sorted and disjoint, each holds the start of a page, and they end below 512 GiB, the reach of the direct map's one PML4 slot. It asks for a frame that is still available; what happens without one is BumpStaysInListIff and ExhaustionIssuesForeignFrame. All 64 region slots in use is excluded, since the exhaustion path then reads behind the array.
- AllocFrame: asks for a frame that is still available, as PfAlloc does.
- MapPage: tables that were there before keep their rights, so a page may get less than its flags ask for; the source does not raise them either. It must not replace a present demand page or a page of the direct map, and the frames for new tables must be available.
- MapRange: asks for each page what MapPage asks.
- UserAllocateRange: asks for each page what MapPage asks.
- MapPhysicalMemory: frame 0, if it is usable, must be out already, as it is after SetupPml4's first allocation: memset ignores NULL. The boot loader's top-level table lies in a frame that the allocator does not hand out.
- GetPageFrame: asks for an existing page table, as the source does not test the present bits on its way down.
- PageFault: asks for an existing page table, as GetPageFrame does.
- FreePfFromVirtualAddr: asks for a page that is absent, pending or demand-paged; pages mapped onto frames of others are not modelled.
- FreePage: asks for a page below the break, since no page table need exist above it.
- FreePages: asks for pages below the break, as FreePage does.
- Kmalloc: asks for room below the end of the heap region, for frames for new tables and for the pages it writes to, and for a page count that fits an int; without room the source writes a header through NULL or hands out pages it has not mapped. KmallocHoldsIff says exactly for which sizes, wrapping ones included, the block or run is big enough.
- AllocateBlocks: asks for room below the end of the heap region, as Kmalloc does.
- Kcalloc: asks for a product that leaves room for the header below 2^64; KcallocHoldsIff says exactly for which products the block is big enough, and the memset that would otherwise run over the heap is not modelled.
- AllocStack: asks for room below the kernel text for a new slot, which the source does not check; StackInKernelText shows where a stack comes to lie without it.
- Touch: the page fault of a client's first access to a page is a step of its own; those of the allocator's stores, header words and memset included, are part of its methods. What a frame holds before its first store is left open.
- Clear: memset writes words, and the bytes of a last partial word beyond the payload are kept by masking.
- CreateKthread: the memory of a process is in CreateThread and ExitThread, which run on a process table with wait queues; the pid does not wrap.
- CreateThread: asks for what Kmalloc and AllocStack ask; entry point, argument and wrapper are any words. The links of the queues are fields of the process object, not words of its context.
- ExitThread: asks for room for the stack's list node. The source frees the context before it chooses the next thread, and here the run queue goes first; the two touch different memory.
- Yield: the interrupt that triggers the switch, and the moment between STI and the switch, are one step with it; the registers that are saved are separate stores (SaveRegister, SaveDead). PROC_block_on and PROC_unblock calls with a NULL queue do nothing in the source and are not modelled; the boot context neither blocks nor exits.
- Ring: a read or write is one step; interrupts inside one are not modelled.
- NoStrandedWriter: SER_writeb is a sequence of steps, each done on the real driver, not one method. A flush with interrupts on is made of reads, sends and an end; a read or write of the ring is one step. The interrupt comes only while characters are in the UART, and nothing is claimed about when. Bytes that other drivers send through interrupts are not modelled.
- NoLostWakeup: getc is a sequence of atomic steps, those on the ring done on the real one, not a method; of the keyboard handler only the key-press path is modelled, not scan codes.
- Read: one sector per cluster, a device of fewer than 2^31 sectors, whose numbers fit an int, and whose reads succeed, a chain that is long enough for the file, and cursors below 2^40, where cursor / 512 fits an int.
- PlaceEntry: asks for an entry number from 1 to 19, which InBufferIff shows to be those inside the buffer.
- Readdir: classic names are taken as the 12 bytes that the source copies, and nothing is claimed about how they read. A deleted long entry, whose number lies outside the buffer, is excluded.
- InodeForPath: components of 255 and more characters, which overrun the buffer for one, are not modelled; names in directories contain no terminator.
- CopyPathItem: components of 255 and more characters are not modelled.
- PrintBackend: a NULL format, which returns -1, NULL strings, and arguments that do not match the format or whose decimals miss the buffer are excluded; characters go to one console, not to the display and the serial port.
- PrintArg: asks for a decimal that fits the buffer, as PrintBackend does.
- ParseMultibootTags: the sizes of tags are given with them and below 2^32 - 8; the printed report is not modelled.
- free_multiboot_sections, remap_elf_sections and the rest of setup_pml4: boot-time code around the operations above. The inner loop of the first advances the section header, not the page.
- Huge pages, the TLB and CR3, GDT, TSS and IDT setup, ATA, PIC and PS/2 initialisation, the VGA console, ELF loading, MBR parsing, system call tables and the programs of the kernel (snakes, tests): hardware access, or easy facts.
- FIFO and LIFO scheduling (fifo_next, lifo_next): not called by the kernel.
- strncpy, strncmp, strchr, memcpy and FS_print: simple loops, or output.
