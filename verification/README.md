# FOS kernel: a Dafny model of its memory, scheduling and air reservation

This project models the stateful core of the FOS teaching kernel and proves what the kernel relies on.
`dafny verify dfyconfig.toml` checks it.

- **Blocks, lists and heaps.** `Lists` is the intrusive list of `inc/queue.h`; `Blocks` says what the dynamic block
  allocator's lists mean as a bitmap; `DynamicAllocator` is the allocator over linked lists; `Heap` is the user heap
  as a state machine with theorems about every run, and `UserHeap` is `lib/uheap.c` over the linked lists.
- **Frames, page tables, kernel heap.** `Paging` counts page-table entries per frame, `KernelHeap` ties the kernel
  heap to its mappings, `PageTables` finds user tables through the kernel heap, `Chunks` and `UserMemory` are the
  chunk operations. `KernelMemory` is the same manager updating arrays and lists in place, each method proved equal to
  its specification. `Shares` and `ShareTable` are the shared objects on top, whose frames are filed in page tables that
  do not count, and `KernelRuns` speaks of every run from boot. `PageFile` is the page file and `PageFileRuns` its
  runs; `WorkingSet` and `LruAging` are the working set and its aging.
- **Scheduling.** `Scheduling` is the round-robin scheduler with the semaphore manager as one state machine and
  `Scheduler` runs it over the kernel's linked lists, each call proved equal to its function; `Lifecycles` says where
  every call sends every environment. `Semaphores` is the bare semaphore that the air reservation uses;
  `SemaphoresRefine` connects the two.
- **The air reservation.** `Air` interleaves any number of clerks and customers, each semaphore call and each access to
  shared memory one atomic step; `AirSemaphores`, `AirLine` and `AirBooking` are the three parts of its invariant;
  `AirTheorems` and `AirEnd` hold the results, and `AirOnKernel` runs the protocol on the scheduler and semaphores of
  `Scheduling`, where it is simulated step by step. `Counting` counts processes and sets; `Basics` and `Layout` hold
  notions of all modules.
- **Text.** `NumberText` is `printnum` and `%d` against `strtol`, and the names `ltostr` makes; `Numerals` says what the
  texts mean.

Addresses of pages are page numbers; sizes and addresses of heap blocks are bytes. `Panic` stands for a call of
`panic`. A page table is reached as the kernel reaches it: directory entry, frame, recorded heap address, kernel
mapping. `owner`, `hand` and `storages` in `Paging.Mem`, `frames` and `maps` in `Shares.Share` and the last five fields
of `Scheduling.Semaphore` are history: no operation reads them. Parameters stand for what the code takes from
elsewhere: the placement strategy, the answers of system calls, the values left in the unassigned locals of
`alloc_block_BF` (`junk`), the contents of a modified page.

Where the code and its own comments differ, the model follows the code:

- `createSemaphore` promises to detect duplicates and never does (`CreateNeedsNewName`).
- `sched_exit_env` on a NEW environment takes it off its queue and loses it (`ExitPlaces`).
- `alloc_block_BF` reads locals it never assigned when no hole is large enough (`BestFitNeedsAHole`).
- `pf_free_env` frees only pages below USER_TOP, though pages up to KERNEL_BASE can be added (`FreeEnv`,
  `FreeEnvLosesFrame`).
- `sget` cuts blocks of any size, and only whole pages keep the heap in pages (`ShareKeepsIff`).
- The 16-bit reference counter is unguarded (`MapCountsIff`, `TempMappingLeavesNoTrace`, `FullCounterOverflows`).
- Nothing keeps an object's frames in use once those who mapped it have unmapped it, and `getSharedObject` then maps
  free frames (`GetTurnIff`, `FreedObjectFromBoot`).
- `ltostr` stops at the first zero digit after the last (`LtostrIsDecimalIff`).

## Model

| member | source | states |
|---|---|---|
| Lists.List.InsertHead | inc/queue.h:242-250 | the element comes first and the links, both ends and the size describe the longer sequence |
| Lists.List.InsertTail | inc/queue.h:257-265 | the element comes last; links, ends and size stay exact |
| Lists.List.InsertAfter | inc/queue.h:204-215 | the element stands just behind the given one; links, ends and size stay exact |
| Lists.List.InsertBefore | inc/queue.h:222-235 | the element stands just before the given one; links, ends and size stay exact |
| Lists.List.Remove | inc/queue.h:272-281 | exactly the given element leaves the sequence; the links around it are closed and both ends are right |
| Blocks.FirstFitIsLowestRun | lib/dynamic_allocator.c:145-173 | first fit on a coalesced free list finds a hole iff the bitmap of free bytes has a run of n bytes, and its address is the lowest start of such a run |
| Blocks.BlocksAreMaximalRuns | lib/dynamic_allocator.c:267-349 | the blocks of a coalesced list are exactly the maximal free runs of the bitmap |
| Blocks.BestFitIsSmallestRun | lib/dynamic_allocator.c:178-228 | the hole best fit cuts is the smallest maximal free run that is large enough, the lowest among equals |
| Blocks.BestFitNeedsAHole | lib/dynamic_allocator.c:178-228 | whatever the unassigned locals hold, best fit frees no byte that was in use iff some hole is large enough or there is no hole at all |
| Blocks.MissSplits | lib/dynamic_allocator.c:215-226 | when no hole fits and the unassigned locals equal a hole, the first such hole gives its front away and its address and size wrap round modulo 2^32; no other hole changes |
| Blocks.CarveClears | lib/dynamic_allocator.c:153-169 | cutting a hole clears exactly the bits handed out and keeps the list coalesced |
| Blocks.InsertSortedAdds | lib/dynamic_allocator.c:113-140 | the Alloc list stays sorted and gains exactly the block |
| Blocks.InsertMergeSets | lib/dynamic_allocator.c:274-349 | the free list stays sorted and coalesced and its bitmap gains exactly the block's bytes, whichever neighbours it merges with |
| Blocks.MergeCases | lib/dynamic_allocator.c:274-349 | the four ways of merging are decided by the neighbours' end addresses as the source tests them |
| Blocks.CoalescedUnique | lib/dynamic_allocator.c:267-349 | two coalesced lists with the same bitmap are equal |
| DynamicAllocator.Allocator.constructor | lib/dynamic_allocator.c:61-73 | every descriptor is on the Available list, each once, the last one first |
| DynamicAllocator.Allocator.FindBlock | lib/dynamic_allocator.c:78-108 | the first Alloc block with that address, or null iff there is none |
| DynamicAllocator.Allocator.InsertSortedAlloc | lib/dynamic_allocator.c:113-140 | the linked Alloc list becomes the sorted insertion of the block; nothing else moves |
| DynamicAllocator.Allocator.AllocBlockFF | lib/dynamic_allocator.c:145-173 | null and no change iff no hole is large enough; otherwise the first large enough hole is cut from its front and the pool loses a descriptor unless the fit was exact |
| DynamicAllocator.Allocator.AllocBlockBF | lib/dynamic_allocator.c:178-228 | if a hole is large enough the best fit is cut from its front; otherwise the list is what the unassigned locals make of it |
| DynamicAllocator.Allocator.AddToAvailable | lib/dynamic_allocator.c:267-273 | the descriptor joins the pool |
| DynamicAllocator.Allocator.InsertSortedWithMergeFree | lib/dynamic_allocator.c:274-349 | the linked Free list becomes the merging insertion of the block, and every descriptor absorbed returns to the pool |
| DynamicAllocator.Allocator.OpenHeap | lib/uheap.c:44-54 | the last descriptor of the pool becomes the one free block that is the whole heap |
| Heap.MallocKeeps | lib/uheap.c:60-90 | malloc keeps free, allocated and shared blocks an exact tiling of the heap in whole pages, with no descriptor lost |
| Heap.FreeKeeps | lib/uheap.c:107-124 | free of an allocated block keeps the exact tiling |
| Heap.ShareKeeps | lib/uheap.c:131-187 | smalloc and sget keep the exact tiling with their block counted as shared |
| Heap.ShareKeepsIff | lib/uheap.c:200-216 | a block cut for an object keeps the exact tiling iff its size is whole pages, as smalloc makes them, or there was no hole |
| Heap.SplitFindsDescriptor | lib/dynamic_allocator.c:163 | with one descriptor a page the pool is never empty when a hole must be split |
| Heap.HolesDependOnUseOnly | lib/dynamic_allocator.c:267-349 | the free list is a function of the bytes in use: two histories with the same use have the same free list |
| Heap.FreeUndoesMalloc | lib/uheap.c:60-124 | free after malloc restores the whole heap state exactly |
| Heap.EmptyHeapIsWhole | lib/uheap.c:29-54 | once nothing is in use the heap is its initial single block |
| Heap.AnyOrderRestores | lib/uheap.c:107-124 | freeing all blocks in any order restores the initial heap if nothing was shared |
| Heap.RunKeeps | lib/uheap.c:29-187 | the tiling invariant holds after every run of malloc, free, smalloc and sget |
| Heap.MallocIsFirstFitOnBitmap | lib/uheap.c:60-90 | in every reachable heap malloc answers the lowest free run of the rounded size, and NULL iff there is none |
| Heap.MallocTakes | lib/uheap.c:60-90 | in every reachable heap, with n the size in whole pages: malloc answers NULL and changes nothing iff no n free bytes lie together; otherwise exactly the lowest such bytes leave the free list and join the allocated blocks, and their address is the answer |
| Heap.ShareTakes | lib/uheap.c:131-246 | in every reachable heap the block cut for an object is the lowest n free bytes that lie together; it leaves the free list as a shared block whether or not the kernel agrees, and the answer is its address iff the kernel agrees, NULL iff it refuses or there is no room |
| Heap.FreeGivesBack | lib/uheap.c:107-124 | in every reachable heap free takes exactly the block that starts there off the allocated ones and makes exactly its bytes free |
| Heap.TooLarge | lib/uheap.c:219-226 | a request beyond the region finds no hole |
| UserHeap.UserHeap.constructor | lib/uheap.c:29-54 | the heap starts as one free block over the user heap with a descriptor for every page |
| UserHeap.UserHeap.Malloc | lib/uheap.c:60-90 | the linked lists go through exactly the specified malloc, and the tiling invariant is kept |
| UserHeap.UserHeap.Free | lib/uheap.c:107-124 | the linked lists go through exactly the specified free, and the tiling invariant is kept |
| UserHeap.UserHeap.Smalloc | lib/uheap.c:131-182 | the block taken leaves both lists whether or not the kernel creates the object; the answer is its address iff the kernel agreed |
| UserHeap.UserHeap.Sget | lib/uheap.c:187-246 | likewise for sget of any size; the tiling survives iff the size is whole pages or nothing was cut, and a negative size taken as unsigned finds no hole |
| Paging.UnmapSlotFacts | kern/mem/memory_manager.c:441-454 | the entry is cleared, its frame loses one reference and goes to the head of the free list with the last, and no other frame or entry changes |
| Paging.UnmapSlotKeeps | kern/mem/memory_manager.c:195-199 | reference counts and free list stay exact when an entry is unmapped |
| Paging.MapSlotKeeps | kern/mem/memory_manager.c:327-394 | reference counts and free list stay exact when an entry is mapped, remapped or already shows the frame |
| Paging.MapCountsIff | kern/mem/memory_manager.c:390 | mapping keeps counts and free list right iff the frame is not on the free list and its 16-bit counter has room |
| Paging.AllocateFrameKeeps | kern/mem/memory_manager.c:145-172 | allocate_frame panics iff the free list is empty and otherwise takes exactly its head out of it |
| Paging.MapNewFacts | kern/mem/chunk_operations.c:217-227 | one turn of allocate_chunk gives exactly the first free frame to exactly that entry, with one reference and its address recorded |
| Paging.TempMappingLeavesNoTrace | kern/disk/pagefile_manager.c:311-321 | the temporary mapping at USER_LIMIT leaves memory exactly as it was iff the frame's counter was not full |
| Paging.FullCounterOverflows | kern/mem/memory_manager.c:390 | a frame mapped by 65535 entries, with counts and free list exact: mapping it once more loses the count, and the temporary mapping puts it on the free list while it is mapped |
| KernelHeap.MapRunFacts | kern/mem/chunk_operations.c:197-230 | allocate_chunk on unmapped kernel pages succeeds iff there are frames enough and maps the first ones of the free list in order |
| KernelHeap.KmallocNeverRefused | kern/mem/kheap.c:46-86 | every page of a free heap block is unmapped, so allocate_chunk inside kmalloc never answers -1 |
| KernelHeap.KmallocKeeps | kern/mem/kheap.c:46-86 | kmalloc panics only for want of frames, answers NULL only for want of a hole, and otherwise hands out a block with a fresh frame at every page, keeping heap and paging consistent |
| KernelHeap.KmallocPlaces | kern/mem/kheap.c:46-86 | with n the size in whole pages: NULL and no change iff no n free bytes lie together or the strategy is unknown; panic iff frames run out; otherwise first fit answers the lowest run of free bytes and best fit the start of the smallest maximal run that fits, the lowest among equals, exactly these bytes go from the free list to an allocated block, and its pages show the first free frames in order |
| KernelHeap.KfreeKeeps | kern/mem/kheap.c:88-109 | kfree of any address but a live page table's keeps heap and paging consistent, unmaps exactly the block's pages, and does nothing off a block's first page |
| KernelHeap.KfreeExact | kern/mem/kheap.c:88-109 | an address anywhere in the first page of a block frees exactly that block, its bytes and the frames of its pages |
| KernelHeap.KfreeElsewhere | kern/mem/kheap.c:88-109 | any other address changes nothing |
| KernelHeap.KfreeUndoesKmalloc | kern/mem/kheap.c:46-109 | kfree after kmalloc restores the block lists and every mapping, and frees exactly the same frames |
| KernelHeap.AddressRoundTrip | kern/mem/kheap.c:111-139 | on every page in use virtual-to-physical and physical-to-virtual are inverse, giving the page base |
| KernelHeap.ConversionsDropOffsets | kern/mem/paging_helpers.c:86-104 | inside a page both conversions answer with page bases: kheap_physical_address is the address the processor finds iff the offset is zero, and is short of it by the offset otherwise |
| KernelHeap.HeapFramesDistinct | kern/mem/kheap.c:111-126 | no two pages of the kernel heap share a frame |
| KernelHeap.InitializeValid | kern/mem/kheap.c:14-44 | after initialize_dyn_block_system exactly the descriptor pages are mapped; it panics iff frames run out |
| PageTables.GetPageTableFinds | kern/mem/memory_manager.c:210-261 | for every user page get_page_table returns exactly the table that hangs on its directory entry, and never follows a stale address |
| PageTables.LookupIsWalk | kern/mem/memory_manager.c:210-261 | at every user address the kernel, going through its heap, finds the entry the processor finds with the upper ten bits as directory index and the next ten as table index |
| PageTables.EntriesApart | kern/mem/memory_manager.c:210-261 | no two user pages share a page-table entry |
| PageTables.CreatePageTableKeeps | kern/mem/memory_manager.c:263-296 | create_page_table panics iff no frame or no heap page is left; the new table takes the first free frame and no user entry changes |
| PageTables.TableAddedUnseen | kern/mem/memory_manager.c:263-296 | a new table changes nothing any user page shows |
| PageTables.MapFrameKeeps | kern/mem/memory_manager.c:327-394 | at an empty page: it shows the frame with the permissions, the frame gains one reference, every other user page shows what it did, and it panics iff a table is needed and cannot be had |
| PageTables.MapFrameAnywhere | kern/mem/memory_manager.c:327-394 | at any page: on the frame it already shows nothing changes, not even the permissions; otherwise the old frame loses a reference and the new one gains it |
| PageTables.UnmapFrameKeeps | kern/mem/memory_manager.c:441-454 | the page is empty, its frame loses one reference and is freed with the last, every other user page shows what it did |
| PageTables.AllocPageKeeps | kern/mem/chunk_operations.c:215-227 | one turn of allocate_chunk panics iff frames or table room run out, and otherwise adds just that page and at most its table |
| Chunks.AllocPagesKeeps | kern/mem/chunk_operations.c:215-229 | allocate_chunk panics iff frames or heap pages run out; otherwise each page shows a fresh frame that records its address, and nothing else changes |
| Chunks.AllocateChunkAnswers | kern/mem/chunk_operations.c:197-230 | -1 and no change iff some page of the range is mapped; otherwise panic iff frames or heap pages run out, and else 0 with the range allocated |
| Chunks.CalculateRequiredFrames | kern/mem/chunk_operations.c:274-316 | for a non-empty range the answer is the unmapped pages plus the missing tables of the range |
| Chunks.CalculateAllocatedSpace | kern/mem/chunk_operations.c:236-264 | the counters grow by the distinct tables and by the mapped pages of the range |
| Chunks.PredictionIsExact | kern/mem/chunk_operations.c:197-316 | allocating an unmapped range takes exactly the predicted number of frames, and afterwards the counting functions see the whole range and every table covering it |
| Chunks.CheckMeansDisjoint | kern/mem/chunk_operations.c:41-47 | the check at the start of cut_paste_pages lets only disjoint ranges through |
| Chunks.MovePagesKeeps | kern/mem/chunk_operations.c:49-66 | after each number of turns the destination shows what the source showed, no frame was freed and the counts of used frames are as before |
| Chunks.CutPasteMoves | kern/mem/chunk_operations.c:24-69 | on -1 nothing changed; otherwise the ranges were disjoint, entries moved with frame and permissions, the source is empty, counts are unchanged, and it panics iff tables cannot be had |
| Chunks.ShareChunkAliases | kern/mem/chunk_operations.c:141-190 | on -1 nothing changed; otherwise both ranges show the same frames and each gained exactly the new pages that show it |
| UserMemory.UnmapWsKeeps | kern/mem/chunk_operations.c:361-377 | the first loop unmaps exactly the resident pages of the range |
| UserMemory.RemoveIfEmptyKeeps | kern/mem/chunk_operations.c:385-402 | a table goes iff nothing is mapped under its directory entry; then just its heap block is returned, its frame loses a reference and is free with the last, and no user page shows a difference; otherwise nothing changes |
| UserMemory.FreeUserMemFrees | kern/mem/chunk_operations.c:342-406 | no working-set entry of the range is left, exactly the resident pages of the range are unmapped, exactly the tables of the range that are then empty are removed, the heap gains a page and loses an allocated block for each of them and no other, each of their frames loses a reference and is free if that was the last, and nothing outside changes |
| UserMemory.FreeUserMemPages | kern/mem/chunk_operations.c:361-377 | an entry in use whose page lies in the range is cleared and no other entry changes; a page of the range that an entry in use holds is unmapped and no other page of anybody changes |
| KernelRuns.StepKeeps | kern/mem/memory_manager.c:53-454 | every memory operation, the temporary mapping and the two calls on shared objects keep counts, free list, heap and page tables consistent, leave every user page that its arguments do not name as it was, and keep the objects and what any frames storage holds |
| KernelRuns.EveryRunCounts | kern/mem/memory_manager.c:145-199 | after every run from boot, with any strategy at each call, each frame's counter is the number of entries mapping it (those of storages aside), and the free list holds, each once, exactly the unreferenced frames but those allocate_frame has given out and nobody has mapped yet |
| KernelRuns.EveryRunFinds | kern/mem/kheap.c:14-139 | after every run a heap page is mapped iff it is in an allocated block (or holds descriptors), the address conversions are inverse there, and get_page_table finds the installed table |
| KernelRuns.EveryRunFiles | kern/mem/shared_memory_manager.c:170-205 | once an object exists, get_frame_from_storage reads at index i the i-th frame that was filed, after every further run, even if its pages were unmapped |
| KernelRuns.EveryRunAliases | kern/mem/shared_memory_manager.c:268-349 | in every run from boot, whoever created or got an object sees at each of its pages, as long as no later call names that page, the frame its storage files there, writable iff it created the object or the object is writable; so any two see the same frame |
| KernelRuns.FreedObjectBreaks | kern/mem/shared_memory_manager.c:311-349 | from any state in which an object of one page can be created: its creator unmaps the page, the frame still filed in its storage is on the free list, and getSharedObject then answers as if nothing had happened and leaves counts and free list wrong |
| KernelRuns.FreedObjectFromBoot | kern/mem/shared_memory_manager.c:311-349 | such a state is reached by three calls from every boot memory with a few frames more than the descriptors take |
| KernelMemory.Memory.InitializePaging | kern/mem/memory_manager.c:53-116 | exactly the frames in use since boot have one reference, all others are free, each listed once and the highest first |
| KernelMemory.Memory.AllocateFrame | kern/mem/memory_manager.c:145-172 | the head of the free list is taken, or panic iff it is empty |
| KernelMemory.Memory.DecrementReferences | kern/mem/memory_manager.c:195-199 | the array and the list change exactly as specified |
| KernelMemory.Memory.UnmapSlot | kern/mem/memory_manager.c:441-454 | entry, counter and free list change exactly as specified |
| KernelMemory.Memory.MapSlot | kern/mem/memory_manager.c:374-393 | entry, counter and free list change exactly as specified |
| KernelMemory.Memory.AllocateKernelChunk | kern/mem/chunk_operations.c:197-230 | -1 and no change iff some page of the range is mapped; otherwise the specified run of pages, or panic for want of frames |
| KernelMemory.Memory.InitializeDynBlockSystem | kern/mem/kheap.c:14-44 | the kernel heap is set up as specified and all invariants hold |
| KernelMemory.Memory.Kmalloc | kern/mem/kheap.c:46-86 | linked lists, entries and frames change exactly as the specified kmalloc, and all invariants hold |
| KernelMemory.Memory.Kfree | kern/mem/kheap.c:88-109 | linked lists, entries and frames change exactly as the specified kfree, and all invariants hold |
| KernelMemory.Memory.GetPageTable | kern/mem/memory_manager.c:210-261 | the table reached through the recorded heap address |
| KernelMemory.Memory.GetFrameInfo | kern/mem/memory_manager.c:406-425 | the frame and permissions a user page shows |
| KernelMemory.Memory.CreatePageTable | kern/mem/memory_manager.c:263-296 | the specified table is installed and zeroed, or panic |
| KernelMemory.Memory.MapFrame | kern/mem/memory_manager.c:327-394 | memory changes exactly as the specified map_frame, and all invariants hold |
| KernelMemory.Memory.UnmapFrame | kern/mem/memory_manager.c:441-454 | memory changes exactly as the specified unmap_frame, and all invariants hold |
| KernelMemory.Memory.AllocateChunk | kern/mem/chunk_operations.c:197-230 | the loops produce exactly the specified result and return value |
| KernelMemory.Memory.CutPastePages | kern/mem/chunk_operations.c:24-69 | the loops produce exactly the specified result and return value |
| KernelMemory.Memory.ShareChunk | kern/mem/chunk_operations.c:141-190 | the loops produce exactly the specified result and return value |
| KernelMemory.Memory.FreeUserMem | kern/mem/chunk_operations.c:342-406 | working set, page tables and heap change exactly as specified, and the page file holds no page of the range while every other page reads as before |
| Shares.CreateKeeps | kern/mem/shared_memory_manager.c:268-307 | a taken name or a full array is refused without change; otherwise it panics iff frames or heap pages run out, and else the first empty slot holds the object, its range shows unused frames with one reference each, its storage holds them in order, and nothing else changes |
| Shares.GetKeeps | kern/mem/shared_memory_manager.c:311-349 | an unknown name is refused without change; otherwise it panics iff page tables cannot be had, and else the range shows the frames read from the storage, which are those filed at creation, writable iff isWritable is 1, each frame gains one reference, and nothing else changes |
| Shares.GetTurnIff | kern/mem/shared_memory_manager.c:323-333 | one turn of getSharedObject whose page table exists keeps everything consistent iff the filed frame is not on the free list and its counter has room |
| Shares.CreateShowsBytes | kern/mem/shared_memory_manager.c:287-302 | in bytes: after a success every page with one of the size bytes shows the frame filed at its index, writable, the storage holds as many frames as pages hold the size with less than a page to spare, no page beyond the last byte is touched, and the slot records owner, name, size, isWritable and one reference |
| Shares.GetShowsBytes | kern/mem/shared_memory_manager.c:321-341 | in bytes likewise for a getter, writable iff the object was created with isWritable 1, with one reference more |
| Shares.ObjectsAlias | kern/mem/shared_memory_manager.c:268-349 | all who mapped an object see the same frame at the same page, with as many references as there are mappings, and its name is unique |
| Shares.EveryRunAliases | kern/mem/shared_memory_manager.c:268-349 | aliasing, exact counts, filed storages and unique names hold after every run of the two calls, whatever memory is allocated in between and with any strategy at each call |
| Shares.AddFrameKeeps | kern/mem/shared_memory_manager.c:170-205 | add_frame_to_storage panics iff its table is missing and cannot be had; otherwise reading index i gives the frame, every other index and page reads as before, and no counter changes |
| Shares.CreatePageKeeps | kern/mem/shared_memory_manager.c:287-294 | one turn of the loop of createSharedObject: the first free frame is mapped at the page and filed at its index of the storage, tables are created where they are missing, and it panics iff frames or heap pages run out |
| ShareTable.Table.GetShareObjectId | kern/mem/shared_memory_manager.c:113-130 | the first live object of that owner and name, or E_SHARED_MEM_NOT_EXISTS iff there is none |
| ShareTable.Table.AddFrameToStorage | kern/mem/shared_memory_manager.c:173-192 | the table is made if need be and exactly the entry of that index is written |
| ShareTable.Table.CreateSharedObject | kern/mem/shared_memory_manager.c:268-307 | array, heap, page tables and storage change exactly as specified |
| ShareTable.Table.GetSharedObject | kern/mem/shared_memory_manager.c:311-349 | array, heap, page tables and storage change exactly as specified |
| PageFile.PageFile.constructor | kern/disk/pagefile_manager.c:78-91 | disk frames 1 and up are free, each once, and no page is stored |
| PageFile.PageFile.AddEnvPage | kern/disk/pagefile_manager.c:226-255 | the page reads as written and every other page as before, or E_NO_PAGE_FILE_SPACE and no change iff it is new and no disk frame is free |
| PageFile.PageFile.AddEmptyEnvPage | kern/disk/pagefile_manager.c:196-224 | the page has a disk frame of its own and no other page changes |
| PageFile.PageFile.UpdateEnvPage | kern/disk/pagefile_manager.c:257-336 | the page reads as the frame's contents, or no page changes and panic iff it is new and either outside heap and stack or without space |
| PageFile.PageFile.ReadEnvPage | kern/disk/pagefile_manager.c:338-366 | the stored contents, or E_PAGE_NOT_EXIST_IN_PF iff there are none |
| PageFile.PageFile.RemoveEnvPage | kern/disk/pagefile_manager.c:368-385 | only that page is gone and its disk frame is free again |
| PageFile.PageFile.FreeEnv | kern/disk/pagefile_manager.c:387-431 | exactly the environment's disk frames below USER_TOP return to the list; every disk frame stays accounted for iff it had none at or above |
| PageFile.TakeKeeps | kern/disk/pagefile_manager.c:113-124 | disk frames stay partitioned between the free list and the pages when one is handed out |
| PageFile.ReturnKeeps | kern/disk/pagefile_manager.c:129-134 | and when one is returned |
| PageFile.FreeEnvLosesFrame | kern/disk/pagefile_manager.c:387-431 | an environment with one page, at USER_TOP: its disk frame is neither free nor used after pf_free_env |
| PageFile.GrowableAddresses | kern/disk/pagefile_manager.c:275 | pf_update_env_page adds a page iff its address lies from USER_HEAP_START to USER_HEAP_MAX or from USTACKBOTTOM to USTACKTOP |
| PageFileRuns.Replay | kern/disk/pagefile_manager.c:196-431 | over every run of additions, empty additions, updates, removals and frees on a new page file, exactly the operations take effect that add no page or find room for it; a read then returns the last data written for that page of that environment, whatever was done to others; the free disk frames are the initial ones less the pages there are; and the run ends early exactly where an update cannot add its page and panics |
| PageFileRuns.Perform | kern/disk/pagefile_manager.c:196-431 | one operation has no effect iff it adds a page while no disk frame is free or, being an update, outside heap and stack; it panics iff it is such an update |
| PageFileRuns.AllEffective | kern/disk/pagefile_manager.c:113-124 | every operation of a log takes effect iff at each one the pages the log has so far leave room for the page it adds |
| PageFileRuns.ShortLogs | kern/disk/pagefile_manager.c:113-124 | so a log no longer than the free disk frames, whose updates are of heap or stack pages, takes effect as a whole |
| PageFileRuns.NeverTooMany | kern/disk/pagefile_manager.c:113-124 | however long the log, there are never more pages than disk frames |
| PageFileRuns.FramesLeft | kern/disk/pagefile_manager.c:78-134 | free disk frames and stored pages together are all the disk frames but the first |
| WorkingSet.Pages.GetSize | kern/mem/working_set_manager.c:16-21 | the number of entries in use |
| WorkingSet.Pages.SetEntry | kern/mem/working_set_manager.c:36-46 | the entry holds the page with the stamp of one use |
| WorkingSet.Pages.ClearEntry | kern/mem/working_set_manager.c:48-54 | only that entry changes, and it is empty |
| WorkingSet.Pages.Invalidate | kern/mem/working_set_manager.c:23-34 | only the first entry with the page is cleared |
| WorkingSet.Pages.UpdateTimeStamps | kern/cpu/sched.c:648-676 | every entry in use is aged by its page's used bit as the entries before left it, the bit is then clear, and its stamp is that of its longer history |
| WorkingSet.SeesEveryUse | kern/cpu/sched.c:648-676 | every entry that holds a used page is aged as used iff no used page is held by two entries |
| WorkingSet.TickMeans | kern/cpu/sched.c:648-676 | bit by bit: an entry in use keeps its page, its stamp moves two bits to the right and gets its top bit iff the page was used and no entry before holds it, empty entries stay, and exactly the used bits of pages held are cleared |
| WorkingSet.Pages.OlderMeansUsedLongerAgo | kern/cpu/sched.c:648-676 | comparing two entries' stamps compares the used bits the clock saw, most recent tick first |
| LruAging.AgedIsShiftAndOr | kern/cpu/sched.c:668-674 | bit by bit: bit i of the new stamp is bit i+2 of the old, the top bit is the used bit, and the stamp stays a 32-bit word |
| LruAging.StampEncodesHistory | kern/cpu/sched.c:668-674 | after any history a stamp is the base-4 encoding of the last 16 used bits |
| LruAging.StampsCompareHistories | kern/cpu/sched.c:668-674 | one stamp is smaller than another iff its history comes first in lexicographic order |
| Scheduling.StepPlaces | kern/cpu/sched.c:43-61 | no call moves an environment to two places or loses one, except the exit of a NEW one |
| Scheduling.ExitPlaces | kern/cpu/sched.c:476-533 | sched_exit_env loses an environment exactly if it was NEW |
| Scheduling.WaitSemOk | kern/conc/semaphore_manager.c:178-200 | a wait keeps value = initial + signals - waits, queue length = max(0, -value), and the order of arrival |
| Scheduling.SignalSemOk | kern/conc/semaphore_manager.c:206-225 | a signal keeps the same, and a negative value means somebody is queued |
| Scheduling.StepKeepsSound | kern/conc/semaphore_manager.c:178-225 | every call keeps everybody in one place at most, NEW, EXIT or BLOCKED iff on that queue, and every semaphore's books right |
| Scheduling.EveryRunKeepsEverybody | kern/cpu/sched.c:43-308 | after every run each live environment is in exactly one of running, ready, new, exit or one semaphore queue, and nobody else is anywhere |
| Scheduling.EveryRunFromBoot | kern/cpu/sched.c:228-237 | sched_init and an array of empty semaphores are a sound start, so the same holds after every run from there |
| Scheduling.BracketsExclude | kern/conc/semaphore_manager.c:178-225 | in every run in which each environment waits on a new semaphore and signals it alternately, those past their wait and not at their signal are at most its initial value, exactly so many while anybody is queued, and the blocked are released in order of arrival |
| Scheduling.ReadyAllOrder | kern/cpu/sched.c:356-367 | sched_run_all puts all NEW environments in front of the ready queue, in reverse |
| Scheduling.StepServes | kern/cpu/sched.c:105-174 | each call of fos_scheduler brings a ready environment one place nearer, and nothing but its own exit sets it back |
| Scheduling.BoundedWaiting | kern/cpu/sched.c:105-174 | an environment with k ahead of it runs by the (k+1)-th call of fos_scheduler, whatever is inserted meanwhile |
| Scheduling.CreateNeedsNewName | kern/conc/semaphore_manager.c:145-173 | createSemaphore keeps names unique iff the name was not taken: its own test never fires |
| Scheduling.SemaphoresRefine | kern/conc/semaphore_manager.c:178-225 | wait and signal do to a semaphore what the air reservation's model of them says |
| Lifecycles.StepMoves | kern/cpu/sched.c:450-533 | one table says where each call sends every environment: sched_run_env and sched_run_all make NEW ones ready or running, sched_exit_env sends a running or ready one to the EXIT queue, a wait blocks the caller iff the value is at most 0, a signal readies the oldest queued iff the value is negative, and nobody else moves |
| Lifecycles.SomeSpot | kern/cpu/sched.c:248-308 | every environment is active, NEW, exited, queued at a semaphore or nowhere: the table covers everybody |
| Lifecycles.StatusTells | kern/cpu/sched.c:248-308 | in every sound state the status is that of the place: RUNNABLE if running, READY or RUNNABLE if ready, NEW, EXIT or BLOCKED on those queues |
| Lifecycles.EveryRunMoves | kern/cpu/sched.c:228-237 | after every run from sched_init each environment is where the table has led it and there alone, with the status of that place, and the scheduler is stopped iff nobody runs |
| Lifecycles.ExitLeaves | kern/cpu/sched.c:476-533 | sched_exit_env of a running or ready environment puts it first on the EXIT queue with status EXIT, and it is no longer running, ready or NEW |
| Lifecycles.ExitedForGood | kern/cpu/sched.c:476-533 | in every run from there it stays there and never runs again |
| Lifecycles.NewUntilRun | kern/cpu/sched.c:450-474 | a NEW environment does not run before a call of sched_run_env for it or of sched_run_all |
| Lifecycles.StepAwake | kern/cpu/sched.c:105-174 | the scheduler is stopped iff nobody runs; after each of its calls somebody runs unless nobody is ready, and sched_run_env and sched_run_all leave somebody running if they readied anybody |
| Lifecycles.CreatedAsAsked | kern/conc/semaphore_manager.c:145-173 | the semaphore lies in the slot answered, with the value asked for and nobody queued, is found by its name if that was not taken, and no other slot changes |
| Lifecycles.CreatedExcludes | kern/conc/semaphore_manager.c:145-225 | in every run that brackets its work with a semaphore created for a value, at most that many are inside, and exactly so many while anybody is queued |
| Scheduler.Machine.constructor | kern/cpu/sched.c:228-237 | with create_semaphores_array: the lists are empty and distinct and the state is the specified start |
| Scheduler.Machine.FosScheduler | kern/cpu/sched.c:105-174 | the linked ready queue, the current environment and the scheduler state change exactly as specified |
| Scheduler.Machine.RunEnv | kern/cpu/sched.c:450-474 | exactly as specified, and no change if the environment is not NEW |
| Scheduler.Machine.RunAll | kern/cpu/sched.c:356-367 | LIST_FOREACH has saved the next element before its body unlinks one, so the loop meets every NEW environment and produces exactly the specified state |
| Scheduler.Machine.ExitEnv | kern/cpu/sched.c:476-533 | the loops produce exactly the specified state, losing a NEW environment |
| Scheduler.Machine.GetSemaphoreId | kern/conc/semaphore_manager.c:103-118 | the first live semaphore of that owner and name, or E_SEMAPHORE_NOT_EXISTS iff there is none |
| Scheduler.Machine.CreateSemaphore | kern/conc/semaphore_manager.c:145-173 | the first empty slot is filled; the duplicate test is never true |
| Scheduler.Machine.WaitSemaphore | kern/conc/semaphore_manager.c:178-200 | semaphore, statuses and linked queues change exactly as specified |
| Scheduler.Machine.SignalSemaphore | kern/conc/semaphore_manager.c:206-225 | semaphore, statuses and linked queues change exactly as specified |
| AirSemaphores.PassAvail | user/tst_air_clerk.c:54-155 | passing a wait takes one place of that semaphore and of no other |
| AirSemaphores.MoveAvail | user/tst_air_clerk.c:54-155 | any other step frees one place of the semaphore it signals, if any, and of no other |
| AirSemaphores.StepKeepsSems | user/tst_air_clerk.c:54-155 | every step keeps the places of each semaphore an exact count of where the processes are, and blocked means queued at the semaphore waited on |
| AirLine.SemaphoresExclude | user/tst_air_customer.c:48-66 | at most one process is inside each critical section |
| AirLine.GrantedFindsId | user/tst_air_clerk.c:58-66 | a clerk let through cust_ready finds an id in the queue |
| AirLine.StepKeepsLine | user/tst_air_customer.c:48-69 | every step keeps ids distinct, the ready queue exactly the ids put in, and each dequeued id with one clerk or served |
| AirBooking.StepKeepsBook | user/tst_air_clerk.c:70-144 | every step keeps tickets left, booked and in a clerk's hands summing to the initial tickets, and each customer's bookings in order |
| AirTheorems.StepKeepsInv | user/tst_air_clerk.c:54-155 | every step of every process keeps the whole invariant |
| AirTheorems.RunKeepsInv | user/tst_air.c:106-152 | the invariant holds after every interleaving, for any numbers of clerks and customers |
| AirTheorems.Flight1Conserved | user/tst_air_clerk.c:78-92 | after every run, while flight 1 is unlocked, tickets left plus bookings are the initial tickets, and the bookings are distinct customers who ordered it |
| AirTheorems.Flight2Conserved | user/tst_air_clerk.c:98-113 | the same for flight 2 |
| AirTheorems.BothFlightsOrNeither | user/tst_air_clerk.c:116-140 | while neither flight is locked every customer is on exactly the flights it ordered or on none, so type 3 is on both or neither |
| AirTheorems.QueuedAndDequeuedOnce | user/tst_air_clerk.c:61-67 | after every run each id is queued once and dequeued once, a dequeued id is with one clerk until served, and queue_out never passes queue_in |
| AirTheorems.NoOverrun | user/tst_air_clerk.c:64-135 | no write of the protocol falls outside its array |
| AirTheorems.NoDeadlock | user/tst_air_clerk.c:116-154 | after every run, while a customer is unfinished or the master still waits, some process can step |
| AirEnd.StepWorks | user/tst_air_clerk.c:54-155 | every step uses up some of a measure |
| AirEnd.RunsAreBounded | user/tst_air.c:106-158 | no run of n customers and c clerks has more than 67n + c + 1 steps |
| AirEnd.EveryRunCanFinish | user/tst_air.c:106-158 | every run can be continued to one that cannot go on |
| AirEnd.RunsEndSettled | user/tst_air.c:155-226 | every run that cannot go on has finished all customers, served and collected each id once, left the semaphores at the asserted values, and put everybody on exactly the flights it ordered or on none |
| AirEnd.MasterSucceeds | user/tst_air.c:155-226 | if the tickets suffice, every check of the master program passes at the end of every run |
| AirOnKernel.RunnerEnabled | kern/cpu/sched.c:105-174 | the scheduler runs no process that is blocked: whoever runs and is not through can step in the state machine |
| AirOnKernel.RunnerCanGo | kern/conc/semaphore_manager.c:178-225 | with unique semaphore names the running process can always make the call its program has come to |
| AirOnKernel.EventKeeps | kern/conc/semaphore_manager.c:178-225 | every call of a process, every other step of it and everything others do keeps each semaphore in its slot with the same value and the same processes queued in the same order |
| AirOnKernel.Simulates | user/tst_air.c:106-152 | whatever the scheduler decides and whatever other environments do, the processes step as in some run of the state machine, and the kernel's semaphores are the ones that run leads to |
| AirOnKernel.NeverStuck | user/tst_air.c:106-152 | in every run on the kernel, while a customer is unfinished or the master still waits, the environment of some unfinished process is queued at none of the semaphores |
| AirOnKernel.Flight1AddsUp | user/tst_air_clerk.c:78-92 | in every run on the kernel, whenever the kernel's semaphore of flight 1 is free, that flight's tickets left and bookings are the initial tickets, and its bookings are distinct |
| AirEnd.Find | user/tst_air.c:231-247 | 1 iff the value is among the first entries |
| AirEnd.CheckBookings | user/tst_air.c:171-199 | the three loops succeed iff every customer is in the booked array of each flight it ordered |
| NumberText.PrintNum | lib/printfmt.c:36-51 | printnum emits exactly the padded digits |
| NumberText.PrintSigned | lib/printfmt.c:192-199 | %d emits the sign, then the padded digits of the magnitude |
| NumberText.OutputLength | lib/printfmt.c:36-51 | the output is as long as the larger of width and digit count |
| NumberText.Strtol | lib/string.c:180-225 | the loops compute the specified value and the end of the number |
| Numerals.StrtolReads | lib/string.c:180-225 | a text of blanks, a sign, a prefix that names the base, digits in small or large letters and a rest is consumed up to the rest, and its value is that of the digits with the sign, modulo 2^32 as a long |
| Numerals.EveryTextHasParts | lib/string.c:180-225 | every text splits so for every base, so this says what strtol makes of any text |
| Numerals.StrtolReadsPrefixed | lib/string.c:193-202 | for every number, after blanks and any sign: 0x and its hex digits with base 0 or 16, 0 and its octal digits or its decimal digits with base 0, and its digits without prefix with their base, in small or large letters, are consumed whole and give the number modulo 2^32 |
| Numerals.DigitsSpell | lib/printfmt.c:36-51 | printnum writes the shortest numeral of the number, highest digit first and in small letters |
| NumberText.WrapStep | lib/string.c:216 | wrapping at every digit is wrapping once at the end |
| NumberText.StrtolUndoesPrintnum | lib/printfmt.c:36-51 | strtol consumes all that printnum emits, for every number, base, width and padding with spaces or zeros, and returns the number modulo 2^32, so the number itself iff it is below 2^31 |
| NumberText.SignedRoundTrip | lib/printfmt.c:192-199 | for %d the round trip extends to negative numbers iff no blanks come between the sign and the digits |
| NumberText.Ltostr | lib/string.c:227-265 | the buffer holds the sign and the text of the magnitude, in order and terminated: the digits are written last first and reversed in place |
| NumberText.LtostrIsDecimalIff | lib/string.c:227-265 | ltostr writes the decimal digits of a number iff none of them but the last is zero |
| NumberText.LtostrIsTail | lib/string.c:227-265 | in any case ltostr writes the end of the decimal digits, back to the first zero after the last digit |
| NumberText.LtostrNamesHundred | lib/string.c:236-246 | ltostr gives different names to the numbers 0 to 99 |
| NumberText.LtostrConfusesHundred | lib/string.c:236-246 | and the same name to 0 and 100 |

## Left out

- Shares.GetSharedObject: the out-of-range read of `shares[-16]` before the test of a missing name is not modelled; its value is never used.
- PageFile.PageFile.AddEnvPage: disk page tables are values inside their directory, not kernel-heap blocks; at or above USER_TOP the source reaches a table through the static mapping of its frame, which is the same memory while the frame lies below that of the kernel heap's start.
- PageFile.PageFile.AddEmptyEnvPage: with initializeByZero it is AddEnvPage of the zero page; the statistics counters are not modelled.
- PageFile.PageFile.UpdateEnvPage: the contents written are a parameter; the temporary mapping is `Paging.TempMappingLeavesNoTrace`.
- KernelHeap.Kmalloc: requests are non-zero and do not wrap when rounded up; under best fit either a hole is large enough or none equals the unassigned locals.
- PageTables.MapFrame: kernel pages other than the kernel heap and USER_LIMIT, whose tables exist since boot, are not operated on.
- Scheduling.FosScheduler: env_run is the switch to the chosen environment, which becomes RUNNABLE; its other effects are not part of this model.
- Chunks.AllocateChunk: the chunk operations are called with page-aligned addresses, in page numbers; their rounding of other addresses is not modelled.
- Scheduling.CreateSemaphore: is called while the array has an empty slot; growing the array needs krealloc, which panics.
- Scheduling.ExitEnv: is called while some environment runs, as the source dereferences curenv.
- Air.Next: shared memory accesses between semaphore calls are atomic one by one; cust_finished semaphores are named by id, as ltostr does up to 100 customers.
- NumberText.Ltostr: is not called with the smallest number, whose negation overflows.
- The list of free frames and that of free disk frames are sequences, head first; the block lists and the queues of scheduler and semaphores are linked in place.
- Shares.CreateDirectory: a page directory is named, not addressed: the block it occupies is allocated, and kfree of the block of a directory still in use is not described.
- KernelRuns.MayGet: the runs get an object only while its frames are in use; `Shares.GetTurnIff` says that this is the exact condition, and `KernelRuns.FreedObjectFromBoot` that runs reach states where it fails.
- PageFileRuns.SafeLog: an environment is freed only when it has no page at or above USER_TOP; `PageFile.PageFile.FreeEnv` says that this is the exact condition for accounting for every disk frame.
- AirOnKernel.Happens: nobody else uses the reservation's semaphores, and its processes make no other calls while they run it; the steps that are not calls are atomic one by one.
- Page buffering (isBuffered, modified_frame_list), the LRU-lists replacement, TLB flushes and permission checks of system calls.
- The third branch of get_page_table, which calls the fault handler for a table on disk: entries are always zero or present.
- pt_set_page_permissions, pt_get_page_permissions, pt_clear_page_table_entry and the page-directory flags, which read or write flag bits of one entry; of them only PERM_USED is modelled, in `WorkingSet`.
- copy_paste_chunk, move_user_mem, allocate_user_mem, the buddy system, MLFQ, realloc and krealloc, sfree and freeSharedObject: stubs, or resting on physical non-aliasing.
- alloc_block_NF, whose body is that of alloc_block_FF, and LIST_CONCAT, which does not keep sizes.
- sched_kill_env, sched_kill_all, sched_exit_all_ready_envs and free_semaphore_object: they rest on env_free, which is not part of this model, or drop queued environments.
- Devices, interrupts, the boot loader, the command prompt and the other user programs.
