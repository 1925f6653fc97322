# A model of the my-os kernel

This project models the parts of a small x86_64 kernel whose correctness spans several functions, and
proves what they promise.

* **Memory.** A bitmap frame allocator (`Pmm`, with the search of `MemoryMap`) feeds a four-level page-table
  walker (`Vmm` over the theory in `PageTables`, `TableEffects`, `TableKeys`, `PageRanges` and `FrameCounts`).
  The walker backs a first-fit heap on a doubly linked block list (`Heap`, `HeapBytes` and `HeapRuns` over
  `HeapBlocks`, `HeapWords`, `HeapLinks`, `HeapPages` and `Allocations`) and a loader of ELF programs with
  rollback (`UserLoader` and `ImageLoader` over `FileBuffer`, `UserRanges`, `UserMemory`, `UserImage` and
  `ImagePages`; `HullOverHeap` is about what unloading does to the heap). `Startup` puts them together from the
  memory map on. Physical memory is one sequence of frames of 512 words that holds page tables and data alike,
  so that a copy or a fresh table that met a live table would show. The main results: the tables stay a tree of
  frames that are in use and are no page's frame, one mapping never disturbs another, no frame is handed out
  twice, a loaded program reads exactly its file and reaches only its own pages, and every path of a run gives
  everything back.
* **Scheduling.** The cooperative scheduler, the wait queues and the TTY are one step machine (`Tasks`).
  A step is a stretch of code that executes with interrupts off; the states between steps are those an
  interrupt can see. `TaskInvariants` proves the invariant behind "no lost wakeup", `TaskRuns` what holds
  over whole runs, and `Scheduler` that the linked queues and the ring of the source take those steps.
* **Files.** `RamFile` is the growing buffer of a file, `Tree` and `FsGrowth` the node tree and how it grows,
  `Vfs` and `FdTable` lookup and descriptors, `Ustar` the archive format, and `Initramfs` the loader, whose
  result `ArchiveTree` describes.
* **Timers.** `TimerLedger` is the timer table and the work queue as one step machine, `TimerRuns` what holds
  over whole runs, and `Timers` and `WorkQueue` the slots and the ring of the source.

Objects whose fields the source updates in place are classes with methods; each method is tied to a function
or relation on values, and the laws are proved about those. Where a large predicate is only passed along it
is wrapped (`Utils.Whole`), which keeps it one fact for the verifier.

## Main results

* `VmmRuns.Run`, `VmmRuns.RunKeeps`: over any run of allocating, freeing, mapping, unmapping and marking by
  callers that hold frames across calls, the page tables stay a tree of used frames that are no page's frame
  and nobody's; every frame stays accounted for; pages that no call names keep their frame and its contents.
* `HeapPages.MapPages`, `Heap.KernelHeap.Kmalloc`, `Startup.HeapAtBoot`: exactly when growing the heap succeeds,
  and exactly when it loses a frame.
* `Startup.BootAndRun`: the chain from the memory map to the end of a user program, with no assumption on the
  states in between.
* `UserLoader.RunPath`, `UserLoader.FramesUsed`: exactly when a program is entered, when the kernel stops and when
  the call fails; when the program starts, every address of every segment reads the file's byte or 0, accessible
  at all four levels, and no other 4 KiB page is open to it; when the call returns, the program's pages are
  unmapped, the heap's allocations hold the bytes they held and the frames used up are accounted for. The file
  goes through a heap buffer: it is stored there and read back, headers and segments, through the page tables.
* `ImageLoader.LoadImage`, `UserRanges.MapRange`: the number of free frames with which loading succeeds, exactly.
* `HullOverHeap.UnloadKeepsHeap`, `HullOverHeap.HeapBetweenSegments`: unmapping the hull of an image takes the
  kernel heap with it if and only if the segments are not all on one side of it; a file that does so.
* `HeapBlocks.RunKeepsHeap`, `HeapBlocks.EmptyAfterRun`, `HeapBlocks.KmallocFailsOnlyWhenFull`,
  `HeapBlocks.KmallocTakesFirst`, `HeapBlocks.KmallocGrowsTail`, `HeapBlocks.KfreeAfterKmalloc`, and
  `Heap.KernelHeap`, whose linked headers refine the block sequence;
  `HeapRuns.Run`, `HeapRuns.RunFrames`, `HeapRuns.RunKeepsBytes`: any sequence of calls on those headers, with the
  page tables beneath them; `HeapLinks.ForeignIgnored` says exactly which other pointers `kfree` ignores, and
  `HeapWords.RequestableIff` exactly which requests `kmalloc` computes right in 64-bit words.
* `MemoryMap.FindFreeRegion`, `Pmm.FrameAllocator.Init`: exact placement and the exact free set at boot.
* `TaskInvariants.StepInv`, `TaskRuns.TraceInv`, `TaskRuns.KeyIsFetched`: no lost wakeup, in every state of
  every run; `TaskRuns.KeysRead`: readers get what was typed; `TaskRuns.BoundedBypass`, `TaskRuns.YieldsInTurn`,
  `TaskRuns.WaitsItsTurn`, `TaskRuns.SleepsLongEnough`, `TaskRuns.WakesAtFirstLook`: who gets control when;
  `Scheduler.Kernel` refines the step machine.
* `TimerRuns.TimerFires`, `TimerRuns.TimerBecomesWork`, `TimerRuns.RunsInOrder`, and `Timers.Run`, which ties them
  to the tables: over any run every timer is handed over once, by the first poll at least its delay after the
  call that set it, and becomes work if there is room.
* `Initramfs.Load` with `ArchiveTree.LookupFindsFile` and `ArchiveTree.LookupFindsDir`; `RamFile.File.Write`;
  `FdTable.OpenAndRead`; `Ustar.PackRoundTrip` and `UserImage.FileRoundTrip`.

## Hypotheses

* Requests to `kmalloc` are `Requestable`: its sums in 64-bit words give what is meant. `HeapWords.RequestableIff`
  proves that condition exact; `HeapWords.GrowsForNothing`, `HeapWords.GrowsPastTheLimit` and
  `HeapWords.GetsAnyBlock` are requests that are not, one for each sum that can wrap.
* Memory and reserved ranges end below 2^63 (`ADDR_LIMIT`), where the sums of the search for a bitmap stay below
  2^64.
* A frame is freed or mapped only by whoever holds it (`VmmRuns.Lawful`): it is neither a table nor mapped. The
  bare allocator takes any frame, as the source does.
* `kfree` is called with null, with a pointer whose header is a block's, or where the bytes before the pointer do
  not read as a used header. `HeapLinks.ForgedHeaderBreaksList` shows what happens otherwise.
* Every frame lies below 1 GiB (`MAX_FRAMES`), the part that the boot tables map to itself.
* A user program's pages lie where no large page is, were unmapped before the run, and do not meet the
  kernel heap (`ClearOfHeap`, `Idle`); `HullOverHeap` says what happens otherwise. Before a run no 4 KiB page has
  the user bit (`NoUserPages`), which holds at boot and after every run.
* Memory holds everything but the headers of heap blocks, which are a map of their own (`hdr`): of the 48 bytes
  at the address of a block, memory says nothing.
* Interrupts come in only between steps; the interrupt handlers of keyboard and timer are one step each.
* Data of archive entries lies inside the archive (`Ustar.Inside`). That no path is both file and directory
  is a condition of the result (`ArchiveTree.Consistent`), not of the loader.
* Clock ticks do not go backwards.

kernel/heap.c:84-91 does not look whether a page it maps was mapped. The model keeps it so: a frame whose
mapping fails is recorded in `lost` and its page in `holes`. At most one is lost in a call; `HeapPages.MapPages`
says when, counted from the tables before the call, and `Startup.HeapAtBoot` gives the case of a boot with one
or two free frames.

Allocation failures that the source cannot foresee are parameters (`granted`), as are the user program
(`Program`, a function of its entry point and of the memory it finds when it starts), what a callback asks for
(`react`), what a device delivers, and the clock.

## Model

| member | source | states |
|---|---|---|
| `Utils.AlignDownIsFloor` | kernel/utils.c:7-9 | the mask form of rounding down is the largest multiple of a power of two not above the value |
| `Utils.AlignUpIsCeiling` | kernel/utils.c:3-5 | the mask form of rounding up is the smallest multiple not below the value, as long as the sum does not wrap |
| `Utils.AlignUpWraps` | kernel/utils.c:3-5 | when the sum wraps at 2^64 the result is 0, so the condition of the previous row is exact |
| `Utils.PageMasks` | arch/x86_64/user_mode.c:37-43 | the arithmetic forms used for pages below equal the masks with 0xFFF |
| `Utils.OverlapIsSharedAddress` | kernel/utils.c:27-32 | two ranges overlap if and only if some address lies in both |
| `MemoryMap.EntryRange` | kernel/pmm.c:219-237 | rounding an available entry inwards, and up to 1 MiB, keeps exactly the frames that lie wholly inside it |
| `MemoryMap.FindMaxUsableAddr` | kernel/pmm.c:141-169 | the result is the greatest page-aligned end of a usable entry, reached by one of them, or 0 |
| `MemoryMap.AvailableBelowMax` | kernel/pmm.c:141-169 | so every available frame lies below it and gets a bit |
| `MemoryMap.JumpSkipsNothing` | kernel/pmm.c:171-217 | every page-aligned spot between the cursor and the end of a colliding range collides with the same range |
| `MemoryMap.FirstCollision` | kernel/pmm.c:171-217 | finds a reserved range that overlaps the candidate if and only if there is one |
| `MemoryMap.LowestPlacement` | kernel/pmm.c:171-217 | within one entry, when no sum of cursor and size leaves 64 bits: the lowest spot that fits and is clear of all reserved ranges; 0 only when there is none |
| `MemoryMap.FindFreeRegion` | kernel/pmm.c:171-217 | for memory and reserved ranges below 2^63: the lowest spot in the first available entry that has one; 0 if and only if no entry has one |
| `MemoryMap.PlaceBitmap` | kernel/pmm.c:38-98 | the bitmap is placed by that search with a bit for every frame below the greatest usable address |
| `Pmm.FrameAllocator.BitmapSet` | kernel/pmm.c:334-339 | the bitmap loses exactly this frame from the set of free frames |
| `Pmm.FrameAllocator.BitmapClear` | kernel/pmm.c:341-346 | the bitmap gains exactly this frame |
| `Pmm.FrameAllocator.MarkRangeUsed` | kernel/pmm.c:239-257 | exactly the frames that touch the range leave the free set |
| `Pmm.FrameAllocator.MarkRangeFree` | kernel/pmm.c:259-277 | exactly the frames wholly inside the range join the free set |
| `Pmm.FrameAllocator.RecountFreeFrames` | kernel/pmm.c:279-287 | the counter becomes the number of free frames |
| `Pmm.FrameAllocator.MarkAvailableRegionsFree` | kernel/pmm.c:219-237 | from an all-used bitmap: a frame is free if and only if it lies wholly in an available entry above 1 MiB |
| `Pmm.FrameAllocator.MarkBootMemory` | kernel/pmm.c:38-98 | then the four reserved ranges are taken out again and the counter is right |
| `MemoryMap.ReservesMean` | kernel/pmm.c:38-98 | the bitmap keeps clear of exactly the bytes below 1 MiB and those on pages of the kernel or of the boot information |
| `Pmm.FrameAllocator.Init` | kernel/pmm.c:38-98 | on success a frame is free if and only if it is wholly available above 1 MiB and touches no reserved range, frame 0 never is; the bitmap covers exactly the memory below the greatest usable address and lies on no reserved byte; failure means no memory map or no placement for that bitmap |
| `Pmm.FrameAllocator.AllocFrame` | kernel/pmm.c:289-307 | returns the lowest free frame and takes only that one; returns 0 when nothing is free; the counter stays right |
| `Pmm.FrameAllocator.FreeFrame` | kernel/pmm.c:309-328 | frees an aligned frame in range, at most once in the counter, and ignores anything else |
| `Entries.EntryMasks` | kernel/vmm.c:35-57 | present, user with writable, huge and frame bits read by arithmetic are those read by the kernel's masks |
| `Entries.EntryForms` | kernel/vmm.c:105-137 | the entries built by arithmetic are those built with the kernel's or-expressions |
| `Entries.TableEntryFields` | kernel/vmm.c:35-57 | a table entry is present, not huge and leads to its frame |
| `Entries.PageEntryFields` | kernel/vmm.c:105-137 | a page entry built from a frame and flags is present and reads back that frame and the user and writable flags |
| `Entries.UserEntryFields` | arch/x86_64/user_mode.c:53-96 | marking an entry sets user and writable and keeps present, huge and frame |
| `TableEffects.IndexMasks` | kernel/vmm.c:59-65 | the four indices taken by shift and mask are the base-512 digits of the page number |
| `PageTables.OneParent` | kernel/vmm.c:35-57 | in the table tree two entries that lead to the same table are the same entry |
| `PageTables.SlotUnique` | kernel/vmm.c:59-103 | two pages that share the last-level table share all upper indices |
| `PageTables.WriteLeafWalk` | kernel/vmm.c:105-137 | storing a last-level entry changes the walk of one page only |
| `PageTables.WriteLeafTree` | kernel/vmm.c:105-137 | storing a last-level entry keeps the tables a tree |
| `PageTables.AddTableWalk` | kernel/vmm.c:35-57 | linking in a zeroed table changes no walk |
| `PageTables.AddTableTree` | kernel/vmm.c:35-57 | linking in a frame that is no table yet keeps the tables a tree with one more node |
| `PageTables.MarkWalk` | arch/x86_64/user_mode.c:53-96 | adding access bits to an entry leaves every page's frame as it was and never takes access away |
| `PageTables.MarkTree` | arch/x86_64/user_mode.c:53-96 | adding access bits keeps the tables a tree |
| `TableEffects.BootIdentity` | arch/x86_64/boot.asm:100-113 | the boot tables map every address of the first GiB to itself |
| `TableEffects.BootUnmapped` | arch/x86_64/boot.asm:100-113 | above the first GiB the boot tables map nothing |
| `TableEffects.BootTree` | arch/x86_64/boot.asm:100-113 | the boot tables are a tree |
| `ByteMemory.ReadWrite` | arch/x86_64/user_mode.c:150-157 | a byte store into 64-bit words reads back and disturbs no other byte |
| `ByteMemory.DataWriteShows` | arch/x86_64/user_mode.c:150-165 | writing a frame that is no table keeps the tree and every translation |
| `Vmm.AddressSpace.Boot` | arch/x86_64/boot.asm:100-113 | the address space starts sound, with exactly the three boot tables, no 4 KiB pages, the first GiB mapped to itself and nothing above it |
| `TableKeys.KeyUnique` | kernel/vmm.c:35-57 | no two tables stand at the same place of the tree |
| `TableKeys.KeyPoints` | kernel/vmm.c:35-57 | an entry leads to a table if and only if there is a table of that place |
| `TableKeys.LackingTwice` | kernel/vmm.c:105-126 | creating tables in two goes takes as many frames as all of them together lack |
| `Vmm.AddressSpace.GetMapping` | kernel/vmm.c:165-210 | the address found by walking is that of the page's view, for small and large pages |
| `Vmm.AddressSpace.GetPtePtr` | kernel/vmm.c:59-103 | finds the last-level table of a page if and only if the walk reaches one |
| `Vmm.AddressSpace.GetOrCreateNextTable` | kernel/vmm.c:35-57 | returns the next table, adding an empty one if missing, for exactly one frame; no translation changes; fails on a huge entry or when no frame is left and the table is missing |
| `Vmm.AddressSpace.ReachTable` | kernel/vmm.c:105-126 | reaches or creates all tables of a page, one frame for each that was missing, without changing any translation; fails only on a large page or with fewer free frames than tables are missing |
| `Vmm.AddressSpace.MapPage` | kernel/vmm.c:105-137 | on success exactly this page's translation changes, to the given frame and flags, and exactly the missing tables took a frame each; on failure no translation changes, and the page is large or fewer frames were free than tables were missing |
| `Vmm.AddressSpace.UnmapPage` | kernel/vmm.c:139-163 | exactly this page loses its 4 KiB mapping, its frame is returned and, if asked, free again; large and missing pages stay |
| `Vmm.AddressSpace.MarkUserPage` | arch/x86_64/user_mode.c:53-96 | no frame of any page changes, no access is lost, a mapped 4 KiB page has the user and writable bits at all four levels, and every other 4 KiB page has the entry it had, so that none but this becomes accessible that lacked the user bit |
| `Vmm.AddressSpace.IsOpen` | arch/x86_64/user_mode.c:53-96 | tells whether user code may reach an address: a 4 KiB page with the user bit at all four levels |
| `Vmm.AddressSpace.TakeFrame` | kernel/pmm.c:289-307 | a frame taken is neither a table nor a mapped page |
| `Vmm.AddressSpace.MapSpare` | kernel/vmm.c:105-137 | mapping a frame just taken keeps every frame accounted for once |
| `VmmRuns.Run` | kernel/vmm.c:105-163 | any run of allocating, freeing, mapping (also over a mapped page), unmapping with or without freeing, and marking, by callers that hold frames across calls: sound tables after every call, frames held apart from tables and pages, each step moving exactly the frames it should, every frame accounted for, and nothing dropped unless a page is mapped twice |
| `VmmRuns.RunKeeps` | kernel/vmm.c:105-163 | over such a run free frames, tables, page frames and held frames together stay the same set; pages no call names keep frame and contents; large pages stay |
| `VmmRuns.DroppedHeld` | kernel/vmm.c:105-137 | a frame that a mapping replaced is neither free nor a table nor shown by a page |
| `VmmRuns.NothingDropped` | kernel/vmm.c:105-137 | no frame is replaced in a run that maps no page that may be mapped already |
| `VmmRuns.SeenByMapping` | kernel/vmm.c:105-210 | looking the page up before and after a mapping tells whether it succeeded and which frame it replaced |
| `VmmRuns.KeptTrans` | kernel/vmm.c:105-163 | what single calls keep, runs keep |
| `VmmRuns.IdentityKept` | arch/x86_64/boot.asm:100-113 | the identity mapping of the first GiB outlives every run |
| `PageRanges.SamePage` | kernel/vmm.c:59-65 | addresses below 2^48 share a page if and only if they agree above the low 12 bits |
| `PageRanges.ClearedStep` | arch/x86_64/user_mode.c:262-275 | clearing one more page extends a cleared range |
| `PageRanges.DroppedAfterFailure` | arch/x86_64/user_mode.c:290-304 | after the rollback of a failed range nothing was added and no other page changed |
| `PageRanges.FillThenMark` | arch/x86_64/user_mode.c:277-309 | filled and then marked pages are zeroed, user-accessible and apart from everything else |
| `UserRanges.UnmapRange` | arch/x86_64/user_mode.c:262-275 | exactly the pages that meet the range lose their 4 KiB mappings and their frames are free again |
| `UserRanges.MapRange` | arch/x86_64/user_mode.c:277-309 | succeeds if and only if the range is allowed and there are free frames for its unmapped pages and for the tables missing, and then took exactly those; every page has its own zeroed user frame, accessible at all levels; on failure nothing was added; other pages keep their entries, frames and contents either way |
| `FrameCounts.UnmappedFrames` | arch/x86_64/user_mode.c:277-309 | on a range without pages that number is one frame a page and one for every missing table, counted from the tables before the call |
| `FrameCounts.PaidTwice` | arch/x86_64/user_mode.c:380-404 | mapping in two goes takes exactly the frames of both together, pages and tables that they share counted once |
| `UserMemory.FramesDiffer` | arch/x86_64/user_mode.c:150-157 | two pages never share a frame |
| `UserMemory.StoreByte` | arch/x86_64/user_mode.c:150-157 | a store through the page tables changes the byte at that virtual address and at no other |
| `UserMemory.CopyBytes` | arch/x86_64/user_mode.c:150-157 | a copy from mapped bytes to other pages, read and stored through the page tables, changes exactly the bytes of its range, to those of the source |
| `UserImage.LeRoundTrip` | include/elf.h:26-52 | a number stored low byte first at any place of a file is read back |
| `UserImage.FileRoundTrip` | arch/x86_64/user_mode.c:226-260 | a file put together from an entry point and program headers anywhere behind the file header passes validation and reads back as these |
| `UserImage.HeaderInside` | arch/x86_64/user_mode.c:226-260 | in a validated file every program header lies inside |
| `UserImage.MappedThenCopied` | arch/x86_64/user_mode.c:311-354 | a mapped and copied segment reads the file's bytes and then zeros, on accessible pages |
| `UserImage.SegmentKept` | arch/x86_64/user_mode.c:383-395 | a loaded segment survives work on pages it does not share |
| `FileBuffer.FillBuffer` | arch/x86_64/user_mode.c:210-217 | stores the file into the heap buffer byte by byte through the page tables; every byte outside it reads as before; stops if and only if a byte of the buffer is on no page, at the first such |
| `FileBuffer.Validate` | arch/x86_64/user_mode.c:226-260 | read from the buffer, the checks decide whether the file is valid |
| `FileBuffer.ReadPhdr` | arch/x86_64/user_mode.c:383-386 | read from the buffer, a program header is that of the file |
| `FileBuffer.BufferKept` | arch/x86_64/user_mode.c:383-404 | the buffer still holds the file after work on pages that are no heap pages |
| `UserImage.ValidIff` | arch/x86_64/user_mode.c:226-260 | the files that pass validation, byte by byte |
| `ImageLoader.AcceptableMeans` | arch/x86_64/user_mode.c:318-332 | the checks of a segment, which subtract so as not to wrap, pass if and only if its bytes lie in the file, they are no more than its size in memory, and its addresses lie from 0x1000_0000 up to 0x8000_0000 |
| `ImageLoader.MapLoadSegment` | arch/x86_64/user_mode.c:311-354 | a header whose type is not 1 or whose memory size is 0 changes nothing; what the checks refuse is refused without touching anything; the rest is installed from the buffer, which keeps its bytes, extends the hull, and takes exactly the frames that are missing |
| `ImageLoader.LoadSegments` | arch/x86_64/user_mode.c:380-395 | with headers and bytes read from the buffer: only pages of the image change, those mapped lie in the hull, the buffer still holds the file, and on success the hull is that of the segments and, without shared pages, every address of every header of type 1 reads the file's byte or 0 on an accessible page |
| `UserLoader.OpenPages` | arch/x86_64/user_mode.c:290-308 | if no 4 KiB page had the user bit before loading, the pages open to the program are those of its hull and its stack |
| `UserLoader.RunUser` | arch/x86_64/user_mode.c:432-438 | every store to an open page takes effect, and it alone; the first store to any other page stops the program; nothing but the program's pages changes |
| `ImageLoader.UnmapHull` | arch/x86_64/user_mode.c:442-444 | afterwards no page of the image is mapped |
| `ImageLoader.UnmapStack` | arch/x86_64/user_mode.c:440 | afterwards no stack page outside the hull is mapped |
| `ImageLoader.MapStack` | arch/x86_64/user_mode.c:397-404 | maps the four stack pages or leaves none of them |
| `ImageLoader.LoadImage` | arch/x86_64/user_mode.c:380-404 | segments and stack are in place, or everything mapped is taken back; it loads if and only if every segment passes the checks and the free frames are as many as segments and stack take, pages and missing tables counted once |
| `UserLoader.LoadFile` | arch/x86_64/user_mode.c:368-422 | from the buffer to the program about to start: loads if and only if the file passes the checks and there are frames, and frees the buffer once on every path |
| `UserLoader.RunFile` | arch/x86_64/user_mode.c:368-451 | the buffer is freed once; every page of hull and stack is unmapped unless the program faults, which it does if and only if a store is to a page not open to it; result 0 if and only if the file loads, there is a task and no fault |
| `UserLoader.RunPath` | arch/x86_64/user_mode.c:356-451 | exactly when there is no buffer, when the kernel stops (a hole under the buffer or a fault of the program) and when the result is 0; when the program starts, segments and stack are in place and no other 4 KiB page is open to it; whenever it returns: hull and stack unmapped, live allocations as before with every byte they had, only the buffer's bytes changed in the heap, mapped frames as before but for heap growth, no page left open |
| `UserLoader.ReadFile` | arch/x86_64/user_mode.c:195-224 | the buffer is refused if and only if no free block fits and the heap cannot grow; otherwise it holds the file, unless one of its bytes is on no page, which takes a hole in the heap |
| `UserLoader.RunKeepsAllocations` | arch/x86_64/user_mode.c:356-451 | every byte of every allocation that was live before a run reads the same after it |
| `UserLoader.BufferFreed` | arch/x86_64/user_mode.c:195-224 | allocating and freeing the file buffer leaves the live allocations as they were |
| `UserLoader.FramesUsed` | arch/x86_64/user_mode.c:356-451 | the frames a finished run has used up are new tables, heap pages, or frames lost when the heap grew |
| `ImagePages.Restored` | arch/x86_64/user_mode.c:440-444 | pages unmapped before and after mean the same mapped frames and a free set smaller only by new tables |
| `HeapBlocks.RoundedIsMask` | kernel/heap.c:337 | rounding the request to 16 is the mask form if and only if the sum does not wrap |
| `HeapWords.GrowthWords` | kernel/heap.c:208-217 | the growth computed in 64-bit words, and its comparison with the limit, are those meant if and only if GrowthInWords holds |
| `HeapWords.RequestableIff` | kernel/heap.c:328-358 | kmalloc computed in 64-bit words does what the block-level kmalloc does, whether or not frames are granted, if and only if the request is Requestable |
| `HeapWords.SmallRequest` | kernel/heap.c:328-358 | every request whose growth ends below 2^64 is |
| `HeapWords.GrowsForNothing` | kernel/heap.c:208-217 | a request that is not: for 2^64 - 32 bytes the heap grows by 16 KiB and the result is null |
| `HeapWords.GrowsPastTheLimit` | kernel/heap.c:208-217 | another: the sum with the end of the heap wraps and the limit is passed unnoticed |
| `HeapWords.GetsAnyBlock` | kernel/heap.c:337 | another: a request of 2^64 - 8 bytes rounds to 0 and gets the first free block |
| `HeapBlocks.BlocksDisjoint` | kernel/heap.c:99-147 | two blocks of a tiling never overlap, headers included |
| `HeapBlocks.CarveWellFormed` | kernel/heap.c:115-147 | taking a block, with or without a split, keeps tiling, alignment and no free neighbours |
| `HeapBlocks.CarveLive` | kernel/heap.c:115-147 | taking a block adds one live allocation and changes no other |
| `HeapBlocks.ReleaseWellFormed` | kernel/heap.c:149-192 | freeing with coalescing keeps tiling, alignment and no free neighbours |
| `HeapBlocks.ReleaseLive` | kernel/heap.c:149-192 | freeing removes one live allocation and changes no other |
| `HeapBlocks.ReleaseAfterCarve` | kernel/heap.c:115-192 | freeing what was just taken restores the block list exactly |
| `HeapBlocks.NothingLiveIsOneBlock` | kernel/heap.c:149-192 | a well-formed heap with nothing live is one free block |
| `HeapBlocks.ExpandedFits` | kernel/heap.c:208-249 | after an expansion the search succeeds, at the last block |
| `HeapBlocks.KmallocKeeps` | kernel/heap.c:328-358 | for a Requestable size the heap stays well formed; a pointer is 16-aligned, inside the heap and the payload of one new allocation at least as large as asked and less than 80 bytes larger than rounded; all others stay |
| `HeapBlocks.KmallocTakesFirst` | kernel/heap.c:328-358 | a request is served from the lowest free block that holds it, split off to its rounded size if 80 bytes or more are to spare; every other block stays |
| `HeapBlocks.KmallocGrowsTail` | kernel/heap.c:208-249 | if none holds it, from the end of the heap, grown by as few pages as hold it and its header but four at least, and joined to a free last block |
| `HeapBlocks.KmallocFailsOnlyWhenFull` | kernel/heap.c:328-358 | for a Requestable size: null if and only if no free block fits and the expansion is refused by the limit or for lack of frames |
| `HeapBlocks.KfreeKeeps` | kernel/heap.c:372-393 | the heap stays well formed and exactly the allocation with this pointer, if any, goes |
| `HeapBlocks.KfreeAfterKmalloc` | kernel/heap.c:328-393 | freeing a fresh allocation that needed no expansion restores the exact previous block list |
| `HeapBlocks.RunKeepsHeap` | kernel/heap.c:328-393 | over any run of calls with Requestable sizes the heap stays tiled, aligned and coalesced, if no pointer is freed that is no block's but whose preceding bytes read as the header of an allocation |
| `HeapBlocks.EmptyAfterRun` | kernel/heap.c:328-393 | after any such run: nothing is live if and only if the heap is one free block of all mapped bytes but one header |
| `HeapBlocks.RunKeepsAllocation` | kernel/heap.c:328-393 | over any such run an allocation no call frees keeps address and size |
| `HeapLinks.SplitList` | kernel/heap.c:115-147 | the header writes of a split give the linked list of the split blocks, prev inverse to next |
| `HeapLinks.MergeList` | kernel/heap.c:149-174 | the header writes of a merge give the linked list of the merged blocks |
| `HeapLinks.AppendList` | kernel/heap.c:208-249 | the header writes of an append give the longer list |
| `HeapLinks.KfreeReleases` | kernel/heap.c:149-192 | the header writes of a free on memory that holds a list, applied to a block in use, leave exactly the headers of the released list at its blocks |
| `HeapLinks.UniqueList` | kernel/heap.c:99-113 | a list of blocks has one set of headers |
| `HeapLinks.ForeignIgnored` | kernel/heap.c:377-392 | freeing a pointer anywhere in memory changes no header if and only if the bytes before it do not read as a used header |
| `HeapLinks.ForgedHeaderBreaksList` | kernel/heap.c:377-392 | a concrete family where they do and the block list breaks: payload bytes that read as a used header in front of a free block |
| `HeapPages.MapPages` | kernel/heap.c:64-97 | all pages are backed, or all are unmapped again; without loss if and only if there is a free frame for every page and every table missing before the call; a frame is lost if and only if frames run out at the tables of a page, and it goes unnoticed if and only if that is the last page |
| `HeapPages.FramesStep` | kernel/heap.c:78-92 | each page takes its frame and one for every table still missing after the pages before it |
| `Heap.KernelHeap.FindFreeBlock` | kernel/heap.c:99-113 | the lowest-address free block that fits, or null when there is none |
| `Heap.KernelHeap.SplitBlock` | kernel/heap.c:115-147 | a block with 80 bytes or more to spare becomes one of exactly the size asked for and a free one of the rest; any other stays whole; the headers are those of that list |
| `Heap.KernelHeap.CoalesceBlock` | kernel/heap.c:176-192 | the list becomes that of the block merged with both free neighbours |
| `Heap.KernelHeap.Expand` | kernel/heap.c:208-249 | computed in 64-bit words: grows by whole pages at the end and merges with a free last block, or changes no block; succeeds without losing a frame if and only if it stays below the limit and there are frames for all pages and missing tables |
| `Heap.KernelHeap.Init` | kernel/heap.c:295-326 | the heap becomes the first expansion of the empty heap and is ready, or stays empty and is not; the same exact condition |
| `Heap.FirstRegion` | kernel/heap.c:295-326 | that expansion is one free block of 16384 - 48 bytes |
| `Heap.KernelHeap.Kmalloc` | kernel/heap.c:328-358 | for a Requestable size the linked headers, computed in 64-bit words, do what the block-level allocation does; the heap grows if and only if no free block fits, and whether frames were granted or lost is told exactly from the state before; the pages up to the end of the heap are mapped, without the user bit; old pages keep their frames, and their bytes but for block headers |
| `Heap.BackRegion` | kernel/heap.c:64-97 | the pages of the heap stay mapped up to its end, but for a page whose mapping failed, and none beyond is mapped |
| `HeapBytes.ZeroBytes` | kernel/heap.c:47-53 | exactly the bytes of the range become zero |
| `HeapBytes.Kzalloc` | kernel/heap.c:360-370 | on the blocks it is kmalloc; every byte of the payload reads as zero through the page tables and no other byte changes |
| `Startup.HeapAtBoot` | kernel/heap.c:295-326 | at boot the heap comes up if and only if six frames are free, and loses the frame of its first page if and only if one or two are |
| `Startup.BootHeap` | kernel/kernel.c:86-90 | the boot tables and then the heap: one free block with six free frames or more, none with fewer; above the heap nothing is mapped |
| `Startup.BootAndRun` | kernel/kernel.c:86-90 | from the memory map through allocator, tables and heap to the end of a user program above the heap: exactly when there is a buffer, when the kernel stops and when the result is 0; what runs reads its file; when it returns, the first GiB is mapped to itself, nothing is allocated or open to user code, and every frame free at boot is free, a table, a heap page or one of at most two lost |
| `Heap.KernelHeap.Kfree` | kernel/heap.c:372-393 | the linked headers do what the block-level free does for null, for allocations, for blocks freed before, and for any other pointer whose preceding bytes do not read as a used header; the headers left are those that KfreeWrites leaves in memory |
| `HeapRuns.Perform` | kernel/heap.c:328-393 | one kmalloc, kzalloc or kfree, with the state of the heap and of memory after it |
| `HeapRuns.Run` | kernel/heap.c:328-393 | any sequence of kmalloc, kzalloc and kfree on the heap of headers: the blocks are those of the block-level run, with each growth granted or not as the free frames before that call decide, and the pointers given are its pointers |
| `HeapRuns.RunFrames` | kernel/heap.c:64-97 | over such a sequence frames only move from free to tables and heap pages, pages keep their frames, and at most one frame is lost for each call |
| `HeapRuns.RunKeepsBytes` | kernel/heap.c:328-393 | over such a sequence an allocation that is not freed keeps every byte, zeroing and growth included |
| `HullOverHeap.HullMissesHeap` | arch/x86_64/user_mode.c:346-351 | the hull of a file that passes the checks misses the mapped heap if and only if its segments all lie below the heap or all above the mapped part |
| `HullOverHeap.HeapAfterUnmap` | arch/x86_64/user_mode.c:262-275 | a wholly mapped heap stays so when pages are unmapped if and only if none of its pages is among them |
| `HullOverHeap.UnmappedFreed` | arch/x86_64/user_mode.c:262-275 | the frames of the pages unmapped, heap pages too, go back to the allocator |
| `HullOverHeap.UnloadKeepsHeap` | arch/x86_64/user_mode.c:442-444 | unmapping the hull of a file leaves the heap mapped if and only if the file's segments are all on one side of it |
| `HullOverHeap.HeapBetweenSegments` | arch/x86_64/user_mode.c:167-181 | a concrete file that passes every check and has the heap between its two segments |
| `Tasks.FirstReady` | kernel/task.c:258-271 | the first ready task of a stretch of the list, none only if none is ready |
| `Tasks.Choice` | kernel/task.c:243-274 | the search round the list finds a ready task if and only if there is one |
| `TaskInvariants.StepInv` | kernel/task.c:141-567 | every step, the counting calls included, keeps: waiting means queued in one place, one running task which is current, woken readers runnable, no lost wakeup, keys in order |
| `TaskInvariants.KeyHasRunnableReader` | kernel/tty.c:67-119 | a buffered key and a waiting reader imply a reader that can run and has yet to look |
| `TaskInvariants.PushInv` | kernel/tty.c:67-90 | pushing a key, accepted or dropped, with or without a reader waiting, keeps the invariant |
| `TaskInvariants.ReadEmptyInv` | kernel/tty.c:96-119 | a reader that finds no key and joins the queue in the same step keeps the invariant, also a reader that is no task |
| `TaskInvariants.ReadKeyInv` | kernel/tty.c:96-119 | taking a key keeps the invariant: while others wait no more keys are left than woken readers |
| `TaskInvariants.WakeAllInv` | kernel/wait.c:97-126 | waking all tasks of a queue keeps the invariant |
| `TaskRuns.TraceInv` | kernel/task.c:276-461 | the invariant holds in every state of every run |
| `TaskRuns.StepTask` | kernel/task.c:227-274 | a task that neither runs nor waits changes only by a pick or a count: it is picked, or woken if its time has come |
| `TaskRuns.DoneForever` | kernel/task.c:352-372 | a finished task stays finished |
| `TaskRuns.ExitedNeverRuns` | kernel/task.c:352-372 | a task that exits is never picked again |
| `TaskRuns.TicksGrow` | kernel/pit.c:60-62 | the clock counts the timer interrupts of the run |
| `TaskRuns.SleepsUntilTick` | kernel/task.c:227-241 | a sleeper sleeps on until a pick or a count at or after its wake tick |
| `TaskRuns.SleepsLongEnough` | kernel/task.c:327-350 | from the call on, a task that sleeps n ticks is asleep as long as fewer than n timer interrupts have come |
| `TaskRuns.WakesAtFirstLook` | kernel/task.c:227-274 | the first pick or count once they have come makes it ready or picks it |
| `TaskRuns.ChoiceBetween` | kernel/task.c:243-274 | a pick that passes a ready task lies between the cursor and that task |
| `TaskRuns.ReadyUntilPicked` | kernel/task.c:141-304 | a ready task stays ready until picked, and the picks before go round in order |
| `TaskRuns.BoundedBypass` | kernel/task.c:141-304 | while a ready task is not picked no task is picked twice, so fewer picks pass it than there are tasks, task creation included |
| `TaskRuns.CurrentStep` | kernel/task.c:276-304 | who is current changes only by a pick, to the task picked, and by the return to the scheduler, to nobody; a new task is ready, and only creation adds one |
| `TaskRuns.KeepsControl` | kernel/task.c:276-304 | the running task stays running and as it is through every step but its own yield, sleep, exit, block or read without a key |
| `TaskRuns.YieldsInTurn` | kernel/task.c:306-325 | a task that yields, or sleeps 0 ticks, is picked again within as many picks as there are tasks |
| `TaskRuns.CreatedInTurn` | kernel/task.c:141-225 | so is a new task |
| `TaskRuns.KeysTyped` | kernel/tty.c:67-90 | the keys accepted over a run are those typed while fewer than 255 were buffered, in order |
| `TaskRuns.KeysRead` | kernel/tty.c:96-119 | from boot on, the keys given to readers followed by those buffered are the keys so typed |
| `TaskRuns.KeyGiven` | kernel/tty.c:96-119 | a step gives a key to a reader if and only if it is a read and one is buffered, and then the oldest |
| `TaskRuns.WokenStep` | kernel/tty.c:86-119 | a reader counts as woken from the key that takes it out of the queue until it looks at the buffer |
| `TaskRuns.KeyIsFetched` | kernel/tty.c:96-119 | after a buffered key and a waiting reader, a woken reader has control within as many picks as there are tasks, and by the next pick a key has been delivered |
| `TaskRuns.WaiterMoves` | kernel/wait.c:67-126 | a queued task moves up when its queue is woken, leaves it ready when first or when all are woken, and otherwise stays |
| `TaskRuns.WokenInTurn` | kernel/wait.c:67-95 | first come, first woken: behind n others a task waits through exactly n wakeups of its queue |
| `TaskRuns.WokenAtLast` | kernel/wait.c:67-95 | the wakeup after those makes it ready |
| `TaskRuns.WaitsItsTurn` | kernel/wait.c:17-95 | from the call that blocks it, a read without a key included, a task waits through as many wakeups as tasks were ahead of it, and the next makes it ready |
| `WaitLinks.JoinLinks` | kernel/wait.c:37-53 | linking a task in at the tail gives the links of the longer queue and leaves the other queues |
| `WaitLinks.LeaveLinks` | kernel/wait.c:75-92 | unlinking the head gives the links of the rest, tail included, and leaves the other queues |
| `WaitLinks.RingPush` | kernel/tty.c:67-83 | the ring refuses a key if and only if it holds 255; otherwise it holds one more at the end |
| `WaitLinks.RingPop` | kernel/tty.c:32-45 | the ring gives its oldest key, none if and only if it is empty |
| `Scheduler.Kernel.Create` | kernel/task.c:141-225 | is the create step: appends a task that is ready |
| `Scheduler.Kernel.WakeSleeping` | kernel/task.c:227-241 | makes exactly the due sleepers ready |
| `Scheduler.Kernel.Recount` | kernel/task.c:487-529 | is the count step: due sleepers become ready, and the result is the number of tasks in that state |
| `Scheduler.Kernel.Count` | kernel/task.c:531-552 | the number of tasks in a state |
| `Scheduler.Kernel.Search` | kernel/task.c:250-273 | the circular do-while scan finds the choice of the step machine |
| `Scheduler.Kernel.SwitchIn` | kernel/task.c:276-295 | is the pick step |
| `Scheduler.Kernel.SwitchBack` | kernel/task.c:297-303 | is the return step, after which no task is current |
| `Scheduler.Kernel.YieldNow` | kernel/task.c:306-325 | is the yield step, which leaves the current task ready; nothing without one |
| `Scheduler.Kernel.SleepTicks` | kernel/task.c:327-350 | is the sleep step: the current task sleeps until so many ticks from now, or is ready for 0 ticks |
| `Scheduler.Kernel.ExitTask` | kernel/task.c:352-372 | is the exit step |
| `Scheduler.Kernel.TimerTick` | kernel/pit.c:60-62 | is the tick step, which adds one to the clock and changes no task |
| `Scheduler.Kernel.BlockOn` | kernel/wait.c:17-65 | is the block step: head, tail and links follow; nothing without a current task |
| `Scheduler.Kernel.WakeOneOf` | kernel/wait.c:67-95 | is the wake-one step and tells whether a task was woken |
| `Scheduler.Kernel.WakeAllOf` | kernel/wait.c:97-126 | is the wake-all step and counts the tasks woken |
| `Scheduler.Kernel.ReadKey` | kernel/tty.c:101-118 | is the read step, with or without a current task: one round of the blocking read |
| `Scheduler.Kernel.PushKey` | kernel/tty.c:67-90 | is the push step: this key is accepted and buffered last; it is refused and counted as dropped if and only if 255 are buffered |
| `WorkQueue.WorkRing.Schedule` | kernel/workqueue.c:94-120 | accepts work with the next number unless the ring is full; refused work is counted |
| `WorkQueue.WorkRing.Pop` | kernel/workqueue.c:122-148 | gives the oldest pending work; what was popped and what is pending is all that was accepted, in order |
| `Timers.RunPending` | kernel/workqueue.c:150-170 | runs as many items as asked for, 64 if that is 0 or more than 64, or all there are, oldest first, each followed by what its callback asks for |
| `Timers.CallBack` | kernel/workqueue.c:158-167 | what a callback asks for happens in order: more work, timers, polls |
| `Timers.TimerTable.Schedule` | kernel/timer.c:98-137 | adds a timer due at now plus the delay, 1 for a delay of 0, with this function and argument; refused and counted as failed if and only if all 64 slots are taken |
| `Timers.TimerTable.Collect` | kernel/timer.c:139-163 | takes exactly the due timers out of their slots, in slot order |
| `Timers.TimerTable.HandOver` | kernel/timer.c:168-174 | hands them to the work queue in order, as many as it has room for |
| `Timers.TimerTable.Poll` | kernel/timer.c:139-184 | is the machine's step; attempts equal pending plus fired plus failed, and fired counts the work accepted |
| `Timers.Run` | kernel/timer.c:98-184 | any run of calls from the start: the tables hold what the machine computes, a timer is handed over if and only if a poll was at or after its due tick, and the work that ran and the pending work are the accepted work in order |
| `TimerRuns.HandedIffPolled` | kernel/timer.c:139-161 | over any run with a clock that does not go back: a timer was handed over if and only if some poll was at or after its due tick, otherwise it waits in a slot; never twice |
| `TimerRuns.ByFirstPoll` | kernel/timer.c:139-161 | the first such poll hands it over; until then it waits |
| `TimerRuns.EntersOnce` | kernel/timer.c:168-174 | it becomes work if and only if the queue had room behind the due timers of lower slots at that poll, once, with its function and argument |
| `TimerRuns.SetIffFree` | kernel/timer.c:98-137 | over any run, a call that sets a timer is accepted if and only if it names a function and one of 64 slots is free |
| `TimerRuns.SetKept` | kernel/timer.c:98-137 | the timer of an accepted call is due its delay after the call and keeps that tick, its function and its argument |
| `TimerRuns.SetBy` | kernel/timer.c:98-137 | every timer was set by such a call |
| `TimerRuns.TimerFires` | kernel/timer.c:98-161 | from the call on: handed over if and only if a poll came its delay later or after; the first such poll comes after the call and does it, and until then the timer waits |
| `TimerRuns.TimerBecomesWork` | kernel/timer.c:98-174 | and it becomes work if and only if there was room then, once, with the function and argument of the call |
| `TimerLedger.DueAscending` | kernel/timer.c:139-163 | the timers that a poll takes come in the order of their slots |
| `TimerRuns.WorkAdded` | kernel/workqueue.c:94-120 | work asked for directly is accepted, with the next number, if and only if it names a function and fewer than 64 items are pending |
| `TimerRuns.NotPolledNotWork` | kernel/timer.c:139-174 | a timer no poll was late enough for has not become work |
| `TimerRuns.RunsInOrder` | kernel/workqueue.c:94-170 | what has run is at every moment the first part of what was accepted, and the rest is pending |
| `RamFile.File.Read` | kernel/ramfs.c:48-72 | the bytes of the contents from the offset on, as many as there are |
| `RamFile.File.Grow` | kernel/ramfs.c:93-107 | a larger buffer with the same contents and zeros behind |
| `RamFile.File.Write` | kernel/ramfs.c:74-117 | the contents become the abstract update with zero-filled holes; bytes beyond the size stay 0; a buffer that is too small is replaced by one that just holds them, of 64 bytes at least; failed growth changes nothing |
| `RamFile.ReadBack` | kernel/ramfs.c:48-117 | what was written is read back |
| `RamFile.OverlayOverlay` | kernel/ramfs.c:74-117 | a write that covers an earlier one hides it, writes apart commute, and a write that begins inside the one before or right behind it makes one write with it |
| `RamFile.OverlayAppends` | kernel/ramfs.c:74-117 | a write at the end appends |
| `Paths.CompsSlash` | kernel/vfs.c:116-145 | a slash separates the components of what is before it from those of what is behind it |
| `Paths.SlashesIgnored` | kernel/vfs.c:116-136 | repeated, trailing and leading slashes do not change the components |
| `Tree.AddedTree` | kernel/ramfs.c:155-174 | adding a last child keeps the sibling and parent links a tree |
| `Tree.AddedResolve` | kernel/ramfs.c:155-174 | whatever a path led to before, it leads to afterwards |
| `Tree.AddedOnly` | kernel/ramfs.c:155-174 | a path that leads somewhere only afterwards is the parent's path and the new name |
| `FsGrowth.OnePath` | kernel/vfs.c:82-148 | no node has two paths |
| `Vfs.FileSystem.FindChild` | kernel/vfs.c:82-102 | the first child with this name, none only if there is none |
| `Vfs.FileSystem.Create` | kernel/ramfs.c:119-225 | the new node is the last child, with its name cut to 31 characters |
| `Vfs.FileSystem.Lookup` | kernel/vfs.c:104-148 | an absolute path leads where its components lead; any other path and any component over 31 characters lead nowhere |
| `FdTable.Table.Open` | kernel/fd.c:143-176 | files and devices open on the lowest free descriptor from 3 on, at offset 0; otherwise nothing changes |
| `FdTable.Table.Read` | kernel/fd.c:178-216 | reads at the offset and moves it by what was read; -1 exactly for a descriptor that cannot be read or size 0 |
| `FdTable.Table.Write` | kernel/fd.c:218-266 | writes at the offset and moves it by what was written, all or, when the buffer is too small and cannot grow, nothing; a console takes everything, a device what it takes, a directory nothing; -1 exactly for a descriptor that cannot be written or no bytes |
| `FdTable.Table.Close` | kernel/fd.c:268-293 | frees a descriptor from 3 on that is in use and no other |
| `FdTable.Table.ReadChunks` | kernel/fd.c:178-216 | reads of any nonzero sizes join to the contents from the offset on; a read of nothing means the end was reached |
| `FdTable.OpenAndRead` | kernel/fd.c:143-216 | from open until a read returns nothing the chunks join to the whole file |
| `Ustar.OctalDigits` | kernel/initramfs.c:123-141 | a number written in octal digits is read back |
| `Ustar.HeaderRoundTrip` | kernel/initramfs.c:147-174 | a header with a prefix, a name, a size and a type reads back as these; its path is refused if and only if it is empty or longer than 159 characters |
| `Ustar.KindDecides` | kernel/initramfs.c:388-417 | a header of type 5 is a directory, one of type 0 or zero a file with its data, and any other no entry |
| `Ustar.Divided` | kernel/initramfs.c:147-174 | a path that fits, divided into prefix and name, is put together again |
| `Ustar.PackRoundTrip` | kernel/initramfs.c:378-427 | every list of entries, written as an archive with padded data and closing zero blocks, reads back as that list |
| `Ustar.NormalizeMeans` | kernel/initramfs.c:176-207 | what any path is cut down to: slashes at both ends and one leading dot-slash go; refused if and only if nothing or a lone dot is left |
| `Ustar.NormalizeComps` | kernel/initramfs.c:176-207 | a normalized path has the components of the raw one but for one leading dot |
| `Initramfs.ParseOctal` | kernel/initramfs.c:123-141 | the loop computes the octal value up to a zero or space |
| `Initramfs.GetRawPath` | kernel/initramfs.c:147-174 | prefix, slash and name, if that is not empty and fits 159 characters |
| `Initramfs.NormalizePath` | kernel/initramfs.c:176-207 | the loops strip what normalization strips and refuse what it refuses |
| `Initramfs.EnsureDirPath` | kernel/initramfs.c:252-300 | the path leads to a directory, only directories on the way are new, old paths stay; none only if a node on the way is no directory |
| `Initramfs.EnsureParent` | kernel/initramfs.c:302-340 | the same for the directory of a file, whose name is what follows the last slash |
| `Initramfs.LoadFile` | kernel/initramfs.c:350-376 | a file at a free path below directories is there with exactly its bytes; nothing old changes |
| `Initramfs.ReadHeader` | kernel/initramfs.c:388-417 | the entry of a header and the offset of the next; a path that does not fit skips one block only |
| `Initramfs.Load` | kernel/initramfs.c:378-427 | the walk ends; old paths stay, new ones come from entries; when no path is both file and directory, every file entry first at its free path is in place with its bytes, and every directory entry is a directory |
| `ArchiveTree.DueIsFree` | kernel/initramfs.c:350-376 | when such an entry is reached its path is free and only directories lie above it |
| `ArchiveTree.LoadedMore` | kernel/initramfs.c:378-427 | one more entry keeps what loading promises |
| `ArchiveTree.LookupFindsFile` | kernel/vfs.c:104-148 | a lookup of slash and the path of such an entry gives a file with exactly the entry's bytes |
| `ArchiveTree.LookupFindsDir` | kernel/vfs.c:104-148 | a lookup of slash and the path of a directory entry gives a directory |

## Left out

- Hardware: port access, descriptor tables, interrupt controllers, TLB flushes and CR3 reads; the root table
  is a constant.
- kernel/spinlock.c: a critical section is one step; spinning is not modelled.
- kernel/elf.c, kernel/process.c, kernel/console.c, kernel/shell.c, the drivers, the command and device
  registries, printing and the self-tests: output, simple records, or repetitions of what is here.
- Several user programs at once: one program executes at a time.
- UserRanges.MapRange: takes the range to hold no large page; below 1 GiB the source's read-back check fails
  unless the allocator happens to return the very frame that the identity mapping shows.
- UserRanges.MapRange: mappings that the range had before are unmapped and freed first, as in the source,
  and are not restored on failure; only what the call took is claimed to be released.
- UserLoader.RunUser: system calls, loads, and stores through large pages, which count as faults; a fault ends
  the model of the run, since the kernel halts.
- UserLoader.RunPath: files whose segments meet the kernel heap or have it between them; `HullOverHeap` proves
  what unmapping does to the heap then, not the run.
- Heap.KernelHeap.Kmalloc: block headers are a map from addresses, apart from the bytes of memory, so stray
  writes into a header are not modelled; for requests whose sums wrap, `HeapWords` gives the exact condition and
  the words that come out, not the state of the heap after them.
- HeapRuns.Run: begins with a heap that is set up; before that every request gets null.
- Heap.KernelHeap.Kfree: what the bytes before a pointer that is no block's read as is a parameter; freeing one
  where they read as a used header is excluded.
- HeapBytes.Kzalloc: a store to a heap page whose mapping had failed is left out; the processor would fault.
- heap_total_free_bytes, heap_largest_free_block, heap_block_count, vfs_count_nodes, fd_count_used and the
  other counters that only read.
- Scheduler.Kernel.Create: stacks, names, entry points and running out of memory; task numbers do not wrap at
  32 bits.
- Scheduler.Kernel.ReadKey: is one round; a read without a current task makes rounds until a key comes.
- Timers.TimerTable.Schedule: counters and ticks do not wrap at 64 bits.
- Timers.RunPending: a callback that itself drains the queue.
- Vfs.FileSystem.Create: running out of memory; the counters of loaded files, directories and bytes.
- MemoryMap.FindFreeRegion: memory maps and reserved ranges that reach 2^63 or beyond, where sums could wrap.
- FdTable.Table.Write: a node's contents are a byte sequence with a capacity here; that the buffer of
  `RamFile.File` behaves like that sequence is proved there.
- Initramfs.Load: archives whose data reaches beyond their end.
