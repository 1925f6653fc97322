/** The memory side of `kernel_main` (kernel/kernel.c) and one user program after it: frame allocator, boot
    tables, kernel heap and a run, from the memory map on. */
module Startup {
  import opened Utils
  import opened Options
  import opened Sequences
  import opened MemoryMap
  import opened PageTables
  import opened TableEffects
  import opened TableKeys
  import opened PageRanges
  import opened FrameCounts
  import opened Pmm
  import opened Vmm
  import opened HeapBlocks
  import opened HeapPages
  import opened Heap
  import opened ImagePages
  import opened UserImage
  import opened Allocations
  import opened FileBuffer
  import opened ImageLoader
  import opened UserLoader

  // ---------- the first tables ----------

  lemma BootKeys(p4: nat, p3: nat, p2: nat)
    requires p4 != p3 && p4 != p2 && p3 != p2
    ensures Keys(BootPlaces(p4, p3, p2)) == {[], [0], [0, 0]}
  {
    var tb := BootPlaces(p4, p3, p2);
    assert KeyOf(tb, p4) == [] && KeyOf(tb, p3) == [0] && KeyOf(tb, p2) == [0, 0];
    assert tb.Keys == {p4, p3, p2};
    forall k ensures k in Keys(tb) <==> k in {[], [0], [0, 0]} {
      if k in Keys(tb) {
        var t :| t in tb && KeyOf(tb, t) == k;
      }
      if k == [] { assert p4 in tb; }
      if k == [0] { assert p3 in tb; }
      if k == [0, 0] { assert p2 in tb; }
    }
  }

  const HEAP_PAGE: nat := 0x41000

  /** The first pages of the heap share their tables. */
  lemma HeapTables(n: nat)
    requires n < 4
    ensures Prefixes(PageOf(4096 * (HEAP_PAGE + n))) == {[0], [0, 1], [0, 1, 8]}
  {
    var va := 4096 * (HEAP_PAGE + n);
    assert va / 0x20_0000 == 0x208 && va / 0x4000_0000 == 1 && va / 0x80_0000_0000 == 0;
  }

  /** At boot the heap's first `n` pages take two tables and a frame each. */
  lemma BootFrames(p4: nat, p3: nat, p2: nat, n: nat)
    requires p4 != p3 && p4 != p2 && p3 != p2 && n <= 4
    ensures FramesFor(BootPlaces(p4, p3, p2), HEAP_PAGE, HEAP_PAGE + n) == if n == 0 then 0 else n + 2
    ensures n > 0 ==> TablesFor(HEAP_PAGE, HEAP_PAGE + n) == {[0], [0, 1], [0, 1, 8]}
  {
    hide PageOf, Prefixes, Keys, BootPlaces;
    BootKeys(p4, p3, p2);
    HeapTablesFor(n);
    MissingAtBoot(Keys(BootPlaces(p4, p3, p2)));
    if n == 0 { assert TablesFor(HEAP_PAGE, HEAP_PAGE) - Keys(BootPlaces(p4, p3, p2)) == {}; }
  }

  lemma MissingAtBoot(keys: set<Key>)
    requires keys == {[], [0], [0, 0]}
    ensures |{[0], [0, 1], [0, 1, 8]} - keys| == 2
  {
    var a: Key, b: Key := [0, 1], [0, 1, 8];
    assert |a| == 2 && a[1] == 1 && |b| == 3;
    assert {[0], a, b} - keys == {a, b};
    assert |{a, b}| == 2;
  }

  lemma {:induction false} HeapTablesFor(n: nat)
    requires n <= 4
    ensures TablesFor(HEAP_PAGE, HEAP_PAGE + n) == if n == 0 then {} else {[0], [0, 1], [0, 1, 8]}
  {
    hide PageOf, Prefixes;
    if n > 0 {
      HeapTablesFor(n - 1);
      HeapTables(n - 1);
    }
  }

  /** `heap_init` at boot, exactly: it succeeds with six free frames or more, and loses the frame of its first
      page if there are one or two. */
  lemma HeapAtBoot(s: Snapshot, p4: nat, p3: nat, p2: nat, ok: bool, lost: set<nat>)
    requires p4 != p3 && p4 != p2 && p3 != p2 && s.tables == BootPlaces(p4, p3, p2)
    requires Grew(s, HEAP_START, HEAP_INITIAL - 48, ok, lost)
    ensures ok <==> |s.free| >= 6
    ensures lost != {} <==> 1 <= |s.free| <= 2
  {
    hide FramesFor;
    BootFrames(p4, p3, p2, 0);
    BootFrames(p4, p3, p2, 1);
    BootFrames(p4, p3, p2, 2);
    BootFrames(p4, p3, p2, 3);
    BootFrames(p4, p3, p2, 4);
    assert ExpandSize(HEAP_INITIAL - 48) == 0x4000;
    assert 1 <= |s.free| <= 2 ==> RunsOutAt(s.tables, |s.free|, HEAP_PAGE, HEAP_PAGE);
  }

  // ---------- boot ----------

  /** Frame `t` lies in the kernel image. */
  predicate InKernel(kernel: Range, t: nat) {
    kernel.start <= 4096 * t && 4096 * t + 4096 <= kernel.end
  }

  /** The pages above the heap, where user images and the stack go, are unmapped at boot. */
  lemma HighPages(s: Snapshot, lo: nat, hi: nat)
    requires forall p: Page :: p.i4 != 0 || p.i3 != 0 ==> p in s.view && s.view[p].Unmapped?
    requires 0x40000 <= lo
    ensures RangeUnmapped(s, lo, hi) && Idle(s, lo, hi, 0, 0, false)
  {
    forall p: Page | InRange(p, 0x40000, NumOf(p) + 1) ensures p.i4 != 0 || p.i3 != 0 {
    }
    forall p: Page | InImage(p, lo, hi) ensures p.i4 != 0 || p.i3 != 0 {
      assert InRange(p, 0x40000, NumOf(p) + 1);
    }
  }

  /** The boot tables are in use from the start. */
  lemma TablesReserved(kernel: Range, t: nat)
    requires Representable(kernel) && InKernel(kernel, t)
    ensures TouchesHull(t, kernel.start, kernel.end)
  {
  }

  /** What the boot sequence needs of the machine: at most 1 GiB of memory, which holds every available frame,
      and three tables in the kernel image. */
  ghost predicate Machine(tag: Option<MmapTag>, kernel: Range, info: Range, memory: Mem, p4: nat, p3: nat, p2: nat) {
    && (tag.Some? ==> tag.value.Readable() && forall f: nat :: Available(tag.value.Entries(), f) ==> f < |memory|)
    && Representable(kernel) && Representable(info)
    && |memory| <= MAX_FRAMES && Rows(memory) && 0 < p4 < |memory| && 0 < p3 < |memory| && 0 < p2 < |memory|
    && p4 != p3 && p4 != p2 && p3 != p2 && InKernel(kernel, p4) && InKernel(kernel, p3) && InKernel(kernel, p2)
  }

  /** No room for the frame bitmap of the memory that the map reports. */
  ghost predicate NoBitmap(tag: Option<MmapTag>, kernel: Range, info: Range) {
    tag.None? || (tag.value.Readable() && Representable(kernel) && Representable(info) && exists n: nat ::
      && n <= U64_LIMIT / PAGE_SIZE && TopOf(tag.value.Entries(), PAGE_SIZE * n)
      && NoPlacement(tag.value.Entries(), BootReserves(kernel, info), BitmapBytes(n)))
  }

  /** The address space at boot: three tables, no 4 KiB pages, the first GiB mapped to itself. */
  ghost predicate BootState(s: Snapshot, p4: nat, p3: nat, p2: nat) {
    Whole(BootStateParts(s, p4, p3, p2))
  }

  ghost predicate BootStateParts(s: Snapshot, p4: nat, p3: nat, p2: nat) {
    && Partitioned(s) && s.tables == BootPlaces(p4, p3, p2) && s.leaves == map[]
    && (forall p: Page :: p.i4 != 0 || p.i3 != 0 ==> p in s.view && s.view[p].Unmapped?)
    && (forall va: nat :: va < IDENTITY_LIMIT ==> PageOf(va) in s.view && s.view[PageOf(va)] == IdentityView(va))
  }

  /** The frames `free` are those that the memory map leaves. */
  ghost predicate BootFree(tag: Option<MmapTag>, kernel: Range, info: Range, pmm: FrameAllocator, free: set<nat>)
    reads pmm`bitmapStart, pmm`bitmapEnd
  {
    && tag.Some? && tag.value.Readable() && Representable(kernel) && Representable(info)
    && Representable(Range(pmm.bitmapStart, pmm.bitmapEnd))
    && forall f: nat :: f in free <==>
         pmm.FreeAtBoot(tag.value.Entries(), kernel, info, Range(pmm.bitmapStart, pmm.bitmapEnd), f)
  }

  /** `pmm_init` on the boot tables: the free frames are those the memory map leaves. */
  method BootFrameAllocator(tag: Option<MmapTag>, kernel: Range, info: Range, memory: Mem, p4: nat, p3: nat, p2: nat)
    returns (pmm: FrameAllocator)
    requires Machine(tag, kernel, info, memory, p4, p3, p2)
    ensures fresh(pmm) && pmm.Valid() && (pmm.ready ==> fresh(pmm.bitmap)) &&
            (!pmm.ready ==> NoBitmap(tag, kernel, info))
    ensures pmm.ready ==> forall f :: f in pmm.free ==> 0 < f < |memory| && f != p4 && f != p3 && f != p2
    ensures pmm.ready ==> BootFree(tag, kernel, info, pmm, pmm.free)
  {
    pmm := new FrameAllocator();
    pmm.Init(tag, kernel, info);
    TablesReserved(kernel, p4);
    TablesReserved(kernel, p3);
    TablesReserved(kernel, p2);
  }

  lemma AtBoot(s: Snapshot, p4: nat, p3: nat, p2: nat)
    requires Partitioned(s) && s.tables == BootPlaces(p4, p3, p2) && s.leaves == map[]
    requires forall p: Page :: p.i4 != 0 || p.i3 != 0 ==> p in s.view && s.view[p].Unmapped?
    requires forall va: nat :: va < IDENTITY_LIMIT ==> PageOf(va) in s.view && s.view[PageOf(va)] == IdentityView(va)
    ensures BootState(s, p4, p3, p2)
  {
  }

  lemma NoPagesAtBoot(s: Snapshot)
    requires Partitioned(s) && s.leaves == map[]
    ensures NoUserPages(s)
  {
  }

  lemma BootSpace(s: Snapshot, p4: nat, p3: nat, p2: nat, lo: nat, hi: nat)
    requires BootState(s, p4, p3, p2) && HEAP_MAX_END / 4096 <= lo
    ensures HeapSpace(s, HEAP_START, {}) && Idle(s, lo, hi, 0, 0, false) && NoUserPages(s)
  {
    NoPagesAtBoot(s);
    hide Partitioned, IdentityView, NoUserPages;
    HighPages(s, HEAP_PAGE, HEAP_MAX_END / 4096);
    HighPages(s, lo, hi);
  }

  /** The heap once it is set up: one free block. */
  const FIRST_HEAP: HeapBlocks.Heap :=
    HeapBlocks.Heap([Block(HEAP_START, HEAP_INITIAL - 48, true)], HEAP_START + HEAP_INITIAL)

  /** Boot up to the heap; `s` is the state of the address space before the heap is set up. */
  method BootHeap(pmm: FrameAllocator, memory: Mem, p4: nat, p3: nat, p2: nat, ghost lo: nat, ghost hi: nat)
    returns (heap: KernelHeap, ghost s: Snapshot, ghost lost: set<nat>)
    requires pmm.Valid() && pmm.ready && HEAP_MAX_END / 4096 <= lo
    requires |memory| <= MAX_FRAMES && Rows(memory) && 0 < p4 < |memory| && 0 < p3 < |memory| && 0 < p2 < |memory|
    requires p4 != p3 && p4 != p2 && p3 != p2
    requires forall f :: f in pmm.free ==> 0 < f < |memory| && f != p4 && f != p3 && f != p2
    modifies pmm`free, pmm`freeFrames, pmm.bitmap
    ensures fresh(heap) && fresh(heap.vm) && heap.vm.pmm == pmm && heap.Valid() && heap.Backing()
    ensures BootState(s, p4, p3, p2) && s.free == old(pmm.free) && HeapGrowth(s, heap.vm.Snap(), lost)
    ensures heap.ready <==> |s.free| >= 6
    ensures lost != {} <==> 1 <= |s.free| <= 2
    ensures heap.ready ==> heap.State() == FIRST_HEAP && heap.holes == {}
    ensures Live(heap.blocks) == {} && Idle(heap.vm.Snap(), lo, hi, 0, 0, false) && NoUserPages(heap.vm.Snap())
  {
    hide Whole, HeapGrowth, HeapSpace, Idle, PageOf, IdentityView, BootPlaces, Grew, Refused, NoUserPages;
    var vm := new AddressSpace.Boot(pmm, memory, p4, p3, p2);
    s := vm.Snap();
    vm.SnapPartitioned();
    AtBoot(s, p4, p3, p2);
    BootSpace(s, p4, p3, p2, lo, hi);
    heap := new KernelHeap(vm);
    ghost var h := heap.State();
    lost := heap.Init();
    FirstRegion(h);
    HeapAtBoot(s, p4, p3, p2, heap.ready, lost);
    vm.SnapPartitioned();
    GrowthKeepsIdle(s, vm.Snap(), lost, lo, hi);
    GrowthKeepsKernelPages(s, vm.Snap(), lost);
  }

  // ---------- boot and run ----------

  /** The first GiB is mapped to itself. */
  ghost predicate Identity(s: Snapshot) {
    Whole(IdentityParts(s))
  }

  ghost predicate IdentityParts(s: Snapshot) {
    forall va: nat :: va < IDENTITY_LIMIT ==> PageOf(va) in s.view && s.view[PageOf(va)] == IdentityView(va)
  }

  lemma LowPages(va: nat, lo: nat, hi: nat)
    requires va < IDENTITY_LIMIT && 0x40000 <= lo
    ensures !InImage(PageOf(va), lo, hi) && !InRange(PageOf(va), HEAP_START / 4096, HEAP_MAX_END / 4096)
  {
    NumOfPageOf(va);
  }

  lemma IdentityAfterGrowth(s: Snapshot, s': Snapshot, lost: set<nat>)
    requires Identity(s) && Partitioned(s') && HeapGrowth(s, s', lost)
    ensures Identity(s')
  {
    hide PageOf;
    forall va: nat | va < IDENTITY_LIMIT
      ensures PageOf(va) in s'.view && s'.view[PageOf(va)] == IdentityView(va)
    {
      LowPages(va, 0x40000, 0);
      assert PageOf(va) in s.view;
    }
  }

  lemma IdentityAfterRun(g: Snapshot, s': Snapshot, lo: nat, hi: nat)
    requires Identity(g) && Partitioned(s') && Confined(g, s', lo, hi) && 0x40000 <= lo
    ensures Identity(s')
  {
    hide PageOf;
    forall va: nat | va < IDENTITY_LIMIT
      ensures PageOf(va) in s'.view && s'.view[PageOf(va)] == IdentityView(va)
    {
      LowPages(va, lo, hi);
      assert PageOf(va) in g.view;
    }
  }

  /** A frame that was free at boot is free, a table, a page of the heap or one of those lost. */
  ghost predicate FramesKnown(s: Snapshot, s': Snapshot, lost: set<nat>) {
    Whole(FramesKnownParts(s, s', lost))
  }

  ghost predicate FramesKnownParts(s: Snapshot, s': Snapshot, lost: set<nat>) {
    && s'.free <= s.free
    && (forall f :: f in s.free && f !in s'.free ==>
                      || (f in s'.tables && f !in s.tables) || f in lost
                      || (f in s'.leaves && InHeap(s'.leaves[f])))
  }

  predicate InHeap(p: Page) {
    InRange(p, HEAP_START / 4096, HEAP_MAX_END / 4096)
  }

  lemma GrowthFacts(s: Snapshot, s': Snapshot, lost: set<nat>)
    requires HeapGrowth(s, s', lost)
    ensures Pool(s') + lost == Pool(s) && s.tables.Keys <= s'.tables.Keys && |lost| <= 1
    ensures forall d :: d in s.leaves ==> d in s'.leaves && s'.leaves[d] == s.leaves[d]
    ensures forall d :: d in s'.leaves ==> d in s.leaves || InHeap(s'.leaves[d])
  {
  }

  lemma LeavesAfterRun(s0: Snapshot, s1: Snapshot, g: Snapshot, lost0: set<nat>, lost: set<nat>)
    requires s0.leaves == map[] && HeapGrowth(s0, s1, lost0) && HeapGrowth(s1, g, lost)
    ensures forall d :: d in g.leaves ==> InHeap(g.leaves[d])
    ensures Pool(g) + lost + lost0 == Pool(s0) && s0.tables.Keys <= g.tables.Keys
    ensures |lost0 + lost| <= 2
  {
    hide HeapGrowth, InHeap, Pool;
    GrowthFacts(s0, s1, lost0);
    GrowthFacts(s1, g, lost);
    UnionSize(lost0, lost);
  }

  lemma FreeIsNoTable(s: Snapshot)
    requires Partitioned(s)
    ensures s.free !! s.tables.Keys
  {
  }

  lemma FramesAfterRun(s0: Snapshot, s1: Snapshot, r: Reading, s': Snapshot, lost0: set<nat>, file: seq<nat>,
                       lo: nat, hi: nat)
    requires Partitioned(s0) && s0.leaves == map[] && Partitioned(s')
    requires HeapGrowth(s0, s1, lost0) && RunOver(s1, r, s', file, lo, hi)
    ensures FramesKnown(s0, s', lost0 + r.lost) && |lost0 + r.lost| <= 2
  {
    hide InHeap, Confined, Idle, HeapGrowth, RunOver, Partitioned;
    RunFacts(s1, r, s', file, lo, hi);
    LeavesAfterRun(s0, s1, r.grown, lost0, r.lost);
    FreeIsNoTable(s0);
    FreeIsNoTable(s');
    assert Pool(s') + r.lost + lost0 == Pool(s0);
  }

  /** From the memory map to the end of a user program whose image lies above the heap: what runs, what is left
      of it, and the reasons for which it does not run. There is no heap if there is no frame bitmap. `s0` is the
      state after boot, `s1` after the heap was set up; `lost` are the frames lost to the heap's growth. */
  method BootAndRun(tag: Option<MmapTag>, kernel: Range, info: Range, memory: Mem, p4: nat, p3: nat, p2: nat,
                    file: Option<seq<nat>>, task: bool, program: Program, ghost lo: nat, ghost hi: nat)
    returns (heap: KernelHeap?, result: int, exitCode: nat, faulted: bool, ghost s0: Snapshot, ghost s1: Snapshot,
             ghost r: Reading, ghost entered: Snapshot, ghost lost: set<nat>)
    requires Machine(tag, kernel, info, memory, p4, p3, p2) && HEAP_MAX_END / 4096 <= lo
    requires Bytes(Contents(file)) && Requestable(FIRST_HEAP, |Contents(file)|)
    requires ValidElf(Contents(file)) ==> WithinHull(Contents(file), lo, hi)
    ensures heap == null ==> result == -1 && !faulted && NoBitmap(tag, kernel, info)
    ensures heap != null ==> heap.Valid() && heap.vm.Owned()
    ensures heap != null ==> BootState(s0, p4, p3, p2) && BootFree(tag, kernel, info, heap.vm.pmm, s0.free)
    ensures heap != null ==> (r.ptr == 0 <==> || Contents(file) == [] || |s0.free| < 6
                                              || NoBuffer(FIRST_HEAP, s1, |Contents(file)|))
    ensures heap != null ==> (faulted <==> Stops(r, Contents(file), task, program, entered))
    ensures heap != null && r.ptr != 0 && heap.holes == {} ==> Mapped(r.grown, r.ptr, |Contents(file)|)
    ensures heap != null ==> result == if Enters(r, Contents(file), task) && !faulted then 0 else -1
    ensures result == 0 ==> Entered(r.filled, entered, Contents(file), lo, hi)
    ensures result == 0 ==> ExitsWith(Contents(file), program, entered, exitCode)
    ensures heap != null && !faulted ==> heap.Backing() && Live(heap.blocks) == {} && NoUserPages(heap.vm.Snap())
    ensures heap != null && !faulted ==> Identity(heap.vm.Snap()) && Idle(heap.vm.Snap(), lo, hi, 0, 0, false)
    ensures heap != null && !faulted ==> FramesKnown(s0, heap.vm.Snap(), lost) && |lost| <= 2
  {
    hide Whole, HeapGrowth, HeapSpace, Idle, PageOf, IdentityView, BootState, Identity, FramesKnown, RunOver;
    hide NoBuffer, CanLoad, ValidElf, WithinHull, NoBitmap, FIRST_HEAP, Machine, Live, Bytes, Requestable;
    hide Entered, Mapped, NoUserPages, BootFree, AllocationsKept, ExitsWith;
    heap, result, exitCode, faulted, lost := null, -1, 0, false, {};
    s0, s1, r, entered := NOWHERE, NOWHERE, Reading(0, 0, NOWHERE, NOWHERE, {}), NOWHERE;
    var pmm := BootFrameAllocator(tag, kernel, info, memory, p4, p3, p2);
    if !pmm.ready { return; }
    MachineMemory(tag, kernel, info, memory, p4, p3, p2);
    heap, s0, lost := BootHeap(pmm, memory, p4, p3, p2, lo, hi);
    s1 := heap.vm.Snap();
    heap.vm.SnapPartitioned();
    result, exitCode, faulted, r, entered := RunPath(heap, file, task, program, lo, hi);
    if faulted { return; }
    heap.vm.SnapPartitioned();
    AfterBootAndRun(s0, s1, r, heap.vm.Snap(), lost, Contents(file), p4, p3, p2, lo, hi);
    lost := lost + r.lost;
  }

  ghost const NOWHERE: Snapshot := Snapshot([], map[], imap[], map[], {}, 0)

  lemma MachineMemory(tag: Option<MmapTag>, kernel: Range, info: Range, memory: Mem, p4: nat, p3: nat, p2: nat)
    requires Machine(tag, kernel, info, memory, p4, p3, p2)
    ensures |memory| <= MAX_FRAMES && Rows(memory) && 0 < p4 < |memory| && 0 < p3 < |memory| && 0 < p2 < |memory|
    ensures p4 != p3 && p4 != p2 && p3 != p2
  {
  }

  lemma AfterBootAndRun(s0: Snapshot, s1: Snapshot, r: Reading, s': Snapshot, lost0: set<nat>, file: seq<nat>,
                        p4: nat, p3: nat, p2: nat, lo: nat, hi: nat)
    requires BootState(s0, p4, p3, p2) && Partitioned(s1) && Partitioned(s') && 0x40000 <= lo
    requires HeapGrowth(s0, s1, lost0) && RunOver(s1, r, s', file, lo, hi)
    ensures Identity(s') && Idle(s', lo, hi, 0, 0, false)
    ensures FramesKnown(s0, s', lost0 + r.lost) && |lost0 + r.lost| <= 2
  {
    hide Partitioned, HeapGrowth, RunOver, Confined, Idle, Identity, FramesKnown, BootState, Pool;
    BootFacts(s0, p4, p3, p2);
    RunFacts(s1, r, s', file, lo, hi);
    FramesAfterRun(s0, s1, r, s', lost0, file, lo, hi);
    IdentityAfterGrowth(s0, s1, lost0);
    IdentityAfterGrowth(s1, r.grown, r.lost);
    SameViews(r.grown, r.filled);
    IdentityAfterRun(r.filled, s', lo, hi);
  }

  lemma SameViews(s: Snapshot, s': Snapshot)
    requires Identity(s) && s'.view == s.view
    ensures Identity(s')
  {
    hide PageOf, IdentityView;
  }

  lemma BootFacts(s: Snapshot, p4: nat, p3: nat, p2: nat)
    requires BootState(s, p4, p3, p2)
    ensures Partitioned(s) && s.leaves == map[] && Identity(s)
  {
    hide IdentityView, PageOf;
  }
}
