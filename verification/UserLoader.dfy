/** `user_mode_run_path` of arch/x86_64/user_mode.c: reading a file into a heap buffer, loading it from there,
    running it and taking everything back on every path. */
module UserLoader {
  import opened Utils
  import opened Options
  import opened Sequences
  import opened Entries
  import opened ByteMemory
  import opened PageTables
  import opened TableEffects
  import opened PageRanges
  import opened FrameCounts
  import opened Vmm
  import opened UserRanges
  import opened UserMemory
  import opened UserImage
  import opened ImagePages
  import opened HeapPages
  import opened HeapBlocks
  import HeapLinks
  import opened Heap
  import opened HeapBytes
  import opened Allocations
  import opened FileBuffer
  import opened ImageLoader

  // ---------- running ----------

  /** What a program does while it runs: byte stores, and the code it exits with. */
  datatype Behaviour = Behaviour(stores: seq<(nat, nat)>, exitCode: nat)

  predicate Stores(run: Behaviour) {
    forall k :: 0 <= k < |run.stores| ==> run.stores[k].0 < VA_LIMIT && run.stores[k].1 < 256
  }

  /** A program is what it makes of its entry point and the memory it finds when it starts. */
  type Program = p: (nat, Mem) -> Behaviour | forall e, m :: Stores(p(e, m)) witness (e, m) => Behaviour([], 0)

  /** User code may reach address `a`. */
  ghost predicate Open(s: Snapshot, a: nat) {
    PageOf(a) in s.view && Accessible(s.view[PageOf(a)])
  }

  /** No 4 KiB page has the user bit in its own entry. */
  ghost predicate NoUserPages(s: Snapshot) {
    Whole(NoUserPagesParts(s))
  }

  ghost predicate NoUserPagesParts(s: Snapshot) {
    forall p :: p in s.view && s.view[p].Small? ==> !User(s.view[p].entry)
  }

  predicate OwnAddress(va: nat, begin: nat, end: nat) {
    begin / 4096 <= va / 4096 < end / 4096 || STACK_LO <= va / 4096 < STACK_HI
  }

  /** The pages open to a program are its own: those of its segments' hull and of its stack. */
  lemma OpenPages(s0: Snapshot, s: Snapshot, lo: nat, hi: nat, begin: nat, end: nat, a: nat)
    requires Loading(s0, s, lo, hi, begin, end, true) && NoUserPages(s0) && a < VA_LIMIT && Open(s, a)
    ensures OwnAddress(a, begin, end) && InImage(PageOf(a), lo, hi)
  {
    hide PageOf, LeavesConfined, HullOk;
    NumOfPageOf(a);
    var p := PageOf(a);
    AllShown(s0, s, p);
    assert !InImage(p, lo, hi) ==> Untouched(s0.view[p], s.view[p]);
  }

  lemma LoadingStored(s0: Snapshot, s: Snapshot, s': Snapshot, lo: nat, hi: nat, begin: nat, end: nat, n: nat)
    requires Loading(s0, s, lo, hi, begin, end, true) && OnlyDataIn(s, s', n, n + 1) && Partitioned(s')
    requires begin / 4096 <= n < end / 4096 || STACK_LO <= n < STACK_HI
    ensures Loading(s0, s', lo, hi, begin, end, true)
  {
    hide Partitioned, Confined, OnlyDataIn;
    assert Inside(n, n + 1, lo, hi);
    ConfinedData(s0, s, s', lo, hi, n, n + 1);
    OnlyDataView(s, s', n, n + 1);
    IdleSame(s, s', lo, hi, begin / 4096, end / 4096, true);
  }

  /** The last byte stored at `a`, if any was. */
  function LastStore(stores: seq<(nat, nat)>, a: nat): Option<nat> {
    if stores == [] then None
    else if stores[|stores| - 1].0 == a then Some(stores[|stores| - 1].1)
    else LastStore(stores[..|stores| - 1], a)
  }

  /** Every address reads what was stored there last, or as before. */
  ghost predicate StoredTo(s: Snapshot, s': Snapshot, stores: seq<(nat, nat)>) {
    Whole(StoredToParts(s, s', stores))
  }

  ghost predicate StoredToParts(s: Snapshot, s': Snapshot, stores: seq<(nat, nat)>) {
    forall a: nat {:trigger VaByte(s', a)} :: a < VA_LIMIT ==>
      VaByte(s', a) == if LastStore(stores, a).Some? then LastStore(stores, a) else VaByte(s, a)
  }

  lemma StoredNone(s: Snapshot)
    ensures StoredTo(s, s, [])
  {
    hide VaByte;
  }

  lemma StoredMore(s: Snapshot, s1: Snapshot, s2: Snapshot, stores: seq<(nat, nat)>, k: nat)
    requires k < |stores| && StoredTo(s, s1, stores[..k])
    requires forall a {:trigger VaByte(s2, a)} :: 0 <= a < VA_LIMIT ==>
               VaByte(s2, a) == if a == stores[k].0 then Some(stores[k].1) else VaByte(s1, a)
    ensures StoredTo(s, s2, stores[..k + 1])
  {
    hide VaByte;
    assert stores[..k + 1][..k] == stores[..k];
    forall a: nat | a < VA_LIMIT
      ensures var last := LastStore(stores[..k + 1], a); VaByte(s2, a) == if last.Some? then last else VaByte(s, a)
    {
      assert VaByte(s1, a) == VaByte(s1, a);
    }
  }

  /** The first `k` stores are to open pages. */
  ghost predicate AllOpen(s: Snapshot, run: Behaviour, k: nat) {
    k <= |run.stores| && forall i :: 0 <= i < k ==> Open(s, run.stores[i].0)
  }

  /** The part of `ring3_enter` that the kernel's memory can see: stores, as the processor lets them through. A
      store to a page that is not open faults, and the kernel halts. */
  method RunUser(vm: AddressSpace, run: Behaviour, begin: nat, end: nat, ghost s0: Snapshot, ghost lo: nat,
                 ghost hi: nat)
    returns (faulted: bool, ghost k: nat)
    requires vm.Owned() && Loading(s0, vm.Snap(), lo, hi, begin, end, true) && NoUserPages(s0) && Stores(run)
    modifies vm`mem
    ensures vm.Owned() && Loading(s0, vm.Snap(), lo, hi, begin, end, true)
    ensures AllOpen(old(vm.Snap()), run, k) && StoredTo(old(vm.Snap()), vm.Snap(), run.stores[..k])
    ensures if faulted then k < |run.stores| && !Open(old(vm.Snap()), run.stores[k].0) else k == |run.stores|
  {
    hide Whole, PageOf, Loading, VaByte, Accessible, OwnAddress;
    ghost var s := vm.Snap();
    StoredNone(s);
    var i: nat := 0;
    while i < |run.stores|
      invariant i <= |run.stores| && vm.Owned() && Loading(s0, vm.Snap(), lo, hi, begin, end, true)
      invariant vm.view == old(vm.view) && AllOpen(s, run, i) && StoredTo(s, vm.Snap(), run.stores[..i])
    {
      ghost var s1 := vm.Snap();
      var va := run.stores[i].0;
      var open := vm.IsOpen(va);
      if !open { return true, i; }
      OpenPages(s0, s1, lo, hi, begin, end, va);
      OpenIsSmall(s1, va);
      StoreByte(vm, va, run.stores[i].1, va / 4096, va / 4096 + 1);
      vm.SnapPartitioned();
      OwnPage(va, begin, end);
      LoadingStored(s0, s1, vm.Snap(), lo, hi, begin, end, va / 4096);
      StoredMore(s, s1, vm.Snap(), run.stores, i);
      i := i + 1;
    }
    assert run.stores[..i] == run.stores;
    return false, i;
  }

  lemma OpenIsSmall(s: Snapshot, a: nat)
    requires Open(s, a)
    ensures PageOf(a) in s.view && s.view[PageOf(a)].Small?
  {
  }

  lemma OwnPage(va: nat, begin: nat, end: nat)
    requires OwnAddress(va, begin, end)
    ensures begin / 4096 <= va / 4096 < end / 4096 || STACK_LO <= va / 4096 < STACK_HI
  {
  }

  /** Runs the program, if there is a task to run it in, and unmaps its pages. */
  method RunAndUnload(vm: AddressSpace, entry: nat, task: bool, program: Program, begin: nat, end: nat,
                      ghost s0: Snapshot, ghost lo: nat, ghost hi: nat)
    returns (exitCode: nat, faulted: bool)
    requires vm.Owned() && Loading(s0, vm.Snap(), lo, hi, begin, end, true) && NoUserPages(s0)
    modifies vm`mem, vm`view, vm`leaves, vm.pmm`free, vm.pmm`freeFrames, vm.pmm.bitmap
    ensures vm.Owned() && (if faulted then Loading(s0, vm.Snap(), lo, hi, begin, end, true)
                           else Loading(s0, vm.Snap(), lo, hi, 0, 0, false))
    ensures faulted <==> task && Faults(old(vm.Snap()), program(entry, old(vm.mem)))
    ensures !faulted ==> exitCode == if task then program(entry, old(vm.mem)).exitCode else 0
  {
    hide Whole, Loading, Open;
    exitCode, faulted := 0, false;
    if task {
      var run := program(entry, vm.mem);
      ghost var s, k := vm.Snap(), 0;
      faulted, k := RunUser(vm, run, begin, end, s0, lo, hi);
      FaultsWhen(s, run, k, faulted);
      if faulted { return; }
      exitCode := run.exitCode;
    }
    UnmapStack(vm, begin, end, s0, lo, hi);
    UnmapHull(vm, begin, end, s0, lo, hi);
  }

  /** Some store of the program is to a page that is not open to it. */
  ghost predicate Faults(s: Snapshot, run: Behaviour) {
    exists i :: 0 <= i < |run.stores| && !Open(s, run.stores[i].0)
  }

  lemma FaultsWhen(s: Snapshot, run: Behaviour, k: nat, faulted: bool)
    requires AllOpen(s, run, k)
    requires if faulted then k < |run.stores| && !Open(s, run.stores[k].0) else k == |run.stores|
    ensures faulted <==> Faults(s, run)
  {
    hide Open;
  }

  // ---------- one file ----------

  /** A file the loader accepts. */
  predicate Runnable(file: seq<nat>) {
    ValidElf(file) && 0x1000_0000 <= Entry(file) < 0x8000_0000 && AllAcceptable(file)
  }

  /** Never read: the buffer has a header of its own. */
  const NO_HEADER: HeapLinks.Header := HeapLinks.Header(0, 0, false, 0, 0)

  /** The program starts: its segments and its stack are in place, and no other 4 KiB page is open to it. */
  ghost predicate Entered(s0: Snapshot, s: Snapshot, file: seq<nat>, lo: nat, hi: nat) {
    && ValidElf(file) && StackReady(s) && Confined(s0, s, lo, hi)
    && (NoSharedPages(file) ==> FirstLoaded(s, file, PhNum(file)))
    && (forall a: nat {:trigger VaByte(s, a)} :: 0x6FFF_C000 <= a < 0x7000_0000 ==>
          VaByte(s, a) == Some(0) && Open(s, a))
    && (forall a: nat {:trigger Open(s, a)} :: a < VA_LIMIT && Open(s, a) ==> InImage(PageOf(a), lo, hi))
  }

  lemma StackReads(s: Snapshot, a: nat)
    requires StackReady(s) && 0x6FFF_C000 <= a < 0x7000_0000
    ensures VaByte(s, a) == Some(0) && Open(s, a)
  {
    NumOfPageOf(a);
    assert InRange(PageOf(a), STACK_LO, STACK_HI);
    ZeroByte(s.mem, Frame(s.view[PageOf(a)].entry), a % 4096);
  }

  lemma EntersOwn(s0: Snapshot, s: Snapshot, file: seq<nat>, lo: nat, hi: nat, begin: nat, end: nat)
    requires Loading(s0, s, lo, hi, begin, end, true) && NoUserPages(s0) && ValidElf(file) && StackReady(s)
    requires NoSharedPages(file) ==> FirstLoaded(s, file, PhNum(file))
    ensures Entered(s0, s, file, lo, hi)
  {
    assert Confined(s0, s, lo, hi);
    hide Whole, Loading, Le, ValidElf, FirstLoaded, NoSharedPages, Open, PageOf, OwnAddress, InImage, VaByte;
    forall a: nat | 0x6FFF_C000 <= a < 0x7000_0000 ensures VaByte(s, a) == Some(0) && Open(s, a) {
      StackReads(s, a);
    }
    forall a: nat | a < VA_LIMIT && Open(s, a) ensures InImage(PageOf(a), lo, hi) {
      OpenPages(s0, s, lo, hi, begin, end, a);
    }
  }

  /** The file passes the checks and there are frames for its image. */
  ghost predicate CanLoad(s: Snapshot, file: seq<nat>) {
    Runnable(file) && |s.free| >= FramesNeeded(s, file)
  }

  /** The code with which the program exits, entered at its entry point with this memory. */
  ghost predicate ExitsWith(file: seq<nat>, program: Program, entered: Snapshot, code: nat) {
    ValidElf(file) && code == program(Entry(file), entered.mem).exitCode
  }

  lemma LoadingConfined(s0: Snapshot, s: Snapshot, lo: nat, hi: nat, begin: nat, end: nat, stack: bool)
    requires Loading(s0, s, lo, hi, begin, end, stack)
    ensures Confined(s0, s, lo, hi)
  {
    hide Confined, Partitioned, Idle, HullOk;
  }

  /** `user_mode_run_path` from the file in the buffer at `ptr` to the program about to start, or to the return
      if it does not load. The buffer is freed either way. */
  method LoadFile(heap: KernelHeap, ptr: nat, size: nat, ghost file: seq<nat>, ghost lo: nat, ghost hi: nat)
    returns (ok: bool, entry: nat, begin: nat, end: nat)
    requires heap.Valid() && heap.vm.Owned() && Buffer(heap.vm.Snap(), ptr, file) && size == |file|
    requires ClearOfHeap(lo, hi) && Idle(heap.vm.Snap(), lo, hi, 0, 0, false)
    requires ptr >= 48 && HasAddr(heap.blocks, ptr - 48)
    requires ValidElf(file) ==> WithinHull(file, lo, hi)
    modifies heap`hdr, heap`blocks
    modifies heap.vm`mem, heap.vm`tables, heap.vm`view, heap.vm`leaves
    modifies heap.vm.pmm`free, heap.vm.pmm`freeFrames, heap.vm.pmm.bitmap
    ensures heap.Valid() && heap.State() == HeapBlocks.Kfree(old(heap.State()), ptr) && heap.vm.Owned()
    ensures ok <==> CanLoad(old(heap.vm.Snap()), file)
    ensures if ok then Loading(old(heap.vm.Snap()), heap.vm.Snap(), lo, hi, begin, end, true)
            else Loading(old(heap.vm.Snap()), heap.vm.Snap(), lo, hi, 0, 0, false)
    ensures ok ==> ValidElf(file) && entry == Entry(file) && StackReady(heap.vm.Snap())
    ensures ok && NoSharedPages(file) ==> FirstLoaded(heap.vm.Snap(), file, PhNum(file))
  {
    hide Whole, Le, ValidElf, PhdrAt, Loading, NoSharedPages, FirstLoaded, Idle, WithinHull, HeapBlocks.Kfree;
    hide AllAcceptable, FramesNeeded, ClearOfHeap, StackReady, Buffer, HasAddr;
    var vm := heap.vm;
    vm.SnapPartitioned();
    LoadingStart(vm.Snap(), lo, hi);
    entry, begin, end := 0, 0, 0;
    ok := Validate(vm, ptr, size, file);
    if ok {
      HeaderFits(file);
      entry := ReadLe(vm, ptr, 24, 8, file);
      ok := RangeOk(entry, 1);
    }
    if ok {
      ok, begin, end := LoadImage(vm, ptr, size, file, lo, hi);
      if ok { entry := ReadLe(vm, ptr, 24, 8, file); }
    }
    heap.Kfree(ptr, NO_HEADER);
  }

  /** `user_mode_run_path` from the point where the file is in the buffer at `ptr`. `entered` is the state in
      which the program starts. */
  method RunFile(heap: KernelHeap, ptr: nat, size: nat, task: bool, program: Program, ghost file: seq<nat>,
                 ghost lo: nat, ghost hi: nat)
    returns (result: int, exitCode: nat, faulted: bool, ghost entered: Snapshot)
    requires heap.Valid() && heap.vm.Owned() && Buffer(heap.vm.Snap(), ptr, file) && size == |file|
    requires ClearOfHeap(lo, hi) && Idle(heap.vm.Snap(), lo, hi, 0, 0, false) && NoUserPages(heap.vm.Snap())
    requires ptr >= 48 && HasAddr(heap.blocks, ptr - 48)
    requires ValidElf(file) ==> WithinHull(file, lo, hi)
    modifies heap`hdr, heap`blocks
    modifies heap.vm`mem, heap.vm`tables, heap.vm`view, heap.vm`leaves
    modifies heap.vm.pmm`free, heap.vm.pmm`freeFrames, heap.vm.pmm.bitmap
    ensures heap.Valid() && heap.State() == HeapBlocks.Kfree(old(heap.State()), ptr) && heap.vm.Owned()
    ensures if faulted then Confined(old(heap.vm.Snap()), heap.vm.Snap(), lo, hi)
            else Loading(old(heap.vm.Snap()), heap.vm.Snap(), lo, hi, 0, 0, false)
    ensures CanLoad(old(heap.vm.Snap()), file) ==> Entered(old(heap.vm.Snap()), entered, file, lo, hi)
    ensures faulted <==> CanLoad(old(heap.vm.Snap()), file) && task &&
                         Faults(entered, program(Entry(file), entered.mem))
    ensures result == if CanLoad(old(heap.vm.Snap()), file) && task && !faulted then 0 else -1
    ensures result == 0 ==> ExitsWith(file, program, entered, exitCode)
  {
    hide Whole, Le, ValidElf, Loading, NoSharedPages, FirstLoaded, Idle, WithinHull, HeapBlocks.Kfree, CanLoad;
    hide Faults, Entered, Confined, ClearOfHeap, StackReady, NoUserPages;
    ghost var s0 := heap.vm.Snap();
    result, exitCode, faulted, entered := -1, 0, false, s0;
    var ok, entry, begin, end := LoadFile(heap, ptr, size, file, lo, hi);
    if !ok { return; }
    entered := heap.vm.Snap();
    EntersOwn(s0, entered, file, lo, hi, begin, end);
    exitCode, faulted := RunAndUnload(heap.vm, entry, task, program, begin, end, s0, lo, hi);
    if faulted {
      LoadingConfined(s0, heap.vm.Snap(), lo, hi, begin, end, true);
    } else if task {
      result := 0;
    }
  }

  // ---------- the heap during a run ----------

  lemma BackingKept(s: Snapshot, s': Snapshot, lo: nat, hi: nat, end: nat, holes: set<Page>)
    requires Partitioned(s) && Confined(s, s', lo, hi) && ClearOfHeap(lo, hi) && HEAP_START <= end
    requires HeapSpace(s, end, holes) && end <= HEAP_MAX_END
    ensures HeapSpace(s', end, holes)
  {
    forall p | InRange(p, HEAP_START / 4096, end / 4096) && p in s'.view && p !in holes ensures s'.view[p].Small? {
      assert p in s.view && !InImage(p, lo, hi);
    }
    forall p | InRange(p, end / 4096, HEAP_MAX_END / 4096) && p in s'.view ensures s'.view[p].Unmapped? {
      assert p in s.view && !InImage(p, lo, hi);
    }
  }

  lemma GrowthKeepsIdle(s: Snapshot, s': Snapshot, lost: set<nat>, lo: nat, hi: nat)
    requires Partitioned(s) && HeapGrowth(s, s', lost) && ClearOfHeap(lo, hi) && Idle(s, lo, hi, 0, 0, false)
    ensures Idle(s', lo, hi, 0, 0, false)
  {
  }

  /** Freeing a buffer just allocated leaves the other allocations as they were. */
  lemma BufferFreed(h: HeapBlocks.Heap, n: nat, granted: bool, h': HeapBlocks.Heap, ptr: nat)
    requires (HeapOk(h) || n == 0) && IsKmalloc(h, n, granted, h', ptr)
    ensures Live((if ptr == 0 then h' else HeapBlocks.Kfree(h', ptr)).blocks) == Live(h.blocks)
    ensures ptr != 0 ==> ptr >= 48 && HasAddr(h'.blocks, ptr - 48)
  {
    hide HeapBlocks.Kmalloc, HeapBlocks.Kfree, HeapOk;
    if n == 0 { KmallocOfNothing(h, granted); return; }
    KmallocKeeps(h, n, granted);
    if ptr != 0 {
      KfreeKeeps(h', ptr);
      var b :| NewAllocation(h, h', n, ptr, b);
      assert HasAddr(h'.blocks, ptr - 48) by {
        var i :| 0 <= i < |h'.blocks| && h'.blocks[i] == b;
      }
      forall c | c in Live(h.blocks) ensures c.addr + 48 != ptr {
        BlocksApart(h', b, c);
      }
    }
  }

  /** The growth that a request of `size` bytes asks for is impossible: it would pass the limit of the heap, or
      the frames run out before its last page. */
  ghost predicate CannotGrow(s: Snapshot, end: nat, size: nat) {
    || end + ExpandSize(size) > HEAP_MAX_END
    || |s.free| <= FramesFor(s.tables, end / 4096, (end + ExpandSize(size)) / 4096 - 1)
  }

  /** When a buffer of `n` bytes cannot be had: no free block fits and the heap cannot grow. */
  ghost predicate NoBuffer(h: HeapBlocks.Heap, s: Snapshot, n: nat) {
    (forall b :: b in h.blocks && b.free ==> b.size < Rounded(n)) && CannotGrow(s, h.end, Rounded(n))
  }

  lemma Ungranted(s: Snapshot, end: nat, size: nat, granted: bool, lost: set<nat>)
    requires Grew(s, end, size, granted, lost)
    ensures end + ExpandSize(size) > HEAP_MAX_END || !granted <==> CannotGrow(s, end, size)
  {
    hide FramesFor;
    assert ExpandSize(size) >= HEAP_INITIAL;
  }

  lemma BufferRefused(h: HeapBlocks.Heap, s: Snapshot, g: Snapshot, n: nat, granted: bool, h': HeapBlocks.Heap,
                      ptr: nat, lost: set<nat>)
    requires HeapOk(h) && n > 0 && IsKmalloc(h, n, granted, h', ptr)
    requires GrowthFor(h, Rounded(n), s, g, granted, lost)
    ensures ptr == 0 <==> NoBuffer(h, s, n)
  {
    hide HeapBlocks.Kmalloc, HeapOk, Grew, CannotGrow, ExpandSize, Rounded, FirstFit;
    KmallocFailsOnlyWhenFull(h, n, granted);
    if forall b :: b in h.blocks && b.free ==> b.size < Rounded(n) {
      NoneHolds(h.blocks, Rounded(n));
      Ungranted(s, h.end, Rounded(n), granted, lost);
    }
  }

  // ---------- what a run leaves ----------

  /** How a run gets its file: `grown` is the state once the buffer at `ptr` was allocated, with the frames
      `lost` to the heap's growth, and `filled` the state once the first `stored` bytes were in it. */
  datatype Reading = Reading(ptr: nat, stored: nat, grown: Snapshot, filled: Snapshot, lost: set<nat>)

  /** What remains of a run. */
  ghost predicate RunOver(s: Snapshot, r: Reading, s': Snapshot, file: seq<nat>, lo: nat, hi: nat) {
    && HeapGrowth(s, r.grown, r.lost) && Partitioned(r.grown)
    && Filled(r.grown, r.filled, r.ptr, file, r.stored)
    && s'.leaves == r.grown.leaves && s'.free == r.grown.free - (s'.tables.Keys - r.grown.tables.Keys)
    && Confined(r.filled, s', lo, hi) && Idle(s', lo, hi, 0, 0, false)
  }

  lemma RunEnds(s: Snapshot, r: Reading, s': Snapshot, file: seq<nat>, lo: nat, hi: nat)
    requires HeapGrowth(s, r.grown, r.lost) && Partitioned(r.grown) && Partitioned(r.filled)
    requires Filled(r.grown, r.filled, r.ptr, file, r.stored)
    requires Idle(r.filled, lo, hi, 0, 0, false) && Loading(r.filled, s', lo, hi, 0, 0, false)
    ensures RunOver(s, r, s', file, lo, hi)
  {
    FilledSame(r.grown, r.filled, r.ptr, file, r.stored);
    hide Whole, HeapGrowth, Filled;
    Restored(r.filled, s', lo, hi);
  }

  lemma FilledSame(s: Snapshot, s': Snapshot, ptr: nat, file: seq<nat>, k: nat)
    requires Filled(s, s', ptr, file, k)
    ensures s' == s.(mem := s'.mem) && |s'.mem| == |s.mem|
  {
    hide Copied;
  }

  /** What a run leaves of the heap's growth: the state `f` differs from `g` in memory only. */
  lemma RunFacts(s: Snapshot, r: Reading, s': Snapshot, file: seq<nat>, lo: nat, hi: nat)
    requires RunOver(s, r, s', file, lo, hi)
    ensures HeapGrowth(s, r.grown, r.lost) && Partitioned(r.grown)
    ensures r.filled == r.grown.(mem := r.filled.mem) && |r.filled.mem| == |r.grown.mem|
    ensures Confined(r.filled, s', lo, hi) && Idle(s', lo, hi, 0, 0, false)
    ensures Pool(s') == Pool(r.grown) && s'.leaves == r.grown.leaves && r.grown.tables.Keys <= s'.tables.Keys
  {
    FilledSame(r.grown, r.filled, r.ptr, file, r.stored);
    hide HeapGrowth, ViewsConfined, LeavesConfined, Idle, Partitioned, Filled;
  }

  /** The frames a finished run has used up are those of new tables, of heap pages and those lost when the
      heap grew. */
  lemma FramesUsed(s: Snapshot, r: Reading, s': Snapshot, file: seq<nat>, lo: nat, hi: nat)
    requires RunOver(s, r, s', file, lo, hi) && Partitioned(s) && Partitioned(s')
    ensures s'.free <= s.free
    ensures forall f :: f in s.free && f !in s'.free ==>
              || (f in s'.tables && f !in s.tables) || f in r.lost
              || (f in s'.leaves && InRange(s'.leaves[f], HEAP_START / 4096, HEAP_MAX_END / 4096))
  {
    RunFacts(s, r, s', file, lo, hi);
    hide RunOver, Confined, Idle;
    var g := r.grown;
    forall f | f in s'.free ensures f in s.free {
      assert f in Pool(g) && f in Pool(s);
    }
    forall f | f in s.free && f !in s'.free
      ensures || (f in s'.tables && f !in s.tables) || f in r.lost
              || (f in s'.leaves && InRange(s'.leaves[f], HEAP_START / 4096, HEAP_MAX_END / 4096))
    {
      assert f in Pool(s) && f !in s.leaves && f !in s.tables;
      assert f in Pool(g) || f in r.lost;
    }
  }

  /** A run leaves no page open to user code, if there was none. */
  lemma RunKeepsKernelPages(s: Snapshot, r: Reading, s': Snapshot, file: seq<nat>, lo: nat, hi: nat)
    requires RunOver(s, r, s', file, lo, hi) && NoUserPages(s) && Partitioned(s) && Partitioned(s')
    ensures NoUserPages(s')
  {
    hide RunOver, HeapGrowth, Confined, Idle;
    RunFacts(s, r, s', file, lo, hi);
    GrowthKeepsKernelPages(s, r.grown, r.lost);
    MemoryKeepsPartition(r.grown, r.filled);
    ConfinedKeepsKernelPages(r.filled, s', lo, hi);
  }

  lemma MemoryKeepsPartition(s: Snapshot, s': Snapshot)
    requires Partitioned(s) && s' == s.(mem := s'.mem) && |s'.mem| == |s.mem|
    ensures Partitioned(s') && (NoUserPages(s) ==> NoUserPages(s'))
  {
  }

  lemma GrowthKeepsKernelPages(s: Snapshot, s': Snapshot, lost: set<nat>)
    requires HeapGrowth(s, s', lost) && NoUserPages(s) && Partitioned(s) && Partitioned(s')
    ensures NoUserPages(s')
  {
    forall p | p in s'.view && s'.view[p].Small? ensures !User(s'.view[p].entry) {
      AllShown(s', s, p);
    }
  }

  lemma ConfinedKeepsKernelPages(s: Snapshot, s': Snapshot, lo: nat, hi: nat)
    requires Confined(s, s', lo, hi) && Idle(s', lo, hi, 0, 0, false) && Partitioned(s) && Partitioned(s')
    requires NoUserPages(s)
    ensures NoUserPages(s')
  {
    hide LeavesConfined, Conserves;
    forall p | p in s'.view && s'.view[p].Small? ensures !User(s'.view[p].entry) {
      AllShown(s', s, p);
      assert !InImage(p, lo, hi);
      assert Untouched(s.view[p], s'.view[p]);
    }
  }

  // ---------- the bytes of other allocations ----------

  lemma ConfinedKeepsByte(s: Snapshot, s': Snapshot, lo: nat, hi: nat, a: nat)
    requires Partitioned(s) && Partitioned(s') && Confined(s, s', lo, hi) && !InImage(PageOf(a), lo, hi)
    ensures VaByte(s', a) == VaByte(s, a)
  {
    hide PageOf, Conserves;
    var p := PageOf(a);
    AllShown(s, s', p);
    assert Untouched(s.view[p], s'.view[p]);
    if s.view[p].Small? {
      var d := Frame(s.view[p].entry);
      assert d in s.leaves && s.leaves[d] == p;
    }
  }

  /** A byte of the heap outside the buffer survives the run. */
  lemma RunKeepsByte(s: Snapshot, r: Reading, s': Snapshot, file: seq<nat>, lo: nat, hi: nat, a: nat)
    requires RunOver(s, r, s', file, lo, hi) && ClearOfHeap(lo, hi)
    requires Partitioned(s) && Partitioned(r.filled) && Partitioned(s')
    requires HEAP_START <= a < HEAP_MAX_END && !(r.ptr <= a < r.ptr + r.stored) && VaByte(s, a).Some?
    ensures VaByte(s', a) == VaByte(s, a)
  {
    hide PageOf, VaByte, Partitioned, HeapGrowth, Confined, Idle;
    HeapPageOf(a);
    NumOfPageOf(a);
    GrowthKeepsByte(s, r.grown, r.lost, a);
    assert VaByte(r.filled, a) == VaByte(r.grown, a);
    ConfinedKeepsByte(r.filled, s', lo, hi, a);
  }

  lemma RunKeepsAllocations(h: HeapBlocks.Heap, n: nat, granted: bool, h': HeapBlocks.Heap, s: Snapshot, r: Reading,
                            s': Snapshot, file: seq<nat>, lo: nat, hi: nat)
    requires (h.blocks != [] ==> HeapOk(h)) && IsKmalloc(h, n, granted, h', r.ptr)
    requires RunOver(s, r, s', file, lo, hi) && ClearOfHeap(lo, hi)
    requires Partitioned(s) && Partitioned(r.filled) && Partitioned(s')
    requires r.stored == if r.ptr == 0 then 0 else n
    ensures AllocationsKept(h, s, s')
  {
    hide HeapOk, IsKmalloc, RunOver, Partitioned, VaByte, InPayload;
    forall b, a: nat | b in Live(h.blocks) && InPayload(b, a) && VaByte(s, a).Some?
      ensures VaByte(s', a) == VaByte(s, a)
    {
      AllocationsApart(h, n, granted, h', r.ptr, b, a);
      RunKeepsByte(s, r, s', file, lo, hi, a);
    }
  }

  // ---------- the whole run ----------

  function Contents(file: Option<seq<nat>>): seq<nat> {
    if file.Some? then file.value else []
  }

  /** The program is entered: there is a buffer, the file loads and there is a task. */
  ghost predicate Enters(r: Reading, file: seq<nat>, task: bool) {
    r.ptr != 0 && CanLoad(r.filled, file) && task
  }

  /** The kernel stops: a byte of the buffer is on no page, or a store of the program is to a page not open to it. */
  ghost predicate Stops(r: Reading, file: seq<nat>, task: bool, program: Program, entered: Snapshot) {
    || (r.ptr != 0 && !Mapped(r.grown, r.ptr, |file|))
    || (Enters(r, file, task) && Faults(entered, program(Entry(file), entered.mem)))
  }

  /** Without holes the buffer is mapped. */
  lemma PayloadMapped(s: Snapshot, end: nat, ptr: nat, n: nat)
    requires Partitioned(s) && HeapSpace(s, end, {}) && end <= HEAP_MAX_END && end % 4096 == 0
    requires HEAP_START <= ptr && ptr + n <= end
    ensures Mapped(s, ptr, n)
  {
    forall a: nat | ptr <= a < ptr + n ensures VaByte(s, a).Some? {
      HeapByteMapped(s, end, a);
    }
  }

  lemma FilledKeepsIdle(s: Snapshot, s': Snapshot, ptr: nat, file: seq<nat>, k: nat, lo: nat, hi: nat)
    requires Filled(s, s', ptr, file, k) && Idle(s, lo, hi, 0, 0, false) && NoUserPages(s)
    ensures Idle(s', lo, hi, 0, 0, false) && NoUserPages(s')
  {
    FilledSame(s, s', ptr, file, k);
    hide Filled;
  }

  /** `read_file` for a file that is not empty: a buffer, and the file in it. A buffer with a byte on no page
      stops the kernel. */
  method ReadFile(heap: KernelHeap, file: seq<nat>, ghost lo: nat, ghost hi: nat)
    returns (ptr: nat, faulted: bool, ghost granted: bool, ghost r: Reading)
    requires heap.Valid() && heap.Backing() && ClearOfHeap(lo, hi) && Idle(heap.vm.Snap(), lo, hi, 0, 0, false)
    requires file != [] && Bytes(file) && (heap.ready ==> Requestable(heap.State(), |file|))
    requires NoUserPages(heap.vm.Snap())
    modifies heap`hdr, heap`blocks, heap`first, heap`mappedEnd, heap`holes
    modifies heap.vm`mem, heap.vm`tables, heap.vm`view, heap.vm`leaves
    modifies heap.vm.pmm`free, heap.vm.pmm`freeFrames, heap.vm.pmm.bitmap
    ensures heap.Valid() && heap.Backing() && (r.lost == {} ==> heap.holes == old(heap.holes))
    ensures r.ptr == ptr && r.filled == heap.vm.Snap() && Partitioned(r.grown)
    ensures HeapGrowth(old(heap.vm.Snap()), r.grown, r.lost)
    ensures Filled(r.grown, r.filled, ptr, file, r.stored)
    ensures IsKmalloc(old(heap.State()), if heap.ready then |file| else 0, granted, heap.State(), ptr)
    ensures ptr == 0 <==> !heap.ready || NoBuffer(old(heap.State()), old(heap.vm.Snap()), |file|)
    ensures faulted <==> ptr != 0 && !Mapped(r.grown, ptr, |file|)
    ensures faulted ==> heap.holes != {}
    ensures ptr != 0 && !faulted ==> Buffer(heap.vm.Snap(), ptr, file)
    ensures !faulted ==> r.stored == if ptr == 0 then 0 else |file|
    ensures Idle(heap.vm.Snap(), lo, hi, 0, 0, false) && NoUserPages(heap.vm.Snap())
  {
    hide Whole, HeapGrowth, HeapSpace, Idle, ClearOfHeap, IsKmalloc, GrowthFor, NoBuffer, Filled, Bytes, Refused;
    hide NoUserPages, Mapped, Requestable, HeapOk;
    ghost var s, h, n := heap.vm.Snap(), heap.State(), |file|;
    heap.vm.SnapPartitioned();
    if heap.ready { heap.BlocksOk(); }
    ghost var lost;
    ptr, granted, lost := heap.Kmalloc(|file|);
    ghost var g := heap.vm.Snap();
    heap.vm.SnapPartitioned();
    GrowthKeepsIdle(s, g, lost, lo, hi);
    GrowthKeepsKernelPages(s, g, lost);
    NothingFilled(g, ptr, file);
    faulted, r := false, Reading(ptr, 0, g, g, lost);
    if heap.ready {
      BufferRefused(h, s, g, n, granted, heap.State(), ptr, lost);
    } else if ptr != 0 {
      Nonzero(h, 0, granted, heap.State(), ptr);
    }
    if ptr == 0 { return; }
    PayloadInside(h, n, granted, heap.State(), ptr);
    ghost var k;
    faulted, k := FillBuffer(heap.vm, ptr, file);
    r := r.(stored := k, filled := heap.vm.Snap());
    FilledSpace(g, heap.vm.Snap(), ptr, file, k, heap.mappedEnd, heap.holes);
    FilledKeepsIdle(g, heap.vm.Snap(), ptr, file, k, lo, hi);
    if heap.holes == {} { PayloadMapped(g, heap.mappedEnd, ptr, n); }
  }

  lemma FilledSpace(s: Snapshot, s': Snapshot, ptr: nat, file: seq<nat>, k: nat, end: nat, holes: set<Page>)
    requires Filled(s, s', ptr, file, k) && HeapSpace(s, end, holes)
    ensures HeapSpace(s', end, holes)
  {
    hide HeapSpace, OnlyDataIn;
    DataKeepsSpace(s, s', end, holes);
  }

  lemma RunKeepsBacking(s: Snapshot, r: Reading, s': Snapshot, file: seq<nat>, lo: nat, hi: nat, end: nat,
                        holes: set<Page>)
    requires RunOver(s, r, s', file, lo, hi) && Partitioned(r.filled) && ClearOfHeap(lo, hi) && HEAP_START <= end
    requires HeapSpace(r.filled, end, holes) && end <= HEAP_MAX_END
    ensures HeapSpace(s', end, holes)
  {
    hide HeapSpace, Confined, Filled, HeapGrowth, Partitioned, Idle, ClearOfHeap;
    BackingKept(r.filled, s', lo, hi, end, holes);
  }

  /** What `RunPath` gives back when it returns, stated over the heap `h` and state `s` it began with. */
  ghost predicate Returned(h: HeapBlocks.Heap, s: Snapshot, r: Reading, s': Snapshot, file: seq<nat>, lo: nat,
                           hi: nat) {
    && RunOver(s, r, s', file, lo, hi) && AllocationsKept(h, s, s') && NoUserPages(s')
    && r.stored == if r.ptr == 0 then 0 else |file|
  }

  lemma NothingRead(h: HeapBlocks.Heap, s: Snapshot, lo: nat, hi: nat)
    requires Partitioned(s) && Idle(s, lo, hi, 0, 0, false) && NoUserPages(s)
    ensures Returned(h, s, Reading(0, 0, s, s, {}), s, [], lo, hi)
  {
    hide Whole, HeapGrowth, Idle, NoUserPages, VaByte, Loading;
    GrowthRefl(s);
    NothingFilled(s, 0, []);
    LoadingStart(s, lo, hi);
    RunEnds(s, Reading(0, 0, s, s, {}), s, [], lo, hi);
  }

  /** `file` is the contents of the file at the path, if there is one; `task` says whether there is a current
      task. `faulted` says that the kernel stopped: at a byte of the buffer that is on no page, or at a store of
      the program. Otherwise the result is 0 or -1. `entered` is the state in which the program starts. */
  method RunPath(heap: KernelHeap, file: Option<seq<nat>>, task: bool, program: Program,
                 ghost lo: nat, ghost hi: nat)
    returns (result: int, exitCode: nat, faulted: bool, ghost r: Reading, ghost entered: Snapshot)
    requires heap.Valid() && heap.Backing() && ClearOfHeap(lo, hi) && Idle(heap.vm.Snap(), lo, hi, 0, 0, false)
    requires NoUserPages(heap.vm.Snap()) && Bytes(Contents(file))
    requires heap.ready ==> Requestable(heap.State(), |Contents(file)|)
    requires ValidElf(Contents(file)) ==> WithinHull(Contents(file), lo, hi)
    modifies heap`hdr, heap`blocks, heap`first, heap`mappedEnd, heap`holes
    modifies heap.vm`mem, heap.vm`tables, heap.vm`view, heap.vm`leaves
    modifies heap.vm.pmm`free, heap.vm.pmm`freeFrames, heap.vm.pmm.bitmap
    ensures heap.Valid() && heap.vm.Owned() && (r.lost == {} ==> heap.holes == old(heap.holes))
    ensures !faulted ==> heap.Backing() && Live(heap.blocks) == old(Live(heap.blocks))
    ensures !faulted ==> Returned(old(heap.State()), old(heap.vm.Snap()), r, heap.vm.Snap(), Contents(file), lo, hi)
    ensures r.ptr == 0 <==> || Contents(file) == [] || !heap.ready
                            || NoBuffer(old(heap.State()), old(heap.vm.Snap()), |Contents(file)|)
    ensures faulted <==> Stops(r, Contents(file), task, program, entered)
    ensures heap.holes == {} && r.ptr != 0 ==> Mapped(r.grown, r.ptr, |Contents(file)|)
    ensures result == if Enters(r, Contents(file), task) && !faulted then 0 else -1
    ensures Enters(r, Contents(file), task) && Mapped(r.grown, r.ptr, |Contents(file)|) ==>
              Entered(r.filled, entered, Contents(file), lo, hi)
    ensures result == 0 ==> ExitsWith(Contents(file), program, entered, exitCode)
  {
    hide Whole, HeapGrowth, HeapSpace, Idle, ClearOfHeap, ValidElf, Le, WithinHull, Loading, RunOver, CanLoad;
    hide NoBuffer, Filled, Mapped, Faults, Entered, NoUserPages, AllocationsKept, Bytes, IsKmalloc, Requestable;
    ghost var s, h := heap.vm.Snap(), heap.State();
    heap.vm.SnapPartitioned();
    NothingRead(h, s, lo, hi);
    result, exitCode, faulted, r, entered := -1, 0, false, Reading(0, 0, s, s, {}), s;
    if file.None? || |file.value| == 0 { return; }
    if heap.blocks != [] { heap.BlocksOk(); }
    var ptr;
    ghost var granted;
    ptr, faulted, granted, r := ReadFile(heap, file.value, lo, hi);
    ghost var h1 := heap.State();
    heap.vm.SnapPartitioned();
    if faulted { return; }
    LoadingStart(r.filled, lo, hi);
    BufferFreed(h, if heap.ready then |file.value| else 0, granted, h1, ptr);
    if ptr != 0 {
      result, exitCode, faulted, entered := RunFile(heap, ptr, |file.value|, task, program, file.value, lo, hi);
      if faulted { return; }
    }
    heap.vm.SnapPartitioned();
    heap.EndInHeap();
    RunEnds(s, r, heap.vm.Snap(), file.value, lo, hi);
    RunKeepsBacking(s, r, heap.vm.Snap(), file.value, lo, hi, heap.mappedEnd, heap.holes);
    RunKeepsKernelPages(s, r, heap.vm.Snap(), file.value, lo, hi);
    RunKeepsAllocations(h, if heap.ready then |file.value| else 0, granted, h1, s, r, heap.vm.Snap(), file.value,
                        lo, hi);
  }
}
