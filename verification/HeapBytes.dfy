/** `kzalloc` of kernel/heap.c: an allocation whose bytes, as read through the page tables, are zero. */
module HeapBytes {
  import opened Utils
  import opened Options
  import opened PageTables
  import opened TableEffects
  import opened PageRanges
  import opened Vmm
  import opened UserMemory
  import opened HeapBlocks
  import opened HeapPages
  import opened Heap

  const HEAP_LO: nat := 0x41000
  const HEAP_HI: nat := 0x42000

  /** The mapped bytes among the first `k` from `ptr` on are zero; every other address reads as before. */
  ghost predicate ZeroedTo(s: Snapshot, s': Snapshot, ptr: nat, k: nat) {
    Whole(ZeroedToParts(s, s', ptr, k))
  }

  ghost predicate ZeroedToParts(s: Snapshot, s': Snapshot, ptr: nat, k: nat) {
    forall a: nat {:trigger VaByte(s', a)} :: a < VA_LIMIT ==>
      VaByte(s', a) == if ptr <= a < ptr + k && VaByte(s, a).Some? then Some(0) else VaByte(s, a)
  }

  lemma ZeroedNone(s: Snapshot, ptr: nat)
    ensures ZeroedTo(s, s, ptr, 0)
  {
  }

  /** One more byte: stored where a page is mapped, left alone where none is. */
  lemma ZeroedMore(s: Snapshot, s1: Snapshot, s2: Snapshot, ptr: nat, k: nat)
    requires ZeroedTo(s, s1, ptr, k) && ptr + k < VA_LIMIT
    requires if VaByte(s1, ptr + k).Some?
             then forall a: nat {:trigger VaByte(s2, a)} :: a < VA_LIMIT ==>
                    VaByte(s2, a) == if a == ptr + k then Some(0) else VaByte(s1, a)
             else s2 == s1
    ensures ZeroedTo(s, s2, ptr, k + 1)
  {
    assert VaByte(s1, ptr + k) == VaByte(s1, ptr + k);
  }

  lemma MappedByte(s: Snapshot, a: nat)
    requires a < VA_LIMIT && PageOf(a) in s.view
    ensures VaByte(s, a).Some? <==> s.view[PageOf(a)].Small?
  {
  }

  /** The new allocation lies inside the heap. */
  lemma PayloadInside(h: HeapBlocks.Heap, n: nat, granted: bool, h': HeapBlocks.Heap, ptr: nat)
    requires HeapOk(h) && IsKmalloc(h, n, granted, h', ptr) && ptr != 0
    ensures HEAP_START < ptr && ptr + n <= h'.end <= HEAP_MAX_END && h'.end % 4096 == 0
  {
    hide HeapBlocks.Kmalloc;
    KmallocKeeps(h, n, granted);
    var b :| NewAllocation(h, h', n, ptr, b);
  }

  /** Without holes every byte of the heap is on a mapped page. */
  lemma HeapByteMapped(s: Snapshot, end: nat, a: nat)
    requires Partitioned(s) && MappedBelow(s, end, {}) && HEAP_START <= a < end <= HEAP_MAX_END && end % 4096 == 0
    ensures VaByte(s, a).Some?
  {
    NumOfPageOf(a);
    assert InRange(PageOf(a), HEAP_START / 4096, end / 4096);
  }

  lemma DataKeepsSpace(s: Snapshot, s': Snapshot, end: nat, holes: set<Page>)
    requires OnlyDataIn(s, s', HEAP_LO, HEAP_HI) && HeapSpace(s, end, holes)
    ensures HeapSpace(s', end, holes)
  {
  }

  /** `heap_memset(ptr, 0, n)`; a byte whose page is missing stays missing. */
  method ZeroBytes(vm: AddressSpace, ptr: nat, n: nat)
    requires vm.Owned() && HEAP_START <= ptr && ptr + n <= HEAP_MAX_END
    modifies vm`mem
    ensures vm.Owned() && OnlyDataIn(old(vm.Snap()), vm.Snap(), HEAP_LO, HEAP_HI)
    ensures ZeroedTo(old(vm.Snap()), vm.Snap(), ptr, n)
  {
    hide Whole, PageOf, VaByte;
    ghost var s := vm.Snap();
    ZeroedNone(s, ptr);
    CopiedNone(s, ptr, [], HEAP_LO, HEAP_HI);
    var k := 0;
    while k < n
      invariant k <= n && vm.Owned() && OnlyDataIn(s, vm.Snap(), HEAP_LO, HEAP_HI) && ZeroedTo(s, vm.Snap(), ptr, k)
    {
      ghost var s1 := vm.Snap();
      var mapped := vm.IsSmall(ptr + k);
      MappedByte(s1, ptr + k);
      if mapped {
        StoreByte(vm, ptr + k, 0, HEAP_LO, HEAP_HI);
        OnlyDataTrans(s, s1, vm.Snap(), HEAP_LO, HEAP_HI);
      }
      ZeroedMore(s, s1, vm.Snap(), ptr, k);
      k := k + 1;
    }
  }

  /** `kzalloc`; `g` is the state after the allocation. */
  method Kzalloc(heap: KernelHeap, n: nat)
    returns (ptr: nat, ghost granted: bool, ghost lost: set<nat>, ghost g: Snapshot)
    requires heap.Valid() && heap.Backing() && (heap.ready ==> Requestable(heap.State(), n))
    modifies heap`hdr, heap`blocks, heap`first, heap`mappedEnd, heap`holes
    modifies heap.vm`mem, heap.vm`tables, heap.vm`view, heap.vm`leaves
    modifies heap.vm.pmm`free, heap.vm.pmm`freeFrames, heap.vm.pmm.bitmap
    ensures heap.Valid() && heap.Backing() && HeapGrowth(old(heap.vm.Snap()), g, lost)
    ensures lost == {} ==> heap.holes == old(heap.holes)
    ensures IsKmalloc(old(heap.State()), if heap.ready then n else 0, granted, heap.State(), ptr)
    ensures heap.ready && n > 0 ==> GrowthFor(old(heap.State()), Rounded(n), old(heap.vm.Snap()), g, granted, lost)
    ensures !heap.ready || n == 0 ==> granted && lost == {} && g == old(heap.vm.Snap())
    ensures OnlyDataIn(g, heap.vm.Snap(), HEAP_LO, HEAP_HI) &&
            ZeroedTo(g, heap.vm.Snap(), ptr, if ptr == 0 then 0 else n)
    ensures ptr != 0 && heap.holes == {} ==> ZeroPayload(heap.vm.Snap(), ptr, n)
  {
    hide Whole, HeapGrowth, HeapSpace, Refused, IsKmalloc, GrowthFor;
    ghost var h := heap.State();
    if heap.ready { heap.BlocksOk(); }
    ptr, granted, lost := heap.Kmalloc(n);
    g := heap.vm.Snap();
    ZeroedNone(g, ptr);
    CopiedNone(g, ptr, [], HEAP_LO, HEAP_HI);
    if ptr == 0 { return; }
    Nonzero(h, if heap.ready then n else 0, granted, heap.State(), ptr);
    PayloadInside(h, n, granted, heap.State(), ptr);
    heap.vm.SnapPartitioned();
    ZeroBytes(heap.vm, ptr, n);
    DataKeepsSpace(g, heap.vm.Snap(), heap.mappedEnd, heap.holes);
    if heap.holes == {} { AllZero(g, heap.vm.Snap(), ptr, n, heap.mappedEnd); }
  }

  /** A pointer is given only for a request on a heap that is ready. */
  lemma Nonzero(h: HeapBlocks.Heap, n: nat, granted: bool, h': HeapBlocks.Heap, ptr: nat)
    requires IsKmalloc(h, n, granted, h', ptr) && ptr != 0
    ensures n > 0
  {
  }

  /** Every byte of the payload reads as zero. */
  ghost predicate ZeroPayload(s: Snapshot, ptr: nat, n: nat) {
    forall a: nat {:trigger VaByte(s, a)} :: ptr <= a < ptr + n ==> VaByte(s, a) == Some(0)
  }

  lemma AllZero(g: Snapshot, s: Snapshot, ptr: nat, n: nat, end: nat)
    requires Partitioned(g) && HeapSpace(g, end, {}) && ZeroedTo(g, s, ptr, n)
    requires HEAP_START <= ptr && ptr + n <= end <= HEAP_MAX_END && end % 4096 == 0
    ensures ZeroPayload(s, ptr, n)
  {
    forall a: nat | ptr <= a < ptr + n ensures VaByte(s, a) == Some(0) {
      HeapByteMapped(g, end, a);
    }
  }
}
