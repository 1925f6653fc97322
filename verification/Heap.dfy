/** kernel/heap.c: `kmalloc` and `kfree` on block headers linked by address, over pages of an address
    space. */
module Heap {
  import opened Utils
  import opened Options
  import opened PageTables
  import opened TableEffects
  import opened PageRanges
  import opened FrameCounts
  import opened Vmm
  import opened HeapBlocks
  import opened HeapWords
  import opened HeapLinks
  import opened HeapPages

  class KernelHeap {
    var hdr: Headers
    var first: nat
    var mappedEnd: nat
    var ready: bool
    const vm: AddressSpace
    ghost var blocks: seq<Block>
    ghost var holes: set<Page>

    /** The headers form the list of `blocks`, which tile the mapped heap. */
    ghost predicate Valid()
      reads this`hdr, this`first, this`mappedEnd, this`ready, this`blocks
    {
      (ready ==> blocks != []) && Whole(Consistent())
    }

    ghost predicate Consistent()
      reads this`hdr, this`first, this`mappedEnd, this`blocks
    {
      && HEAP_START <= mappedEnd
      && (blocks == [] ==> first == 0 && mappedEnd == HEAP_START && hdr == map[])
      && (blocks != [] ==> first == blocks[0].addr && HeapOk(State()) && List(hdr, blocks, HEAP_START, mappedEnd))
    }

    ghost function State(): HeapBlocks.Heap
      reads this`mappedEnd, this`blocks
    {
      HeapBlocks.Heap(blocks, mappedEnd)
    }

    /** The address space is sound; the pages of the heap are mapped, but for `holes`, and none beyond. */
    ghost predicate Backing()
      reads this`mappedEnd, this`holes, vm, vm.pmm, vm.pmm.bitmap
    {
      vm.Owned() && HeapSpace(vm.Snap(), mappedEnd, holes)
    }

    lemma EndInHeap()
      requires Valid()
      ensures HEAP_START <= mappedEnd <= HEAP_MAX_END
    {
    }

    lemma BlocksOk()
      requires Valid() && blocks != []
      ensures HeapOk(State())
    {
    }

    constructor (vm: AddressSpace)
      ensures Valid() && !ready && blocks == [] && holes == {} && mappedEnd == HEAP_START && this.vm == vm
    {
      this.vm, hdr, first, mappedEnd, ready, blocks, holes := vm, map[], 0, HEAP_START, false, [], {};
    }

    /** The header list is walked by `next`; `i` is the index of `current`. */
    method FindFreeBlock(size: nat) returns (block: nat)
      requires Valid()
      ensures block == if FirstFit(blocks, size) < |blocks| then blocks[FirstFit(blocks, size)].addr else 0
    {
      if blocks != [] { NoneNull(blocks, HEAP_START, mappedEnd); }
      var current := first;
      ghost var i := 0;
      while current != 0
        invariant 0 <= i <= |blocks|
        invariant current == if i < |blocks| then blocks[i].addr else 0
        invariant FindFrom(blocks, size, 0) == FindFrom(blocks, size, i)
        decreases |blocks| - i
      {
        assert LinkedAt(hdr, blocks, i);
        var h := hdr[current];
        if h.magic == MAGIC && h.free && h.size >= size {
          return current;
        }
        current := h.next;
        i := i + 1;
      }
      return 0;
    }

    /** `heap_last_block` on a list that is not empty. */
    method LastOf() returns (block: nat)
      requires blocks != [] && first == blocks[0].addr && List(hdr, blocks, HEAP_START, mappedEnd)
      ensures block == blocks[|blocks| - 1].addr
    {
      NoneNull(blocks, HEAP_START, mappedEnd);
      var current := first;
      ghost var i := 0;
      assert LinkedAt(hdr, blocks, 0);
      while hdr[current].next != 0
        invariant 0 <= i < |blocks|
        invariant current == blocks[i].addr && LinkedAt(hdr, blocks, i)
        decreases |blocks| - i
      {
        assert i + 1 < |blocks|;
        assert LinkedAt(hdr, blocks, i + 1);
        current := hdr[current].next;
        i := i + 1;
      }
      return current;
    }

    method SplitBlock(block: nat, size: nat, ghost i: nat)
      requires List(hdr, blocks, HEAP_START, mappedEnd) && i < |blocks| && block == blocks[i].addr
      modifies this`hdr, this`blocks
      ensures blocks == SplitAt(old(blocks), i, size) && List(hdr, blocks, HEAP_START, mappedEnd)
      ensures var b := old(blocks)[i];
              if b.size < size + 80 then blocks == old(blocks)
              else blocks == old(blocks)[..i] + [b.(size := size), Block(b.addr + 48 + size, b.size - size - 48, true)]
                             + old(blocks)[i + 1..]
    {
      hide List, SplitAt;
      NextFacts(hdr, blocks, HEAP_START, mappedEnd, i);
      SplitIs(blocks, i, size);
      if hdr[block].size < size { return; }
      var remaining := hdr[block].size - size;
      if remaining < HEADER + MIN_SPLIT { return; }
      SplitList(hdr, blocks, HEAP_START, mappedEnd, i, size);
      var b, newBlock := hdr[block], block + 48 + size;
      hdr := hdr[newBlock := Header(MAGIC, remaining - 48, true, block, b.next)];
      if b.next != 0 && b.next in hdr {
        hdr := hdr[b.next := hdr[b.next].(prev := newBlock)];
      }
      hdr := hdr[block := b.(next := newBlock, size := size)];
      assert hdr == SplitHeaders(old(hdr), block, size);
      blocks := SplitAt(blocks, i, size);
    }

    method CoalesceWithNext(block: nat, ghost i: nat)
      requires List(hdr, blocks, HEAP_START, mappedEnd) && i < |blocks| && block == blocks[i].addr
      modifies this`hdr, this`blocks
      ensures blocks == MergeNext(old(blocks), i) && List(hdr, blocks, HEAP_START, mappedEnd)
    {
      hide List;
      NextFacts(hdr, blocks, HEAP_START, mappedEnd, i);
      var next := hdr[block].next;
      if next == 0 { return; }
      if hdr[next].magic != MAGIC { return; }
      if !hdr[next].free { return; }
      MergeList(hdr, blocks, HEAP_START, mappedEnd, i);
      var b, n := hdr[block], hdr[next];
      hdr := hdr[block := b.(size := b.size + 48 + n.size, next := n.next)];
      if n.next != 0 && n.next in hdr {
        hdr := hdr[n.next := hdr[n.next].(prev := block)];
      }
      hdr := hdr - {next};
      assert hdr == MergeHeaders(old(hdr), block);
      blocks := MergeNext(blocks, i);
    }

    method CoalesceBlock(block: nat, ghost i: nat)
      requires List(hdr, blocks, HEAP_START, mappedEnd) && i < |blocks| && block == blocks[i].addr
      modifies this`hdr, this`blocks
      ensures blocks == Coalesce(old(blocks), i) && List(hdr, blocks, HEAP_START, mappedEnd)
    {
      CoalesceWithNext(block, i);
      assert LinkedAt(hdr, blocks, i);
      var prev := hdr[block].prev;
      if i > 0 {
        assert LinkedAt(hdr, blocks, i - 1);
        AddrLess(blocks, HEAP_START, mappedEnd, i - 1, i);
      }
      if prev != 0 && prev in hdr && hdr[prev].free {
        CoalesceWithNext(prev, i - 1);
      }
    }

    /** Appends a block after the last one and merges it with that if it is free. */
    method AppendToList(size: nat)
      requires blocks != [] && first == blocks[0].addr && List(hdr, blocks, HEAP_START, mappedEnd) && size >= 48
      modifies this`hdr, this`blocks, this`mappedEnd
      ensures mappedEnd == old(mappedEnd) + size
      ensures blocks == Grow(old(blocks), old(mappedEnd), size - 48)
      ensures List(hdr, blocks, HEAP_START, mappedEnd) && first == blocks[0].addr
    {
      AppendList(hdr, blocks, HEAP_START, mappedEnd, size - 48);
      hide Tiles, OnlyBlocks;
      var last := LastOf();
      ghost var n := |blocks| - 1;
      var start := mappedEnd;
      mappedEnd := mappedEnd + size;
      hdr := hdr[start := Header(MAGIC, size - 48, true, 0, 0)];
      hdr := hdr[last := hdr[last].(next := start)];
      hdr := hdr[start := hdr[start].(prev := last)];
      blocks := blocks + [Block(start, size - 48, true)];
      assert LinkedAt(hdr, blocks, n);
      if hdr[last].free {
        CoalesceWithNext(last, n);
      }
    }

    /** Appends the block of a region of `size` bytes just mapped at the end of the heap. */
    method AppendRegion(size: nat)
      requires Valid() && size >= 48 && HeapOk(GrownBy(State(), size))
      modifies this`hdr, this`blocks, this`first, this`mappedEnd
      ensures Valid() && State() == GrownBy(old(State()), size) && blocks != []
    {
      var start := mappedEnd;
      if blocks != [] { NoneNull(blocks, HEAP_START, mappedEnd); }
      if first == 0 {
        mappedEnd := mappedEnd + size;
        hdr := hdr[start := Header(MAGIC, size - 48, true, 0, 0)];
        first := start;
        blocks := [Block(start, size - 48, true)];
        FirstList(hdr, start, size);
        return;
      }
      AppendToList(size);
    }

    lemma GrownOk(size: nat)
      requires Valid() && mappedEnd + ExpandSize(size) <= HEAP_MAX_END
      ensures HeapOk(Expanded(State(), size))
    {
      if blocks != [] {
        ExpandedOk(State(), size);
      } else {
        PageMultiples(ExpandSize(size), mappedEnd);
        GrowWellFormed([], HEAP_START, HEAP_START, ExpandSize(size) - 48);
      }
    }

    /** Grows the heap by a region that stays below the limit, if frames can be had. */
    method AddRegion(size: nat) returns (ok: bool, ghost lost: set<nat>)
      requires Valid() && Backing() && size >= 48 && mappedEnd + size <= HEAP_MAX_END && HeapOk(GrownBy(State(), size))
      modifies this`hdr, this`blocks, this`first, this`mappedEnd, this`holes
      modifies vm`mem, vm`tables, vm`view, vm`leaves, vm.pmm`free, vm.pmm`freeFrames, vm.pmm.bitmap
      ensures Valid() && Backing()
      ensures ok ==> blocks != [] && State() == GrownBy(old(State()), size)
      ensures !ok ==> State() == old(State())
      ensures HeapGrowth(old(vm.Snap()), vm.Snap(), lost) && (lost == {} ==> holes == old(holes))
      ensures Outcome(old(vm.Snap()), old(mappedEnd) / 4096, (old(mappedEnd) + size) / 4096, ok, lost)
    {
      hide Whole, Outcome, HeapSpace, HeapGrowth, HeapOk;
      EndInHeap();
      ghost var more;
      ok, lost, more := BackRegion(vm, mappedEnd, size, holes);
      holes := more;
      if ok { AppendRegion(size); }
    }

    /** `heap_expand`; `granted` tells whether frames could be had. */
    method Expand(minPayload: nat) returns (ok: bool, ghost granted: bool, ghost lost: set<nat>)
      requires Valid() && Backing() && minPayload < U64_LIMIT && GrowthInWords(mappedEnd, minPayload)
      modifies this`hdr, this`blocks, this`first, this`mappedEnd, this`holes
      modifies vm`mem, vm`tables, vm`view, vm`leaves, vm.pmm`free, vm.pmm`freeFrames, vm.pmm.bitmap
      ensures Valid() && Backing()
      ensures ok == granted && (ok ==> old(mappedEnd) + ExpandSize(minPayload) <= HEAP_MAX_END)
      ensures ok ==> blocks != [] && State() == Expanded(old(State()), minPayload)
      ensures !ok ==> State() == old(State())
      ensures HeapGrowth(old(vm.Snap()), vm.Snap(), lost) && (lost == {} ==> holes == old(holes))
      ensures Grew(old(vm.Snap()), old(mappedEnd), minPayload, granted, lost)
      ensures granted && lost == {} <==> !Refused(old(vm.Snap()), old(mappedEnd), minPayload)
    {
      hide Whole, HeapGrowth, GrownBy, Backing, Outcome, Refused, AlignUp, ExpandSize, GrowthInWords;
      EndInHeap();
      GrowthWords(mappedEnd, minPayload);
      var size := AlignUp(Add64(48, minPayload), 4096);
      if size < HEAP_INITIAL { size := HEAP_INITIAL; }
      GrowthRefl(vm.Snap());
      GrewUnlessRefused(vm.Snap(), mappedEnd, minPayload, false, {});
      if Add64(mappedEnd, size) > HEAP_MAX_END { return false, false, {}; }
      GrownOk(minPayload);
      ok, lost := AddRegion(size);
      granted := ok;
      GrewUnlessRefused(old(vm.Snap()), old(mappedEnd), minPayload, ok, lost);
    }

    /** Takes `size` bytes from the free block at index `i`. */
    method TakeBlock(block: nat, size: nat, ghost i: nat)
      requires Valid() && i < |blocks| && block == blocks[i].addr && size % 16 == 0
      requires blocks[i].free && blocks[i].size >= size
      modifies this`hdr, this`blocks
      ensures Valid() && blocks == Carve(old(blocks), i, size)
    {
      CarveOk(State(), i, size);
      SplitBlock(block, size, i);
      SetFreeList(hdr, blocks, HEAP_START, mappedEnd, i, false);
      hdr := hdr[block := hdr[block].(free := false)];
      blocks := SetFree(blocks, i, false);
    }

    /** Takes the block found by the search, if any. */
    method TakeFound(block: nat, size: nat) returns (ptr: nat)
      requires Valid() && size % 16 == 0
      requires block == if FirstFit(blocks, size) < |blocks| then blocks[FirstFit(blocks, size)].addr else 0
      modifies this`hdr, this`blocks
      ensures Valid() && (State(), ptr) == TakeFirst(old(State()), size)
    {
      if blocks != [] { NoneNull(blocks, HEAP_START, mappedEnd); }
      if block == 0 { return 0; }
      TakeBlock(block, size, FirstFit(blocks, size));
      return block + 48;
    }

    /** Grows the heap and searches again. */
    method ExpandAndFind(size: nat) returns (block: nat, ghost granted: bool, ghost lost: set<nat>)
      requires Valid() && Backing() && FirstFit(blocks, size) == |blocks|
      requires size < U64_LIMIT && GrowthInWords(mappedEnd, size)
      modifies this`hdr, this`blocks, this`first, this`mappedEnd, this`holes
      modifies vm`mem, vm`tables, vm`view, vm`leaves, vm.pmm`free, vm.pmm`freeFrames, vm.pmm.bitmap
      ensures Valid() && Backing() && HeapGrowth(old(vm.Snap()), vm.Snap(), lost) &&
              (lost == {} ==> holes == old(holes))
      ensures State() == Searched(old(State()), size, granted)
      ensures Grew(old(vm.Snap()), old(mappedEnd), size, granted, lost)
      ensures block == if FirstFit(blocks, size) < |blocks| then blocks[FirstFit(blocks, size)].addr else 0
    {
      hide Whole, Refused, Grew;
      var ok;
      ok, granted, lost := Expand(size);
      block := 0;
      if ok { block := FindFreeBlock(size); }
    }

    /** The search with growth: the address of the first free block of `size` bytes, or 0. */
    method ObtainBlock(size: nat) returns (block: nat, ghost granted: bool, ghost lost: set<nat>)
      requires Valid() && Backing() && size < U64_LIMIT
      requires FirstFit(blocks, size) < |blocks| || GrowthInWords(mappedEnd, size)
      modifies this`hdr, this`blocks, this`first, this`mappedEnd, this`holes
      modifies vm`mem, vm`tables, vm`view, vm`leaves, vm.pmm`free, vm.pmm`freeFrames, vm.pmm.bitmap
      ensures Valid() && Backing() && HeapGrowth(old(vm.Snap()), vm.Snap(), lost) &&
              (lost == {} ==> holes == old(holes))
      ensures State() == Searched(old(State()), size, granted)
      ensures GrowthFor(old(State()), size, old(vm.Snap()), vm.Snap(), granted, lost)
      ensures block == if FirstFit(blocks, size) < |blocks| then blocks[FirstFit(blocks, size)].addr else 0
    {
      hide Whole, Grew;
      GrowthRefl(vm.Snap());
      NonNullBlocks();
      block := FindFreeBlock(size);
      granted, lost := true, {};
      if block == 0 { block, granted, lost := ExpandAndFind(size); }
    }

    lemma NonNullBlocks()
      requires Valid()
      ensures forall i :: 0 <= i < |blocks| ==> blocks[i].addr > 0
    {
      if blocks != [] { NoneNull(blocks, HEAP_START, mappedEnd); }
    }

    /** `kmalloc` of a nonzero size on an initialized heap. */
    method Allocate(n: nat) returns (ptr: nat, ghost granted: bool, ghost lost: set<nat>)
      requires Valid() && Backing() && blocks != [] && 0 < n && Requestable(State(), n)
      modifies this`hdr, this`blocks, this`first, this`mappedEnd, this`holes
      modifies vm`mem, vm`tables, vm`view, vm`leaves, vm.pmm`free, vm.pmm`freeFrames, vm.pmm.bitmap
      ensures Valid() && Backing() && HeapGrowth(old(vm.Snap()), vm.Snap(), lost) &&
              (lost == {} ==> holes == old(holes))
      ensures IsKmalloc(old(State()), n, granted, State(), ptr)
      ensures GrowthFor(old(State()), Rounded(n), old(vm.Snap()), vm.Snap(), granted, lost)
    {
      hide Whole, GrowthFor, Searched, TakeFirst, AlignUp, Requestable, FirstFit, Rounded, GrowthInWords, HeapGrowth;
      hide HeapSpace, HeapOk;
      BlocksOk();
      var block;
      var size := AlignUp(n, 16);
      EndInHeap();
      RequestInWords(State(), n);
      block, granted, lost := ObtainBlock(size);
      ghost var g := State();
      ptr := TakeFound(block, size);
      MeantRequest(old(State()), n, old(vm.Snap()), vm.Snap(), granted, lost, g, State(), ptr);
    }

    method Kmalloc(n: nat) returns (ptr: nat, ghost granted: bool, ghost lost: set<nat>)
      requires Valid() && Backing() && (ready ==> Requestable(State(), n))
      modifies this`hdr, this`blocks, this`first, this`mappedEnd, this`holes
      modifies vm`mem, vm`tables, vm`view, vm`leaves, vm.pmm`free, vm.pmm`freeFrames, vm.pmm.bitmap
      ensures Valid() && Backing() && HeapGrowth(old(vm.Snap()), vm.Snap(), lost) &&
              (lost == {} ==> holes == old(holes))
      ensures IsKmalloc(old(State()), if ready then n else 0, granted, State(), ptr)
      ensures ready && n > 0 ==> GrowthFor(old(State()), Rounded(n), old(vm.Snap()), vm.Snap(), granted, lost)
      ensures !ready || n == 0 ==> granted && lost == {} && vm.Snap() == old(vm.Snap())
      ensures !granted || lost != {} ==> Refused(old(vm.Snap()), old(mappedEnd), Rounded(n))
    {
      hide Whole, GrowthFor, Refused;
      GrowthRefl(vm.Snap());
      KmallocOfNothing(State(), true);
      if !ready { return 0, true, {}; }
      if n == 0 { return 0, true, {}; }
      ptr, granted, lost := Allocate(n);
      UngrantedRefused(old(State()), Rounded(n), old(vm.Snap()), vm.Snap(), granted, lost);
    }

    /** `heap_init`: the first region. */
    method Init() returns (ghost lost: set<nat>)
      requires Valid() && Backing() && !ready && blocks == []
      modifies this`hdr, this`blocks, this`first, this`mappedEnd, this`holes, this`ready
      modifies vm`mem, vm`tables, vm`view, vm`leaves, vm.pmm`free, vm.pmm`freeFrames, vm.pmm.bitmap
      ensures Valid() && Backing() && HeapGrowth(old(vm.Snap()), vm.Snap(), lost) &&
              (lost == {} ==> holes == old(holes))
      ensures ready ==> State() == Expanded(old(State()), HEAP_INITIAL - 48)
      ensures !ready ==> State() == old(State())
      ensures Grew(old(vm.Snap()), old(mappedEnd), HEAP_INITIAL - 48, ready, lost)
      ensures ready && lost == {} <==> !Refused(old(vm.Snap()), old(mappedEnd), HEAP_INITIAL - 48)
    {
      hide Whole, Backing, Refused, Grew, HeapGrowth, Expanded, ExpandSize, GrowthInWords;
      EndInHeap();
      FirstGrowth(mappedEnd);
      var ok;
      ghost var granted;
      ok, granted, lost := Expand(HEAP_INITIAL - 48);
      ready := ok;
    }

    /** `kfree`; `foreign` is what the bytes before `ptr` read as when they are not the header of a block. */
    method Kfree(ptr: nat, foreign: Header)
      requires Valid()
      requires ptr == 0 || (ptr >= 48 && HasAddr(blocks, ptr - 48)) || !ReadsUsed(foreign)
      modifies this`hdr, this`blocks
      ensures Valid() && State() == HeapBlocks.Kfree(old(State()), ptr)
      ensures ptr >= 48 && ptr - 48 in old(hdr) ==> Extends(KfreeWrites(old(hdr), ptr - 48), hdr)
    {
      ExtendsRefl(hdr);
      BlockHeaders(ptr);
      if ptr == 0 { NoSuchPointer(ptr); return; }
      var block := ptr - 48;
      var h := if ptr >= 48 && block in hdr then hdr[block] else foreign;
      if h.magic != MAGIC { NoSuchPointer(ptr); return; }
      if h.free { NoSuchPointer(ptr); return; }
      ghost var i := FindPointer(ptr);
      FreeBlock(block, i);
    }

    /** The headers are those of the blocks. */
    lemma BlockHeaders(ptr: nat)
      requires Valid()
      ensures ptr >= 48 && HasAddr(blocks, ptr - 48) <==> ptr >= 48 && ptr - 48 in hdr
    {
      if ptr >= 48 && HasAddr(blocks, ptr - 48) {
        var i :| 0 <= i < |blocks| && blocks[i].addr == ptr - 48;
        assert LinkedAt(hdr, blocks, i);
      }
    }

    /** Marks the block at index `i` free and merges it with its neighbours. */
    method FreeBlock(block: nat, ghost i: nat)
      requires Valid() && i < |blocks| && blocks[i].addr == block && !blocks[i].free
      modifies this`hdr, this`blocks
      ensures Valid() && blocks == Release(old(blocks), i)
      ensures block in old(hdr) && Extends(KfreeWrites(old(hdr), block), hdr)
    {
      hide Tiles, Linked, OnlyBlocks, HeapOk, Coalesce, KfreeWrites;
      ReleaseList(i);
      hdr := hdr[block := hdr[block].(free := true)];
      blocks := SetFree(blocks, i, true);
      CoalesceBlock(block, i);
      KfreeReleases(old(hdr), old(blocks), HEAP_START, mappedEnd, i, hdr);
    }

    /** A pointer whose header is missing or free belongs to no allocation. */
    lemma NoSuchPointer(ptr: nat)
      requires Valid()
      requires ptr < 48 || ptr - 48 !in hdr || hdr[ptr - 48].magic != MAGIC || hdr[ptr - 48].free
      ensures HeapBlocks.Kfree(State(), ptr) == State()
    {
      var i := IndexFrom(blocks, ptr, 0);
      assert i < |blocks| ==> LinkedAt(hdr, blocks, i);
    }

    /** A pointer whose header is in use belongs to one allocation. */
    lemma FindPointer(ptr: nat) returns (i: nat)
      requires Valid() && ptr >= 48 && ptr - 48 in hdr && !hdr[ptr - 48].free
      ensures i < |blocks| && blocks[i].addr == ptr - 48 && !blocks[i].free && i == IndexFrom(blocks, ptr, 0)
    {
      assert HasAddr(blocks, ptr - 48);
      i :| 0 <= i < |blocks| && blocks[i].addr == ptr - 48;
      assert LinkedAt(hdr, blocks, i);
      IndexOf(blocks, HEAP_START, mappedEnd, i);
    }

    lemma ReleaseList(i: nat)
      requires Valid() && i < |blocks| && !blocks[i].free
      ensures HeapOk(State().(blocks := Release(blocks, i)))
      ensures blocks[i].addr in hdr
      ensures List(hdr[blocks[i].addr := hdr[blocks[i].addr].(free := true)], SetFree(blocks, i, true), HEAP_START,
              mappedEnd)
      ensures |Release(blocks, i)| > 0 && Release(blocks, i)[0].addr == blocks[0].addr
    {
      ReleaseWellFormed(blocks, HEAP_START, mappedEnd, i);
      SetFreeList(hdr, blocks, HEAP_START, mappedEnd, i, true);
    }
  }

  /** Nothing is mapped from `end` to the limit of the heap. */
  ghost predicate UnmappedFrom(s: Snapshot, end: nat) {
    RangeUnmapped(s, end / 4096, HEAP_MAX_END / 4096)
  }

  /** The pages of the heap below `end` are mapped, but for `holes`. */
  ghost predicate MappedBelow(s: Snapshot, end: nat, holes: set<Page>) {
    Whole(MappedBelowParts(s, end, holes))
  }

  ghost predicate MappedBelowParts(s: Snapshot, end: nat, holes: set<Page>) {
    forall p :: InRange(p, HEAP_START / 4096, end / 4096) && p in s.view && p !in holes ==> s.view[p].Small?
  }

  ghost predicate HeapSpace(s: Snapshot, end: nat, holes: set<Page>) {
    UnmappedFrom(s, end) && MappedBelow(s, end, holes)
  }

  lemma MappedMore(s: Snapshot, s': Snapshot, end: nat, size: nat, lost: set<nat>, holes: set<Page>, hole: Page)
    requires Partitioned(s) && MappedBelow(s, end, holes) && HEAP_START <= end
    requires Backed(s, s', end / 4096, (end + size) / 4096, lost)
    requires lost != {} ==> WfPage(hole) && NumOf(hole) + 1 == (end + size) / 4096
    ensures MappedBelow(s', end + size, if lost == {} then holes else holes + {hole})
  {
    var holes' := if lost == {} then holes else holes + {hole};
    forall p | InRange(p, HEAP_START / 4096, (end + size) / 4096) && p in s'.view && p !in holes'
      ensures s'.view[p].Small?
    {
      assert p in s.view;
      if InRange(p, end / 4096, (end + size) / 4096) && lost != {} && NumOf(p) + 1 == (end + size) / 4096 {
        SameNumber(p, hole);
      }
    }
  }

  lemma MappedStill(s: Snapshot, s': Snapshot, end: nat, holes: set<Page>)
    requires Partitioned(s) && MappedBelow(s, end, holes)
    requires forall p :: p in s.view && p in s'.view ==> s'.view[p] == s.view[p]
    ensures MappedBelow(s', end, holes)
  {
  }

  /** The last page of a region. */
  lemma LastPage(end: nat, size: nat)
    requires end + size <= HEAP_MAX_END && (end + size) / 4096 > 0
    ensures WfPage(PageOf(4096 * ((end + size) / 4096 - 1))) &&
            NumOf(PageOf(4096 * ((end + size) / 4096 - 1))) + 1 == (end + size) / 4096
  {
    NumOfNumber((end + size) / 4096 - 1);
  }

  /** Backs a region at the end of the heap. */
  method BackRegion(vm: AddressSpace, end: nat, size: nat, ghost holes: set<Page>)
    returns (ok: bool, ghost lost: set<nat>, ghost holes': set<Page>)
    requires vm.Owned() && HeapSpace(vm.Snap(), end, holes) && HEAP_START <= end && end + size <= HEAP_MAX_END
    modifies vm`mem, vm`tables, vm`view, vm`leaves, vm.pmm`free, vm.pmm`freeFrames, vm.pmm.bitmap
    ensures vm.Owned() && HeapSpace(vm.Snap(), if ok then end + size else end, holes')
    ensures HeapGrowth(old(vm.Snap()), vm.Snap(), lost) && (lost == {} ==> holes' == holes)
    ensures Outcome(old(vm.Snap()), end / 4096, (end + size) / 4096, ok, lost)
  {
    hide Whole, Backed, Outcome, PageOf;
    RegionPages(end, size);
    LastPage(end, size);
    vm.SnapPartitioned();
    ghost var s, hole := vm.Snap(), PageOf(4096 * ((end + size) / 4096 - 1));
    ok, lost := BackPages(vm, end / 4096, (end + size) / 4096, HEAP_MAX_END / 4096);
    if ok {
      holes' := if lost == {} then holes else holes + {hole};
      MappedMore(s, vm.Snap(), end, size, lost, holes, hole);
      BackedLeaves(s, vm.Snap(), end, size, lost);
    } else {
      holes' := holes;
      MappedStill(s, vm.Snap(), end, holes);
      GrowthWithoutPages(s, vm.Snap(), lost);
    }
  }

  lemma FirstList(hdr: Headers, start: nat, size: nat)
    requires size >= 48 && start > 0 && hdr == map[start := Header(MAGIC, size - 48, true, 0, 0)]
    ensures List(hdr, [Block(start, size - 48, true)], start, start + size)
  {
  }

  /** What growing the heap may do to the address space: old pages stay, new pages are heap pages. */
  ghost predicate HeapGrowth(s: Snapshot, s': Snapshot, lost: set<nat>) {
    Whole(HeapGrowthParts(s, s', lost))
  }

  ghost predicate HeapGrowthParts(s: Snapshot, s': Snapshot, lost: set<nat>) {
    && Undisturbed(s, s', lost) && |lost| <= 1
    && (forall d :: d in s'.leaves ==> d in s.leaves || InRange(s'.leaves[d], HEAP_START / 4096, HEAP_MAX_END / 4096))
    && (forall p :: p in s.view && p in s'.view && !InRange(p, HEAP_START / 4096, HEAP_MAX_END / 4096) ==>
                    s'.view[p] == s.view[p])
    && (forall p :: p in s.view && p in s'.view ==> s'.view[p] == s.view[p] || KernelPage(s'.view[p]))
  }

  /** When an expansion is refused or loses a frame: the limit of the heap, or too few free frames. */
  ghost predicate Refused(s: Snapshot, end: nat, size: nat) {
    Whole(RefusedParts(s, end, size))
  }

  ghost predicate RefusedParts(s: Snapshot, end: nat, size: nat) {
    || end + ExpandSize(size) > HEAP_MAX_END
    || ShortOfFrames(s, end / 4096, (end + ExpandSize(size)) / 4096)
  }

  /** How an expansion ends, told from the state before. */
  ghost predicate Grew(s: Snapshot, end: nat, size: nat, ok: bool, lost: set<nat>) {
    if end + ExpandSize(size) > HEAP_MAX_END then !ok && lost == {}
    else Outcome(s, end / 4096, (end + ExpandSize(size)) / 4096, ok, lost)
  }

  lemma GrewUnlessRefused(s: Snapshot, end: nat, size: nat, ok: bool, lost: set<nat>)
    ensures Grew(s, end, size, ok, lost) ==> (ok && lost == {} <==> !Refused(s, end, size))
  {
    hide FramesFor;
  }

  /** The heap grows for a request if and only if no free block holds it. */
  ghost predicate GrowthFor(h: HeapBlocks.Heap, size: nat, s: Snapshot, s': Snapshot, granted: bool, lost: set<nat>) {
    if FirstFit(h.blocks, size) < |h.blocks| then granted && lost == {} && s' == s
    else Grew(s, h.end, size, granted, lost)
  }

  /** The rounded size is a word, and the search with growth may be asked for it. */
  lemma RequestInWords(h: HeapBlocks.Heap, n: nat)
    requires Requestable(h, n) && 0 < n && h.end <= HEAP_MAX_END
    ensures var size := AlignUp(n, 16);
            && size < U64_LIMIT && size % 16 == 0 && (size == Rounded(n) || n + 15 >= U64_LIMIT)
            && (FirstFit(h.blocks, size) < |h.blocks| || GrowthInWords(h.end, size))
  {
    RoundedIsMask(n);
    assert ExpandSize(0) == HEAP_INITIAL;
    hide FirstFit, AlignUp, Rounded, ExpandSize;
  }

  /** What the search with growth and the taking of a block come to for a request of `n` bytes. */
  lemma MeantRequest(h: HeapBlocks.Heap, n: nat, s: Snapshot, s': Snapshot, granted: bool, lost: set<nat>,
                     g: HeapBlocks.Heap, h': HeapBlocks.Heap, ptr: nat)
    requires HeapOk(h) && 0 < n && Requestable(h, n)
    requires g == Searched(h, AlignUp(n, 16), granted) && (h', ptr) == TakeFirst(g, AlignUp(n, 16))
    requires GrowthFor(h, AlignUp(n, 16), s, s', granted, lost)
    ensures IsKmalloc(h, n, granted, h', ptr) && GrowthFor(h, Rounded(n), s, s', granted, lost)
  {
    RoundedIsMask(n);
    if n + 15 < U64_LIMIT {
      hide AlignUp, Rounded, FirstFit, Searched, TakeFirst, GrowthFor, Requestable;
      KmallocInParts(h, n, granted, g, h', ptr);
    } else {
      WrappedRequest(h, n, granted);
      LargeFitsNowhere(h, Rounded(n));
      assert ExpandSize(0) == HEAP_INITIAL;
      hide AlignUp, Rounded, FirstFit;
    }
  }

  lemma UngrantedRefused(h: HeapBlocks.Heap, size: nat, s: Snapshot, s': Snapshot, granted: bool, lost: set<nat>)
    requires GrowthFor(h, size, s, s', granted, lost)
    ensures !granted || lost != {} ==> Refused(s, h.end, size)
  {
    hide Grew, Refused;
    GrewUnlessRefused(s, h.end, size, granted, lost);
  }

  lemma FirstGrowth(end: nat)
    requires end <= HEAP_MAX_END
    ensures GrowthInWords(end, HEAP_INITIAL - 48)
  {
  }

  lemma FirstRegion(h: HeapBlocks.Heap)
    requires h == HeapBlocks.Heap([], HEAP_START)
    ensures Expanded(h, HEAP_INITIAL - 48) ==
            HeapBlocks.Heap([Block(HEAP_START, HEAP_INITIAL - 48, true)], HEAP_START + HEAP_INITIAL)
    ensures HEAP_START + ExpandSize(HEAP_INITIAL - 48) <= HEAP_MAX_END
  {
  }

  lemma GrowthWithoutPages(s: Snapshot, s': Snapshot, lost: set<nat>)
    requires Undisturbed(s, s', lost) && s'.leaves == s.leaves && |lost| <= 1
    requires forall p :: p in s.view && p in s'.view ==> s'.view[p] == s.view[p]
    ensures HeapGrowth(s, s', lost)
  {
  }

  lemma GrowthRefl(s: Snapshot)
    ensures HeapGrowth(s, s, {})
  {
  }

  lemma BackedLeaves(s: Snapshot, s': Snapshot, end: nat, size: nat, lost: set<nat>)
    requires Backed(s, s', end / 4096, (end + size) / 4096, lost) && |lost| <= 1
    requires HEAP_START <= end && end + size <= HEAP_MAX_END
    ensures HeapGrowth(s, s', lost)
  {
  }

  lemma RegionPages(end: nat, size: nat)
    requires end + size <= HEAP_MAX_END
    ensures end / 4096 <= (end + size) / 4096 <= HEAP_MAX_END / 4096 <= PAGE_LIMIT
  {
  }
}
