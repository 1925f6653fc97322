/** The kernel heap as a sequence of blocks (kernel/heap.c): splitting, coalescing and growing, and what
    they keep. A block is a 48-byte header followed by its payload. */
module HeapBlocks {
  import opened Bits
  import opened Utils

  const HEADER: nat := 48
  const MIN_SPLIT: nat := 32

  datatype Block = Block(addr: nat, size: nat, free: bool) {
    function End(): nat { addr + 48 + size }
  }

  // ---------- the shape of a heap ----------

  /** The blocks cover [lo, hi) in address order without gap or overlap. */
  ghost predicate Tiles(bs: seq<Block>, lo: nat, hi: nat) {
    && |bs| > 0 && bs[0].addr == lo && bs[|bs| - 1].End() == hi
    && forall i :: 0 <= i < |bs| - 1 ==> bs[i].End() == bs[i + 1].addr
  }

  ghost predicate Aligned(bs: seq<Block>) {
    forall i :: 0 <= i < |bs| ==> bs[i].addr % 16 == 0 && bs[i].size % 16 == 0
  }

  ghost predicate NoFreeNeighbours(bs: seq<Block>) {
    forall i :: 0 <= i < |bs| - 1 ==> !(bs[i].free && bs[i + 1].free)
  }

  ghost predicate WellFormed(bs: seq<Block>, lo: nat, hi: nat) {
    Tiles(bs, lo, hi) && Aligned(bs) && NoFreeNeighbours(bs)
  }

  /** The allocations: address of the block and its size. */
  ghost function Live(bs: seq<Block>): set<Block> {
    set b | b in bs && !b.free
  }

  lemma {:induction false} TilesIncreasing(bs: seq<Block>, lo: nat, hi: nat, i: nat, j: nat)
    requires Tiles(bs, lo, hi) && i < j < |bs|
    ensures bs[i].End() <= bs[j].addr
    decreases j - i
  {
    if i + 1 < j { TilesIncreasing(bs, lo, hi, i + 1, j); }
  }

  lemma TilesInside(bs: seq<Block>, lo: nat, hi: nat, i: nat)
    requires Tiles(bs, lo, hi) && i < |bs|
    ensures lo <= bs[i].addr && bs[i].End() <= hi
  {
    if i > 0 { TilesIncreasing(bs, lo, hi, 0, i); }
    if i < |bs| - 1 { TilesIncreasing(bs, lo, hi, i, |bs| - 1); }
  }

  /** Headers and payloads of different blocks never overlap. */
  lemma BlocksDisjoint(bs: seq<Block>, lo: nat, hi: nat, i: nat, j: nat)
    requires Tiles(bs, lo, hi) && i < |bs| && j < |bs| && i != j
    ensures !RangesOverlap(bs[i].addr, bs[i].End(), bs[j].addr, bs[j].End())
    ensures bs[i].addr != bs[j].addr
  {
    if i < j { TilesIncreasing(bs, lo, hi, i, j); } else { TilesIncreasing(bs, lo, hi, j, i); }
  }

  // ---------- splitting ----------

  function SplitAt(bs: seq<Block>, i: nat, size: nat): seq<Block>
    requires i < |bs|
  {
    var b := bs[i];
    if b.size < size then bs
    else if b.size - size < HEADER + MIN_SPLIT then bs
    else bs[..i] + [Block(b.addr, size, b.free), Block(b.addr + 48 + size, b.size - size - 48, true)] + bs[i + 1..]
  }

  /** The bytes left over must hold a header and 32 more. */
  lemma SplitIs(bs: seq<Block>, i: nat, size: nat)
    requires i < |bs|
    ensures var b := bs[i];
            SplitAt(bs, i, size) ==
            if b.size < size + 80 then bs
            else bs[..i] + [b.(size := size), Block(b.addr + 48 + size, b.size - size - 48, true)] + bs[i + 1..]
  {
  }

  function SetFree(bs: seq<Block>, i: nat, free: bool): seq<Block>
    requires i < |bs|
  {
    bs[i := bs[i].(free := free)]
  }

  /** Allocating `size` bytes from block `i`. */
  function Carve(bs: seq<Block>, i: nat, size: nat): seq<Block>
    requires i < |bs|
  {
    SetFree(SplitAt(bs, i, size), i, false)
  }

  lemma Multiples(a: nat, b: nat)
    requires a % 16 == 0 && b % 16 == 0
    ensures (a + 48 + b) % 16 == 0 && (a + b) % 16 == 0
    ensures a >= b + 48 ==> (a - b - 48) % 16 == 0
  {
  }

  lemma SplitTiles(bs: seq<Block>, lo: nat, hi: nat, i: nat, size: nat)
    requires Tiles(bs, lo, hi) && i < |bs|
    ensures Tiles(SplitAt(bs, i, size), lo, hi)
  {
  }

  lemma SplitAligned(bs: seq<Block>, i: nat, size: nat)
    requires Aligned(bs) && i < |bs| && size % 16 == 0
    ensures Aligned(SplitAt(bs, i, size))
  {
    Multiples(bs[i].addr, size);
    Multiples(bs[i].size, size);
  }

  lemma CarveNeighbours(bs: seq<Block>, i: nat, size: nat)
    requires NoFreeNeighbours(bs) && i < |bs| && bs[i].free
    ensures i < |SplitAt(bs, i, size)| && NoFreeNeighbours(Carve(bs, i, size))
  {
  }

  lemma CarveWellFormed(bs: seq<Block>, lo: nat, hi: nat, i: nat, size: nat)
    requires WellFormed(bs, lo, hi) && i < |bs| && bs[i].free && size % 16 == 0
    ensures i < |SplitAt(bs, i, size)| && WellFormed(Carve(bs, i, size), lo, hi)
  {
    SplitTiles(bs, lo, hi, i, size);
    SplitAligned(bs, i, size);
    CarveNeighbours(bs, i, size);
    SetFreeTiles(SplitAt(bs, i, size), lo, hi, i, false);
  }

  lemma CarveBlock(bs: seq<Block>, i: nat, size: nat)
    requires i < |bs| && bs[i].free && bs[i].size >= size
    ensures i < |Carve(bs, i, size)|
    ensures var b := Carve(bs, i, size)[i];
            b.addr == bs[i].addr && size <= b.size <= bs[i].size && b.size < size + 80 && !b.free
  {
  }

  /** Exactly one allocation is added. */
  lemma CarveLive(bs: seq<Block>, i: nat, size: nat)
    requires i < |bs| && bs[i].free && bs[i].size >= size
    ensures i < |Carve(bs, i, size)|
    ensures Live(Carve(bs, i, size)) == Live(bs) + {Carve(bs, i, size)[i]}
  {
    var cs := Carve(bs, i, size);
    var k := |cs| - |bs|;
    assert k == 0 || k == 1;
    forall b | b in Live(cs) ensures b in Live(bs) + {cs[i]} {
      var j :| 0 <= j < |cs| && cs[j] == b;
      assert j < i ==> bs[j] == b;
      assert j > i + k ==> bs[j - k] == b;
    }
    forall b | b in Live(bs) ensures b in Live(cs) {
      var j :| 0 <= j < |bs| && bs[j] == b;
      assert j < i ==> cs[j] == b;
      assert j > i ==> cs[j + k] == b;
    }
  }

  // ---------- coalescing ----------

  function MergeNext(bs: seq<Block>, i: nat): seq<Block>
    requires i < |bs|
  {
    if i + 1 < |bs| && bs[i + 1].free
    then bs[..i] + [bs[i].(size := bs[i].size + 48 + bs[i + 1].size)] + bs[i + 2..]
    else bs
  }

  function Coalesce(bs: seq<Block>, i: nat): seq<Block>
    requires i < |bs|
  {
    var m := MergeNext(bs, i);
    if i > 0 && m[i - 1].free then MergeNext(m, i - 1) else m
  }

  /** Freeing block `i`. */
  function Release(bs: seq<Block>, i: nat): seq<Block>
    requires i < |bs|
  {
    Coalesce(SetFree(bs, i, true), i)
  }

  lemma MergeTiles(bs: seq<Block>, lo: nat, hi: nat, i: nat)
    requires Tiles(bs, lo, hi) && i < |bs|
    ensures Tiles(MergeNext(bs, i), lo, hi)
  {
  }

  lemma MergeAligned(bs: seq<Block>, i: nat)
    requires Aligned(bs) && i < |bs|
    ensures Aligned(MergeNext(bs, i))
  {
    if i + 1 < |bs| { Multiples(bs[i].size, bs[i + 1].size); }
  }

  lemma SetFreeTiles(bs: seq<Block>, lo: nat, hi: nat, i: nat, free: bool)
    requires Tiles(bs, lo, hi) && Aligned(bs) && i < |bs|
    ensures Tiles(SetFree(bs, i, free), lo, hi) && Aligned(SetFree(bs, i, free))
  {
  }

  lemma ReleaseNeighbours(bs: seq<Block>, i: nat)
    requires NoFreeNeighbours(bs) && i < |bs| && !bs[i].free
    ensures NoFreeNeighbours(Release(bs, i))
  {
    hide MergeNext;
    var fs := SetFree(bs, i, true);
    var m := MergeNext(fs, i);
    MergedNeighbours(fs, i);
    assert forall j :: 0 <= j < i ==> m[j] == m[..i][j] == fs[..i][j];
    if i > 0 && m[i - 1].free {
      MergedNeighbours(m, i - 1);
      var m2 := MergeNext(m, i - 1);
      assert i > 1 ==> m2[i - 2] == m2[..i - 1][i - 2] == m[..i - 1][i - 2];
    }
  }

  /** No two neighbours are free, but perhaps block `i` and one of its own. */
  ghost predicate NeighboursBut(bs: seq<Block>, i: int) {
    forall j :: 0 <= j < |bs| - 1 && j != i && j != i - 1 ==> !(bs[j].free && bs[j + 1].free)
  }

  lemma MergedNeighbours(bs: seq<Block>, i: nat)
    requires i < |bs| && bs[i].free && NeighboursBut(bs, i)
    requires i + 2 < |bs| && bs[i + 1].free ==> !bs[i + 2].free
    ensures var m := MergeNext(bs, i);
            && i < |m| && m[..i] == bs[..i] && m[i].free && (i + 1 < |m| ==> !m[i + 1].free)
            && NeighboursBut(m, i - 1) && (i > 0 && !m[i - 1].free ==> NoFreeNeighbours(m))
            && (i == 0 ==> NoFreeNeighbours(m))
  {
  }

  lemma ReleaseWellFormed(bs: seq<Block>, lo: nat, hi: nat, i: nat)
    requires WellFormed(bs, lo, hi) && i < |bs| && !bs[i].free
    ensures WellFormed(Release(bs, i), lo, hi)
  {
    SetFreeTiles(bs, lo, hi, i, true);
    var fs := SetFree(bs, i, true);
    MergeTiles(fs, lo, hi, i);
    MergeAligned(fs, i);
    var m := MergeNext(fs, i);
    if i > 0 && m[i - 1].free {
      MergeTiles(m, lo, hi, i - 1);
      MergeAligned(m, i - 1);
    }
    ReleaseNeighbours(bs, i);
  }

  /** Merging a free block into its predecessor changes no allocation when the predecessor is free. */
  lemma MergeLive(bs: seq<Block>, i: nat)
    requires i < |bs| && bs[i].free
    ensures Live(MergeNext(bs, i)) == Live(bs)
  {
  }

  lemma SetFreeLive(bs: seq<Block>, lo: nat, hi: nat, i: nat)
    requires Tiles(bs, lo, hi) && i < |bs| && !bs[i].free
    ensures Live(SetFree(bs, i, true)) == Live(bs) - {bs[i]}
  {
    var fs := SetFree(bs, i, true);
    forall b | b in Live(fs) ensures b in Live(bs) - {bs[i]} {
      var j :| 0 <= j < |fs| && fs[j] == b;
      assert bs[j] == b;
      BlocksDisjoint(bs, lo, hi, i, j);
    }
    forall b | b in Live(bs) - {bs[i]} ensures b in Live(fs) {
      var j :| 0 <= j < |bs| && bs[j] == b;
      assert fs[j] == b;
    }
  }

  /** Exactly one allocation disappears. */
  lemma ReleaseLive(bs: seq<Block>, lo: nat, hi: nat, i: nat)
    requires WellFormed(bs, lo, hi) && i < |bs| && !bs[i].free
    ensures Live(Release(bs, i)) == Live(bs) - {bs[i]}
  {
    SetFreeLive(bs, lo, hi, i);
    var fs := SetFree(bs, i, true);
    MergeLive(fs, i);
    var m := MergeNext(fs, i);
    if i > 0 && m[i - 1].free { MergeLive(m, i - 1); }
  }

  // ---------- growing ----------

  /** Adding a region of `size` payload bytes at the end. */
  function Grow(bs: seq<Block>, end: nat, size: nat): seq<Block> {
    var gs := bs + [Block(end, size, true)];
    if |bs| > 0 && bs[|bs| - 1].free then MergeNext(gs, |bs| - 1) else gs
  }

  lemma GrowWellFormed(bs: seq<Block>, lo: nat, hi: nat, size: nat)
    requires bs == [] ==> lo == hi
    requires bs != [] ==> WellFormed(bs, lo, hi)
    requires hi % 16 == 0 && size % 16 == 0
    ensures WellFormed(Grow(bs, hi, size), lo, hi + 48 + size)
  {
    var gs := bs + [Block(hi, size, true)];
    assert Tiles(gs, lo, hi + 48 + size) && Aligned(gs);
    assert forall i :: 0 <= i < |bs| - 1 ==> !(gs[i].free && gs[i + 1].free);
    if bs != [] {
      MergeTiles(gs, lo, hi + 48 + size, |bs| - 1);
      MergeAligned(gs, |bs| - 1);
    }
  }

  lemma GrowLive(bs: seq<Block>, end: nat, size: nat)
    ensures Live(Grow(bs, end, size)) == Live(bs)
  {
  }

  // ---------- inverses and fixed points ----------

  /** Freeing a block just allocated restores the block list. */
  lemma ReleaseAfterCarve(bs: seq<Block>, i: nat, size: nat)
    requires NoFreeNeighbours(bs) && i < |bs| && bs[i].free && bs[i].size >= size
    ensures i < |Carve(bs, i, size)| && Release(Carve(bs, i, size), i) == bs
  {
    var cs := Carve(bs, i, size);
    var fs := SetFree(cs, i, true);
    assert fs == SplitAt(bs, i, size);
    assert MergeNext(fs, i) == bs;
  }

  /** With nothing allocated the heap is a single free block. */
  lemma NothingLiveIsOneBlock(bs: seq<Block>, lo: nat, hi: nat)
    requires WellFormed(bs, lo, hi)
    ensures lo + 48 <= hi && (Live(bs) == {} <==> bs == [Block(lo, hi - lo - 48, true)])
  {
    TilesInside(bs, lo, hi, 0);
    assert |bs| > 1 ==> !(bs[0].free && bs[1].free);
    if Live(bs) == {} {
      assert forall i :: 0 <= i < |bs| && !bs[i].free ==> bs[i] in Live(bs);
      assert forall i :: 0 <= i < |bs| ==> bs[i].free;
    }
  }

  // ---------- requests ----------

  const HEAP_START: nat := 0x4100_0000
  const HEAP_INITIAL: nat := 0x4000
  const HEAP_MAX_END: nat := 0x4200_0000

  /** A request rounded up to 16 bytes. */
  function Rounded(n: nat): (r: nat)
    ensures r % 16 == 0 && n <= r < n + 16
  {
    (n + 15) / 16 * 16
  }

  /** Rounding by mask agrees until the sum wraps; a wrapped request is rounded to 0, so a block that fits
      the rounded size need not fit the request. */
  lemma RoundedIsMask(n: nat)
    requires 0 < n < U64_LIMIT
    ensures AlignUp(n, 16) == if n + 15 < U64_LIMIT then Rounded(n) else 0
    ensures AlignUp(n, 16) >= n <==> n + 15 < U64_LIMIT
  {
    assert Pow2(4) == 16;
    if n + 15 < U64_LIMIT {
      AlignUpIsCeiling(n, 4);
      SameMultiple16(AlignUp(n, 16), Rounded(n), n + 15);
    } else {
      AlignUpWraps(n, 4);
    }
  }

  lemma SameMultiple16(a: nat, b: nat, v: nat)
    requires a % 16 == 0 && b % 16 == 0 && v < a + 16 && a <= v && v < b + 16 && b <= v
    ensures a == b
  {
  }

  /** The bytes `heap_expand` adds for a payload of `size`. */
  function ExpandSize(size: nat): (r: nat)
    ensures r % 4096 == 0 && r >= 48 + size && r >= HEAP_INITIAL && (r == 0x4000 || r < 48 + size + 4096)
  {
    if PageUp(48 + size) < HEAP_INITIAL then HEAP_INITIAL else PageUp(48 + size)
  }

  /** The first free block from index `i` on that holds `size` bytes; |bs| when there is none. */
  function FindFrom(bs: seq<Block>, size: nat, i: nat): (j: nat)
    requires i <= |bs|
    ensures i <= j <= |bs|
    ensures j < |bs| ==> bs[j].free && bs[j].size >= size
    ensures forall k :: i <= k < j ==> !(bs[k].free && bs[k].size >= size)
    decreases |bs| - i
  {
    if i == |bs| then i
    else if bs[i].free && bs[i].size >= size then i
    else FindFrom(bs, size, i + 1)
  }

  function FirstFit(bs: seq<Block>, size: nat): nat { FindFrom(bs, size, 0) }

  datatype Heap = Heap(blocks: seq<Block>, end: nat)

  ghost predicate HeapOk(h: Heap) {
    Whole(HeapOkParts(h))
  }

  ghost predicate HeapOkParts(h: Heap) {
    WellFormed(h.blocks, HEAP_START, h.end) && h.end % 4096 == 0 && h.end <= HEAP_MAX_END
  }

  /** The heap with a region of `bytes` added at its end. */
  function GrownBy(h: Heap, bytes: nat): Heap
    requires bytes >= 48
  {
    Heap(Grow(h.blocks, h.end, bytes - 48), h.end + bytes)
  }

  function Expanded(h: Heap, size: nat): Heap {
    GrownBy(h, ExpandSize(size))
  }

  /** `kmalloc(n)`; `granted` says whether frames for an expansion can be had. The pointer is 0 when the
      request fails. */
  function Kmalloc(h: Heap, n: nat, granted: bool): (Heap, nat) {
    if n == 0 then (h, 0)
    else
      var size := Rounded(n);
      var i := FirstFit(h.blocks, size);
      if i < |h.blocks| then (h.(blocks := Carve(h.blocks, i, size)), h.blocks[i].addr + 48)
      else if h.end + ExpandSize(size) > HEAP_MAX_END || !granted then (h, 0)
      else
        var g := Expanded(h, size);
        var j := FirstFit(g.blocks, size);
        if j == |g.blocks| then (g, 0)
        else (g.(blocks := Carve(g.blocks, j, size)), g.blocks[j].addr + 48)
  }

  /** The heap after the search of `kmalloc`, before a block is taken. */
  function Searched(h: Heap, size: nat, granted: bool): Heap {
    if FirstFit(h.blocks, size) < |h.blocks| then h
    else if h.end + ExpandSize(size) > HEAP_MAX_END || !granted then h
    else Expanded(h, size)
  }

  /** The last part of `kmalloc`: takes the first block that fits, if there is one. */
  function TakeFirst(h: Heap, size: nat): (Heap, nat) {
    var i := FirstFit(h.blocks, size);
    if i < |h.blocks| then (h.(blocks := Carve(h.blocks, i, size)), h.blocks[i].addr + 48) else (h, 0)
  }

  /** The sums of `heap_expand` wrap at 2^64 in none of its steps, or so early that it still refuses: a size that
      wraps asks for the least growth instead, and that is beyond the limit, too. */
  ghost predicate GrowthInWords(end: nat, size: nat) {
    Whole(GrowthInWordsParts(end, size))
  }

  ghost predicate GrowthInWordsParts(end: nat, size: nat) {
    || end + ExpandSize(size) < U64_LIMIT
    || (ExpandSize(size) >= U64_LIMIT && end + HEAP_INITIAL > HEAP_MAX_END)
  }

  /** A request that `kmalloc` treats as if its sums did not wrap: the rounded size is right, or there is no free
      block for the size 0 that it wraps to; and the heap need not grow, or the sums of growing are right. */
  ghost predicate Requestable(h: Heap, n: nat) {
    Whole(RequestableParts(h, n))
  }

  ghost predicate RequestableParts(h: Heap, n: nat) {
    n == 0 ||
    (&& n < U64_LIMIT && (n + 15 < U64_LIMIT || FirstFit(h.blocks, 0) == |h.blocks|)
     && (FirstFit(h.blocks, Rounded(n)) < |h.blocks| || GrowthInWords(h.end, Rounded(n))))
  }

  /** Heap `h'` and pointer `ptr` are the outcome of `kmalloc(n)` on `h`. */
  ghost predicate IsKmalloc(h: Heap, n: nat, granted: bool, h': Heap, ptr: nat) {
    Whole(IsKmallocParts(h, n, granted, h', ptr))
  }

  ghost predicate IsKmallocParts(h: Heap, n: nat, granted: bool, h': Heap, ptr: nat) {
    Requestable(h, n) && Kmalloc(h, n, granted) == (h', ptr)
  }

  lemma KmallocInParts(h: Heap, n: nat, granted: bool, g: Heap, h': Heap, ptr: nat)
    requires n > 0 && Requestable(h, n) && g == Searched(h, Rounded(n), granted)
    requires (h', ptr) == TakeFirst(g, Rounded(n))
    ensures IsKmalloc(h, n, granted, h', ptr)
  {
  }

  lemma KmallocOfNothing(h: Heap, granted: bool)
    ensures IsKmalloc(h, 0, granted, h, 0)
  {
  }

  /** The block of an allocation pointer; |bs| when no allocation has it. */
  function IndexFrom(bs: seq<Block>, ptr: nat, i: nat): (j: nat)
    requires i <= |bs|
    ensures i <= j <= |bs|
    ensures j < |bs| ==> !bs[j].free && bs[j].addr + 48 == ptr
    ensures forall k :: i <= k < j ==> bs[k].free || bs[k].addr + 48 != ptr
    decreases |bs| - i
  {
    if i == |bs| then i
    else if !bs[i].free && bs[i].addr + 48 == ptr then i
    else IndexFrom(bs, ptr, i + 1)
  }

  /** There is a block at address `a`. */
  ghost predicate HasAddr(bs: seq<Block>, a: nat) {
    exists i :: 0 <= i < |bs| && bs[i].addr == a
  }

  /** `kfree(ptr)` of a null pointer, of a block, or where the bytes before the pointer do not read as the
      header of an allocation: pointers that are not allocations are ignored. */
  function Kfree(h: Heap, ptr: nat): Heap {
    var i := IndexFrom(h.blocks, ptr, 0);
    if i < |h.blocks| then h.(blocks := Release(h.blocks, i)) else h
  }

  lemma PageMultiples(e: nat, end: nat)
    requires e % 4096 == 0 && end % 4096 == 0 && e >= 48
    ensures (e - 48) % 16 == 0 && end % 16 == 0 && (end + e) % 4096 == 0
  {
    PageIs16(e);
    PageIs16(end);
  }

  lemma PageIs16(x: nat)
    requires x % 4096 == 0
    ensures x % 16 == 0
  {
    assert x == 16 * (256 * (x / 4096));
  }

  lemma ExpandedOk(h: Heap, size: nat)
    requires HeapOk(h) && h.end + ExpandSize(size) <= HEAP_MAX_END
    ensures HeapOk(Expanded(h, size)) && Live(Expanded(h, size).blocks) == Live(h.blocks)
  {
    var e := ExpandSize(size);
    PageMultiples(e, h.end);
    GrowWellFormed(h.blocks, HEAP_START, h.end, e - 48);
    GrowLive(h.blocks, h.end, e - 48);
  }

  /** After an expansion the search succeeds, at the last block. */
  lemma ExpandedFits(h: Heap, size: nat)
    requires FirstFit(h.blocks, size) == |h.blocks|
    ensures var bs := Expanded(h, size).blocks; FirstFit(bs, size) == |bs| - 1
  {
    var bs := Expanded(h, size).blocks;
    assert bs[|bs| - 1].free && bs[|bs| - 1].size >= size;
    assert forall k :: 0 <= k < |bs| - 1 ==> bs[k] == h.blocks[k];
  }

  lemma CarveOk(h: Heap, i: nat, size: nat)
    requires HeapOk(h) && i < |h.blocks| && h.blocks[i].free && h.blocks[i].size >= size && size % 16 == 0
    ensures HeapOk(h.(blocks := Carve(h.blocks, i, size)))
    ensures i < |Carve(h.blocks, i, size)|
  {
    CarveWellFormed(h.blocks, HEAP_START, h.end, i, size);
  }

  /** What `kmalloc` promises: the heap stays well formed, and a pointer that is not null is the payload of
      one new allocation, large enough, 16-aligned and inside the heap; all others stay. */
  ghost predicate KmallocResult(h: Heap, n: nat, h': Heap, ptr: nat) {
    Whole(KmallocResultParts(h, n, h', ptr))
  }

  ghost predicate KmallocResultParts(h: Heap, n: nat, h': Heap, ptr: nat) {
    && HeapOk(h') && h'.end >= h.end
    && (ptr == 0 ==> Live(h'.blocks) == Live(h.blocks))
    && (ptr != 0 ==> exists b :: NewAllocation(h, h', n, ptr, b))
  }

  lemma ExpandThenCarve(h: Heap, n: nat, size: nat)
    requires HeapOk(h) && size == Rounded(n)
    requires FirstFit(h.blocks, size) == |h.blocks| && h.end + ExpandSize(size) <= HEAP_MAX_END
    ensures var g := Expanded(h, size); var j := |g.blocks| - 1;
            && FirstFit(g.blocks, size) == j && j >= 0
            && KmallocResult(h, n, g.(blocks := Carve(g.blocks, j, size)), g.blocks[j].addr + 48)
  {
    ExpandedOk(h, size);
    ExpandedFits(h, size);
    var g := Expanded(h, size);
    var j := |g.blocks| - 1;
    CarvedIsNew(g, j, n, size);
    assert NewAllocation(h, g.(blocks := Carve(g.blocks, j, size)), n, g.blocks[j].addr + 48,
           Carve(g.blocks, j, size)[j]);
  }

  lemma KmallocKeeps(h: Heap, n: nat, granted: bool)
    requires HeapOk(h) && Requestable(h, n)
    ensures KmallocResult(h, n, Kmalloc(h, n, granted).0, Kmalloc(h, n, granted).1)
  {
    hide Requestable, ExpandSize, Expanded, Carve;
    if n != 0 {
      var size := Rounded(n);
      var i := FirstFit(h.blocks, size);
      if i < |h.blocks| {
        CarvedIsNew(h, i, n, size);
        assert KmallocResult(h, n, h.(blocks := Carve(h.blocks, i, size)), h.blocks[i].addr + 48);
      } else if h.end + ExpandSize(size) <= HEAP_MAX_END && granted {
        ExpandThenCarve(h, n, size);
      }
    }
  }

  /** The request fails only when no free block fits and the heap may not grow. */
  lemma KmallocFailsOnlyWhenFull(h: Heap, n: nat, granted: bool)
    requires HeapOk(h) && n > 0 && Requestable(h, n)
    ensures Kmalloc(h, n, granted).1 == 0 <==>
            && (forall b :: b in h.blocks && b.free ==> b.size < Rounded(n))
            && (h.end + ExpandSize(Rounded(n)) > HEAP_MAX_END || !granted)
  {
    var size := Rounded(n);
    var i := FirstFit(h.blocks, size);
    if i < |h.blocks| {
      assert h.blocks[i] in h.blocks;
    } else {
      forall b | b in h.blocks && b.free ensures b.size < size {
        var k :| 0 <= k < |h.blocks| && h.blocks[k] == b;
      }
      if h.end + ExpandSize(size) <= HEAP_MAX_END { ExpandedFits(h, size); }
    }
  }

  // ---------- where an allocation is put ----------

  /** A free block of `avail` bytes at `addr` after `size` of them were taken: what is left over becomes a free
      block if it is 80 bytes or more, header included. */
  function Taken(addr: nat, avail: nat, size: nat): seq<Block>
    requires size <= avail
  {
    if avail < size + 80 then [Block(addr, avail, false)]
    else [Block(addr, size, false), Block(addr + 48 + size, avail - size - 48, true)]
  }

  /** Block `i` is the first free one that holds the request. */
  ghost predicate FirstToHold(bs: seq<Block>, n: nat, i: nat) {
    && i < |bs| && bs[i].free && bs[i].size >= Rounded(n)
    && forall k :: 0 <= k < i ==> !(bs[k].free && bs[k].size >= Rounded(n))
  }

  lemma FoundIsFirst(bs: seq<Block>, n: nat, i: nat)
    requires FirstToHold(bs, n, i)
    ensures FirstFit(bs, Rounded(n)) == i
  {
  }

  lemma CarveIsTaken(bs: seq<Block>, i: nat, size: nat)
    requires i < |bs| && bs[i].free && bs[i].size >= size
    ensures i < |SplitAt(bs, i, size)|
    ensures Carve(bs, i, size) == bs[..i] + Taken(bs[i].addr, bs[i].size, size) + bs[i + 1..]
  {
  }

  /** A request is served from the first free block that holds it; the others stay as they are. */
  lemma KmallocTakesFirst(h: Heap, n: nat, granted: bool, i: nat)
    requires n > 0 && FirstToHold(h.blocks, n, i)
    ensures Kmalloc(h, n, granted).1 == h.blocks[i].addr + 48 && Kmalloc(h, n, granted).0.end == h.end
    ensures Kmalloc(h, n, granted).0.blocks ==
            h.blocks[..i] + Taken(h.blocks[i].addr, h.blocks[i].size, Rounded(n)) + h.blocks[i + 1..]
  {
    FoundIsFirst(h.blocks, n, i);
    CarveIsTaken(h.blocks, i, Rounded(n));
    hide Carve, FirstFit, Taken;
  }

  /** Where the free space at the end of a heap begins: at its last block if that is free, else at its end. */
  function Tail(h: Heap): nat {
    if h.blocks != [] && h.blocks[|h.blocks| - 1].free then h.blocks[|h.blocks| - 1].addr else h.end
  }

  /** The blocks before it. */
  function BeforeTail(h: Heap): seq<Block> {
    if h.blocks != [] && h.blocks[|h.blocks| - 1].free then h.blocks[..|h.blocks| - 1] else h.blocks
  }

  lemma GrownTail(h: Heap, bytes: nat)
    requires bytes >= 48 && h.blocks != [] && h.blocks[|h.blocks| - 1].End() == h.end
    ensures Tail(h) + 48 <= h.end + bytes && GrownBy(h, bytes).end == h.end + bytes
    ensures GrownBy(h, bytes).blocks == BeforeTail(h) + [Block(Tail(h), h.end + bytes - Tail(h) - 48, true)]
  {
  }

  /** A request that no free block holds is served from the end of the heap once it has grown, by as few pages as
      hold it and its header, but four at least. */
  lemma KmallocGrowsTail(h: Heap, n: nat, bytes: nat)
    requires HeapOk(h) && n > 0 && forall b :: b in h.blocks && b.free ==> b.size < Rounded(n)
    requires bytes % 4096 == 0 && bytes >= Rounded(n) + 48 && bytes >= 0x4000
    requires (bytes == 0x4000 || bytes < Rounded(n) + 48 + 4096) && h.end + bytes <= 0x4200_0000
    ensures Kmalloc(h, n, true).1 == Tail(h) + 48 && Kmalloc(h, n, true).0.end == h.end + bytes
    ensures Tail(h) + 48 + Rounded(n) <= h.end + bytes
    ensures Kmalloc(h, n, true).0.blocks == BeforeTail(h) + Taken(Tail(h), h.end + bytes - Tail(h) - 48, Rounded(n))
  {
    hide Carve, FirstFit, Taken, ExpandSize, Rounded, HeapOk, GrownBy, Tail, BeforeTail;
    var size := Rounded(n);
    LeastGrowth(size, bytes);
    NoneHolds(h.blocks, size);
    LastEnds(h);
    GrownTail(h, bytes);
    ExpandedFits(h, size);
    var gs := GrownBy(h, bytes).blocks;
    assert gs[..|gs| - 1] == BeforeTail(h) && gs[|gs|..] == [];
    TailHolds(h, bytes, size, gs);
    CarveIsTaken(gs, |gs| - 1, size);
    assert BeforeTail(h) + Taken(Tail(h), h.end + bytes - Tail(h) - 48, size) + [] ==
           BeforeTail(h) + Taken(Tail(h), h.end + bytes - Tail(h) - 48, size);
  }

  lemma TailHolds(h: Heap, bytes: nat, size: nat, gs: seq<Block>)
    requires gs != [] && FirstFit(gs, size) == |gs| - 1 && Tail(h) + 48 <= h.end + bytes
    requires gs[|gs| - 1] == Block(Tail(h), h.end + bytes - Tail(h) - 48, true)
    ensures Tail(h) + 48 + size <= h.end + bytes && gs[|gs| - 1].size >= size
  {
  }

  lemma LeastGrowth(size: nat, bytes: nat)
    requires bytes % 4096 == 0 && bytes >= size + 48 && bytes >= 0x4000
    requires bytes == 0x4000 || bytes < size + 48 + 4096
    ensures ExpandSize(size) == bytes
  {
    var e := ExpandSize(size);
    assert (bytes - e) % 4096 == 0;
  }

  lemma LastEnds(h: Heap)
    requires HeapOk(h)
    ensures h.blocks != [] && h.blocks[|h.blocks| - 1].End() == h.end
  {
  }

  lemma NoneHolds(bs: seq<Block>, size: nat)
    requires forall b :: b in bs && b.free ==> b.size < size
    ensures FirstFit(bs, size) == |bs|
  {
    forall i | 0 <= i < |bs| ensures !(bs[i].free && bs[i].size >= size) {
      assert bs[i] in bs;
    }
  }

  ghost predicate NewAllocation(h: Heap, h': Heap, n: nat, ptr: nat, b: Block) {
    && b !in Live(h.blocks) && Live(h'.blocks) == Live(h.blocks) + {b}
    && b.addr + 48 == ptr && n <= b.size < Rounded(n) + 80
    && ptr % 16 == 0 && HEAP_START + 48 <= ptr && b.End() <= h'.end
  }

  lemma CarvedIsNew(h: Heap, i: nat, n: nat, size: nat)
    requires HeapOk(h) && i < |h.blocks| && h.blocks[i].free && h.blocks[i].size >= size && size == Rounded(n)
    ensures i < |Carve(h.blocks, i, size)|
    ensures HeapOk(h.(blocks := Carve(h.blocks, i, size)))
    ensures NewAllocation(h, h.(blocks := Carve(h.blocks, i, size)), n, h.blocks[i].addr + 48,
            Carve(h.blocks, i, size)[i])
  {
    CarveOk(h, i, size);
    CarveBlock(h.blocks, i, size);
    CarveLive(h.blocks, i, size);
    var cs := Carve(h.blocks, i, size);
    TilesInside(cs, HEAP_START, h.end, i);
    FreeAddressNotLive(h.blocks, HEAP_START, h.end, i);
  }

  lemma FreeAddressNotLive(bs: seq<Block>, lo: nat, hi: nat, i: nat)
    requires Tiles(bs, lo, hi) && i < |bs| && bs[i].free
    ensures forall b :: b in Live(bs) ==> b.addr != bs[i].addr
  {
    forall b | b in Live(bs) ensures b.addr != bs[i].addr {
      var j :| 0 <= j < |bs| && bs[j] == b;
      BlocksDisjoint(bs, lo, hi, i, j);
    }
  }

  lemma KfreeKeeps(h: Heap, ptr: nat)
    requires HeapOk(h)
    ensures HeapOk(Kfree(h, ptr)) && Kfree(h, ptr).end == h.end
    ensures Live(Kfree(h, ptr).blocks) == set b | b in Live(h.blocks) && b.addr + 48 != ptr
  {
    var bs := h.blocks;
    var i := IndexFrom(bs, ptr, 0);
    if i < |bs| {
      ReleaseWellFormed(bs, HEAP_START, h.end, i);
      ReleaseLive(bs, HEAP_START, h.end, i);
      forall b | b in Live(bs) && b.addr + 48 == ptr ensures b == bs[i] {
        var j :| 0 <= j < |bs| && bs[j] == b;
        if i != j { BlocksDisjoint(bs, HEAP_START, h.end, i, j); }
      }
    } else {
      forall b | b in Live(bs) ensures b.addr + 48 != ptr {
        var j :| 0 <= j < |bs| && bs[j] == b;
      }
    }
  }

  /** The search for an allocation finds it. */
  lemma IndexOf(bs: seq<Block>, lo: nat, hi: nat, i: nat)
    requires Tiles(bs, lo, hi) && i < |bs| && !bs[i].free
    ensures IndexFrom(bs, bs[i].addr + 48, 0) == i
  {
    var j := IndexFrom(bs, bs[i].addr + 48, 0);
    if j < i { BlocksDisjoint(bs, lo, hi, j, i); }
  }

  /** Freeing a fresh allocation that needed no expansion restores the heap exactly. */
  lemma KfreeAfterKmalloc(h: Heap, n: nat, granted: bool)
    requires HeapOk(h) && n > 0 && FirstFit(h.blocks, Rounded(n)) < |h.blocks|
    ensures var (h', ptr) := Kmalloc(h, n, granted); Kfree(h', ptr) == h
  {
    var size := Rounded(n);
    var i := FirstFit(h.blocks, size);
    CarveOk(h, i, size);
    CarveBlock(h.blocks, i, size);
    IndexOf(Carve(h.blocks, i, size), HEAP_START, h.end, i);
    ReleaseAfterCarve(h.blocks, i, size);
  }

  // ---------- whole runs ----------

  /** `used` tells whether the bytes before `ptr` read as the header of an allocation. */
  datatype Call = Alloc(n: nat, granted: bool) | Dealloc(ptr: nat, used: bool)

  /** A request is one that `kmalloc` treats right. A pointer may be freed unless the bytes before it, though no
      block's, read as an allocation's header. */
  ghost predicate LawfulCall(h: Heap, c: Call) {
    match c
    case Alloc(n, _) => Requestable(h, n)
    case Dealloc(ptr, used) => ptr == 0 || !used || (ptr >= 48 && HasAddr(h.blocks, ptr - 48))
  }

  ghost function Step(h: Heap, c: Call): Heap
    requires LawfulCall(h, c)
  {
    match c
    case Alloc(n, granted) => Kmalloc(h, n, granted).0
    case Dealloc(ptr, _) => Kfree(h, ptr)
  }

  ghost predicate Lawful(h: Heap, calls: seq<Call>)
    decreases |calls|
  {
    calls == [] || (LawfulCall(h, calls[0]) && Lawful(Step(h, calls[0]), calls[1..]))
  }

  ghost function Run(h: Heap, calls: seq<Call>): Heap
    requires Lawful(h, calls)
    decreases |calls|
  {
    if calls == [] then h else Run(Step(h, calls[0]), calls[1..])
  }

  lemma StepKeepsHeap(h: Heap, c: Call)
    requires HeapOk(h) && LawfulCall(h, c)
    ensures HeapOk(Step(h, c)) && Step(h, c).end >= h.end
  {
    match c {
      case Alloc(n, granted) => KmallocKeeps(h, n, granted);
      case Dealloc(ptr, _) => KfreeKeeps(h, ptr);
    }
  }

  /** After any run of allocations and frees the blocks tile the mapped heap in address order, aligned,
      with no two free neighbours. */
  lemma {:induction false} RunKeepsHeap(h: Heap, calls: seq<Call>)
    requires HeapOk(h) && Lawful(h, calls)
    ensures HeapOk(Run(h, calls)) && Run(h, calls).end >= h.end
    decreases |calls|
  {
    if calls != [] {
      StepKeepsHeap(h, calls[0]);
      RunKeepsHeap(Step(h, calls[0]), calls[1..]);
    }
  }

  /** Whatever the order of frees and the number of expansions, a heap with nothing allocated is one free
      block. */
  lemma EmptyAfterRun(h: Heap, calls: seq<Call>)
    requires HeapOk(h) && Lawful(h, calls)
    ensures var r := Run(h, calls);
            && r.end >= HEAP_START + 48
            && (Live(r.blocks) == {} <==> r.blocks == [Block(HEAP_START, r.end - HEAP_START - 48, true)])
  {
    RunKeepsHeap(h, calls);
    var r := Run(h, calls);
    NothingLiveIsOneBlock(r.blocks, HEAP_START, r.end);
  }

  /** Over any run, an allocation that is not freed keeps its address and size. */
  lemma {:induction false} RunKeepsAllocation(h: Heap, calls: seq<Call>, b: Block)
    requires HeapOk(h) && b in Live(h.blocks) && Lawful(h, calls)
    requires forall c :: c in calls && c.Dealloc? ==> c.ptr != b.addr + 48
    ensures b in Live(Run(h, calls).blocks)
    decreases |calls|
  {
    if calls != [] {
      var c := calls[0];
      assert c in calls;
      match c {
        case Alloc(n, granted) => KmallocKeeps(h, n, granted);
        case Dealloc(ptr, _) => KfreeKeeps(h, ptr);
      }
      RunKeepsAllocation(Step(h, c), calls[1..], b);
    }
  }
}
