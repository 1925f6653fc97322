/** The bytes of the allocations of the kernel heap, as read through the page tables. */
module Allocations {
  import opened Utils
  import opened Options
  import opened Entries
  import opened PageTables
  import opened TableEffects
  import opened PageRanges
  import opened Vmm
  import opened UserMemory
  import opened HeapBlocks
  import opened HeapPages
  import opened Heap

  lemma BlocksApart(h: HeapBlocks.Heap, b: Block, c: Block)
    requires HeapOk(h) && b in h.blocks && c in h.blocks && b != c
    ensures b.addr != c.addr && (b.End() <= c.addr || c.End() <= b.addr)
  {
    var i :| 0 <= i < |h.blocks| && h.blocks[i] == b;
    var j :| 0 <= j < |h.blocks| && h.blocks[j] == c;
    BlocksDisjoint(h.blocks, HEAP_START, h.end, i, j);
  }

  lemma BlockInside(h: HeapBlocks.Heap, b: Block)
    requires HeapOk(h) && b in h.blocks
    ensures HEAP_START <= b.addr && b.End() <= h.end
  {
    var i :| 0 <= i < |h.blocks| && h.blocks[i] == b;
    TilesInside(h.blocks, HEAP_START, h.end, i);
  }

  /** Address `a` lies in the payload of `b`. */
  predicate InPayload(b: Block, a: nat) {
    b.addr + 48 <= a < b.End()
  }

  /** Every byte of every allocation of `h` that was mapped reads as before. */
  ghost predicate AllocationsKept(h: HeapBlocks.Heap, s: Snapshot, s': Snapshot) {
    Whole(AllocationsKeptParts(h, s, s'))
  }

  ghost predicate AllocationsKeptParts(h: HeapBlocks.Heap, s: Snapshot, s': Snapshot) {
    forall b, a: nat {:trigger InPayload(b, a)} :: b in Live(h.blocks) && InPayload(b, a) && VaByte(s, a).Some? ==>
      VaByte(s', a) == VaByte(s, a)
  }

  /** A new allocation is apart from every other. */
  lemma AllocationsApart(h: HeapBlocks.Heap, n: nat, granted: bool, h': HeapBlocks.Heap, ptr: nat, b: Block, a: nat)
    requires HeapOk(h) && IsKmalloc(h, n, granted, h', ptr) && b in Live(h.blocks) && InPayload(b, a)
    ensures ptr != 0 ==> !(ptr <= a < ptr + n)
    ensures HEAP_START <= a < HEAP_MAX_END
  {
    hide HeapBlocks.Kmalloc;
    BlockInside(h, b);
    if ptr != 0 {
      KmallocKeeps(h, n, granted);
      var c :| NewAllocation(h, h', n, ptr, c);
      BlocksApart(h', b, c);
    }
  }

  lemma GrowthKeepsByte(s: Snapshot, g: Snapshot, lost: set<nat>, a: nat)
    requires Partitioned(s) && Partitioned(g) && HeapGrowth(s, g, lost) && VaByte(s, a).Some?
    ensures VaByte(g, a) == VaByte(s, a)
  {
    hide PageOf;
    var p := PageOf(a);
    var d := Frame(s.view[p].entry);
    assert d in s.leaves && s.leaves[d] == p;
    assert d in g.leaves && g.leaves[d] == p;
  }
}
