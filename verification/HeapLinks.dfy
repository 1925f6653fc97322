/** The headers of kernel/heap.c in memory: a doubly linked list threaded through the blocks by address,
    and what relinking does to it. Address 0 is the null pointer. */
module HeapLinks {
  import opened Utils
  import opened HeapBlocks

  const MAGIC: nat := 0x4845_4150_424C_4B30

  datatype Header = Header(magic: nat, size: nat, free: bool, prev: nat, next: nat)

  type Headers = map<nat, Header>

  function PrevOf(bs: seq<Block>, i: nat): nat
    requires i < |bs|
  {
    if i == 0 then 0 else bs[i - 1].addr
  }

  function NextOf(bs: seq<Block>, i: nat): nat
    requires i < |bs|
  {
    if i + 1 < |bs| then bs[i + 1].addr else 0
  }

  /** The header of block `i` holds its size and state and the addresses of its neighbours. */
  ghost predicate LinkedAt(hdr: Headers, bs: seq<Block>, i: nat)
    requires i < |bs|
  {
    && bs[i].addr in hdr
    && hdr[bs[i].addr] == Header(MAGIC, bs[i].size, bs[i].free, PrevOf(bs, i), NextOf(bs, i))
  }

  /** The headers describe the blocks, in order, with `prev` inverse to `next`. */
  ghost predicate Linked(hdr: Headers, bs: seq<Block>) {
    Whole(LinkedParts(hdr, bs))
  }

  ghost predicate LinkedParts(hdr: Headers, bs: seq<Block>) {
    forall i {:trigger LinkedAt(hdr, bs, i)} :: 0 <= i < |bs| ==> LinkedAt(hdr, bs, i)
  }

  /** There are no headers but those of the blocks: all other bytes are the business of their owners. */
  ghost predicate OnlyBlocks(hdr: Headers, bs: seq<Block>) {
    Whole(OnlyBlocksParts(hdr, bs))
  }

  ghost predicate OnlyBlocksParts(hdr: Headers, bs: seq<Block>) {
    forall a :: a in hdr ==> HasAddr(bs, a)
  }

  /** The blocks tile a region and the headers describe them. */
  ghost predicate List(hdr: Headers, bs: seq<Block>, lo: nat, hi: nat) {
    && 0 < lo && Tiles(bs, lo, hi) && Linked(hdr, bs) && OnlyBlocks(hdr, bs)
  }

  lemma AddrLess(bs: seq<Block>, lo: nat, hi: nat, i: nat, j: nat)
    requires Tiles(bs, lo, hi) && i < |bs| && j < |bs|
    ensures i < j ==> bs[i].End() <= bs[j].addr
    ensures i > j ==> bs[j].End() <= bs[i].addr
    ensures lo <= bs[i].addr
  {
    if i < j { TilesIncreasing(bs, lo, hi, i, j); }
    if i > j { TilesIncreasing(bs, lo, hi, j, i); }
    TilesInside(bs, lo, hi, i);
  }

  lemma NoneNull(bs: seq<Block>, lo: nat, hi: nat)
    requires Tiles(bs, lo, hi) && lo > 0
    ensures forall i :: 0 <= i < |bs| ==> bs[i].addr > 0
  {
    forall i | 0 <= i < |bs| ensures bs[i].addr > 0 { TilesInside(bs, lo, hi, i); }
  }

  // ---------- splitting ----------

  /** The header writes of `heap_split_block` once it decides to split. */
  function SplitHeaders(hdr: Headers, block: nat, size: nat): Headers
    requires block in hdr && hdr[block].size >= size + 48
  {
    var b := hdr[block];
    var rest := block + 48 + size;
    var h1 := hdr[rest := Header(MAGIC, b.size - size - 48, true, block, b.next)];
    var h2 := if b.next != 0 && b.next in h1 then h1[b.next := h1[b.next].(prev := rest)] else h1;
    h2[block := b.(next := rest, size := size)]
  }

  ghost predicate Splits(bs: seq<Block>, i: nat, size: nat) {
    i < |bs| && bs[i].size >= size + 80
  }

  lemma SplitBefore(hdr: Headers, bs: seq<Block>, lo: nat, hi: nat, i: nat, size: nat, j: nat)
    requires List(hdr, bs, lo, hi) && Splits(bs, i, size) && j < i
    requires bs[i].addr in hdr && hdr[bs[i].addr].size >= size + 48
    ensures LinkedAt(SplitHeaders(hdr, bs[i].addr, size), SplitAt(bs, i, size), j)
  {
    var cs := SplitAt(bs, i, size);
    assert LinkedAt(hdr, bs, i) && LinkedAt(hdr, bs, j);
    AddrLess(bs, lo, hi, j, i);
    if i + 1 < |bs| { AddrLess(bs, lo, hi, j, i + 1); }
    assert cs[j] == bs[j] && cs[j + 1].addr == bs[j + 1].addr;
  }

  lemma SplitHere(hdr: Headers, bs: seq<Block>, lo: nat, hi: nat, i: nat, size: nat)
    requires List(hdr, bs, lo, hi) && Splits(bs, i, size)
    requires bs[i].addr in hdr && hdr[bs[i].addr].size >= size + 48
    ensures LinkedAt(SplitHeaders(hdr, bs[i].addr, size), SplitAt(bs, i, size), i)
    ensures LinkedAt(SplitHeaders(hdr, bs[i].addr, size), SplitAt(bs, i, size), i + 1)
  {
    assert LinkedAt(hdr, bs, i);
    if i + 1 < |bs| { AddrLess(bs, lo, hi, i, i + 1); }
  }

  lemma SplitAfter(hdr: Headers, bs: seq<Block>, lo: nat, hi: nat, i: nat, size: nat, j: nat)
    requires List(hdr, bs, lo, hi) && Splits(bs, i, size) && i < j < |bs|
    requires bs[i].addr in hdr && hdr[bs[i].addr].size >= size + 48
    ensures LinkedAt(SplitHeaders(hdr, bs[i].addr, size), SplitAt(bs, i, size), j + 1)
  {
    var cs := SplitAt(bs, i, size);
    assert LinkedAt(hdr, bs, i) && LinkedAt(hdr, bs, j);
    AddrLess(bs, lo, hi, i, j);
    AddrLess(bs, lo, hi, i + 1, j);
    assert cs[j + 1] == bs[j];
    assert j > i + 1 ==> cs[j] == bs[j - 1];
    assert j + 1 < |bs| ==> cs[j + 2] == bs[j + 1];
  }

  lemma SplitOnly(hdr: Headers, bs: seq<Block>, lo: nat, hi: nat, i: nat, size: nat, a: nat)
    requires List(hdr, bs, lo, hi) && Splits(bs, i, size)
    requires bs[i].addr in hdr && hdr[bs[i].addr].size >= size + 48
    requires a in SplitHeaders(hdr, bs[i].addr, size)
    ensures HasAddr(SplitAt(bs, i, size), a)
  {
    var cs := SplitAt(bs, i, size);
    assert LinkedAt(hdr, bs, i);
    if a == bs[i].addr + 48 + size {
      assert cs[i + 1].addr == a;
    } else {
      assert a in hdr;
      var k :| 0 <= k < |bs| && bs[k].addr == a;
      assert cs[if k <= i then k else k + 1].addr == a;
    }
  }

  lemma SplitList(hdr: Headers, bs: seq<Block>, lo: nat, hi: nat, i: nat, size: nat)
    requires List(hdr, bs, lo, hi) && Splits(bs, i, size)
    ensures bs[i].addr in hdr && hdr[bs[i].addr].size >= size + 48
    ensures List(SplitHeaders(hdr, bs[i].addr, size), SplitAt(bs, i, size), lo, hi)
  {
    assert LinkedAt(hdr, bs, i);
    SplitTiles(bs, lo, hi, i, size);
    var cs, h := SplitAt(bs, i, size), SplitHeaders(hdr, bs[i].addr, size);
    forall j: nat | j < |cs| ensures LinkedAt(h, cs, j) {
      if j < i {
        SplitBefore(hdr, bs, lo, hi, i, size, j);
      } else if j <= i + 1 {
        SplitHere(hdr, bs, lo, hi, i, size);
      } else {
        SplitAfter(hdr, bs, lo, hi, i, size, j - 1);
      }
    }
    forall a | a in h ensures HasAddr(cs, a) { SplitOnly(hdr, bs, lo, hi, i, size, a); }
  }

  // ---------- coalescing ----------

  /** The header writes of `heap_coalesce_with_next` once it decides to merge. */
  function MergeWrites(hdr: Headers, block: nat): Headers
    requires block in hdr && hdr[block].next in hdr
  {
    var b := hdr[block];
    var n := hdr[b.next];
    var h1 := hdr[block := b.(size := b.size + 48 + n.size, next := n.next)];
    if n.next != 0 && n.next in h1 then h1[n.next := h1[n.next].(prev := block)] else h1
  }

  /** The headers after that: the bytes of the merged one are payload now. */
  function MergeHeaders(hdr: Headers, block: nat): Headers
    requires block in hdr && hdr[block].next in hdr
  {
    MergeWrites(hdr, block) - {hdr[block].next}
  }

  ghost predicate Merges(bs: seq<Block>, i: nat) {
    i + 1 < |bs| && bs[i + 1].free
  }

  lemma MergeBefore(hdr: Headers, bs: seq<Block>, lo: nat, hi: nat, i: nat, j: nat)
    requires List(hdr, bs, lo, hi) && Merges(bs, i) && j < i
    requires bs[i].addr in hdr && hdr[bs[i].addr].next in hdr
    ensures LinkedAt(MergeHeaders(hdr, bs[i].addr), MergeNext(bs, i), j)
  {
    hide Tiles, OnlyBlocks;
    var ms := MergeNext(bs, i);
    assert LinkedAt(hdr, bs, i) && LinkedAt(hdr, bs, i + 1) && LinkedAt(hdr, bs, j);
    AddrLess(bs, lo, hi, j, i);
    AddrLess(bs, lo, hi, j, i + 1);
    if i + 2 < |bs| { AddrLess(bs, lo, hi, j, i + 2); }
    assert ms[j] == bs[j] && ms[j + 1].addr == bs[j + 1].addr;
  }

  lemma MergeHere(hdr: Headers, bs: seq<Block>, lo: nat, hi: nat, i: nat)
    requires List(hdr, bs, lo, hi) && Merges(bs, i)
    requires bs[i].addr in hdr && hdr[bs[i].addr].next in hdr
    ensures LinkedAt(MergeHeaders(hdr, bs[i].addr), MergeNext(bs, i), i)
  {
    hide MergeNext, Tiles, OnlyBlocks;
    MergedHere(bs, i);
    assert LinkedAt(hdr, bs, i) && LinkedAt(hdr, bs, i + 1);
    AddrLess(bs, lo, hi, i, i + 1);
    if i + 2 < |bs| { AddrLess(bs, lo, hi, i, i + 2); }
  }

  lemma MergedHere(bs: seq<Block>, i: nat)
    requires Merges(bs, i)
    ensures var ms := MergeNext(bs, i);
            && |ms| == |bs| - 1 && ms[i] == Block(bs[i].addr, bs[i].size + 48 + bs[i + 1].size, bs[i].free)
            && PrevOf(ms, i) == PrevOf(bs, i) && NextOf(ms, i) == NextOf(bs, i + 1)
  {
  }

  lemma MergeNeighbour(hdr: Headers, bs: seq<Block>, lo: nat, hi: nat, i: nat)
    requires List(hdr, bs, lo, hi) && Merges(bs, i) && i + 2 < |bs|
    requires bs[i].addr in hdr && hdr[bs[i].addr].next in hdr
    ensures LinkedAt(MergeHeaders(hdr, bs[i].addr), MergeNext(bs, i), i + 1)
  {
    var ms := MergeNext(bs, i);
    assert LinkedAt(hdr, bs, i) && LinkedAt(hdr, bs, i + 1) && LinkedAt(hdr, bs, i + 2);
    AddrLess(bs, lo, hi, i, i + 2);
    AddrLess(bs, lo, hi, i + 1, i + 2);
    assert ms[i + 1] == bs[i + 2] && ms[i].addr == bs[i].addr;
    assert i + 3 < |bs| ==> ms[i + 2] == bs[i + 3];
  }

  lemma MergedIndex(bs: seq<Block>, i: nat, j: nat)
    requires Merges(bs, i) && i + 1 < j < |bs|
    ensures |MergeNext(bs, i)| == |bs| - 1 && MergeNext(bs, i)[j - 1] == bs[j]
  {
  }

  lemma MergeAfter(hdr: Headers, bs: seq<Block>, lo: nat, hi: nat, i: nat, j: nat)
    requires List(hdr, bs, lo, hi) && Merges(bs, i) && i + 2 < j < |bs|
    requires bs[i].addr in hdr && hdr[bs[i].addr].next in hdr
    ensures LinkedAt(MergeHeaders(hdr, bs[i].addr), MergeNext(bs, i), j - 1)
  {
    hide MergeNext, Tiles, OnlyBlocks;
    var ms := MergeNext(bs, i);
    assert LinkedAt(hdr, bs, i) && LinkedAt(hdr, bs, i + 1) && LinkedAt(hdr, bs, j);
    AddrLess(bs, lo, hi, i, j);
    AddrLess(bs, lo, hi, i + 1, j);
    AddrLess(bs, lo, hi, i + 2, j);
    MergedIndex(bs, i, j);
    MergedIndex(bs, i, j - 1);
    if j + 1 < |bs| { MergedIndex(bs, i, j + 1); }
    assert PrevOf(ms, j - 1) == PrevOf(bs, j) && NextOf(ms, j - 1) == NextOf(bs, j);
  }

  lemma MergedHasAddr(bs: seq<Block>, i: nat, k: nat)
    requires Merges(bs, i) && k < |bs| && k != i + 1
    ensures HasAddr(MergeNext(bs, i), bs[k].addr)
  {
    assert MergeNext(bs, i)[if k <= i then k else k - 1].addr == bs[k].addr;
  }

  lemma MergeOnly(hdr: Headers, bs: seq<Block>, lo: nat, hi: nat, i: nat, a: nat)
    requires List(hdr, bs, lo, hi) && Merges(bs, i)
    requires bs[i].addr in hdr && hdr[bs[i].addr].next in hdr
    requires a in MergeHeaders(hdr, bs[i].addr)
    ensures HasAddr(MergeNext(bs, i), a)
  {
    hide MergeNext, Tiles;
    assert LinkedAt(hdr, bs, i) && LinkedAt(hdr, bs, i + 1);
    assert a in hdr && a != bs[i + 1].addr;
    var k :| 0 <= k < |bs| && bs[k].addr == a;
    MergedHasAddr(bs, i, k);
  }

  lemma MergeList(hdr: Headers, bs: seq<Block>, lo: nat, hi: nat, i: nat)
    requires List(hdr, bs, lo, hi) && Merges(bs, i)
    ensures bs[i].addr in hdr && hdr[bs[i].addr].next in hdr
    ensures List(MergeHeaders(hdr, bs[i].addr), MergeNext(bs, i), lo, hi)
  {
    assert LinkedAt(hdr, bs, i) && LinkedAt(hdr, bs, i + 1);
    MergeTiles(bs, lo, hi, i);
    var ms, h := MergeNext(bs, i), MergeHeaders(hdr, bs[i].addr);
    forall j: nat | j < |ms| ensures LinkedAt(h, ms, j) {
      if j < i {
        MergeBefore(hdr, bs, lo, hi, i, j);
      } else if j == i {
        MergeHere(hdr, bs, lo, hi, i);
      } else if j == i + 1 {
        MergeNeighbour(hdr, bs, lo, hi, i);
      } else {
        MergeAfter(hdr, bs, lo, hi, i, j + 1);
      }
    }
    forall a | a in h ensures HasAddr(ms, a) { MergeOnly(hdr, bs, lo, hi, i, a); }
  }

  /** What the header of block `i` tells of the block after it. */
  lemma NextFacts(hdr: Headers, bs: seq<Block>, lo: nat, hi: nat, i: nat)
    requires List(hdr, bs, lo, hi) && i < |bs|
    ensures LinkedAt(hdr, bs, i) && (NextOf(bs, i) == 0 <==> i + 1 == |bs|)
    ensures i + 1 < |bs| ==> LinkedAt(hdr, bs, i + 1) && (Merges(bs, i) <==> hdr[NextOf(bs, i)].free)
  {
    assert LinkedAt(hdr, bs, i);
    assert i + 1 < |bs| ==> LinkedAt(hdr, bs, i + 1);
    NoneNull(bs, lo, hi);
  }

  // ---------- other writes ----------

  lemma SetFreeLinkedAt(hdr: Headers, bs: seq<Block>, lo: nat, hi: nat, i: nat, free: bool, j: nat)
    requires List(hdr, bs, lo, hi) && i < |bs| && j < |bs| && bs[i].addr in hdr
    ensures LinkedAt(hdr[bs[i].addr := hdr[bs[i].addr].(free := free)], SetFree(bs, i, free), j)
  {
    var fs := SetFree(bs, i, free);
    assert LinkedAt(hdr, bs, j);
    AddrLess(bs, lo, hi, i, j);
    assert PrevOf(fs, j) == PrevOf(bs, j) && NextOf(fs, j) == NextOf(bs, j);
  }

  lemma SetFreeOnly(hdr: Headers, bs: seq<Block>, i: nat, free: bool, a: nat)
    requires OnlyBlocks(hdr, bs) && i < |bs| && a in hdr
    ensures HasAddr(SetFree(bs, i, free), a)
  {
    var k :| 0 <= k < |bs| && bs[k].addr == a;
    assert SetFree(bs, i, free)[k].addr == a;
  }

  lemma SetFreeList(hdr: Headers, bs: seq<Block>, lo: nat, hi: nat, i: nat, free: bool)
    requires List(hdr, bs, lo, hi) && i < |bs|
    ensures bs[i].addr in hdr
    ensures List(hdr[bs[i].addr := hdr[bs[i].addr].(free := free)], SetFree(bs, i, free), lo, hi)
  {
    assert LinkedAt(hdr, bs, i);
    var fs, h := SetFree(bs, i, free), hdr[bs[i].addr := hdr[bs[i].addr].(free := free)];
    forall j: nat | j < |fs| ensures LinkedAt(h, fs, j) { SetFreeLinkedAt(hdr, bs, lo, hi, i, free, j); }
    forall a | a in h ensures HasAddr(fs, a) { SetFreeOnly(hdr, bs, i, free, a); }
  }

  /** The header writes that append the block of a new region after the last one. */
  function AppendHeaders(hdr: Headers, last: nat, end: nat, size: nat): Headers
    requires last in hdr
  {
    var h1 := hdr[end := Header(MAGIC, size, true, 0, 0)];
    var h2 := h1[last := h1[last].(next := end)];
    h2[end := h2[end].(prev := last)]
  }

  lemma AppendLinkedAt(hdr: Headers, bs: seq<Block>, lo: nat, hi: nat, size: nat, j: nat)
    requires List(hdr, bs, lo, hi) && j <= |bs| && bs[|bs| - 1].addr in hdr
    ensures LinkedAt(AppendHeaders(hdr, bs[|bs| - 1].addr, hi, size), bs + [Block(hi, size, true)], j)
  {
    var gs := bs + [Block(hi, size, true)];
    var n := |bs| - 1;
    assert LinkedAt(hdr, bs, n);
    TilesInside(bs, lo, hi, n);
    if j < |bs| {
      assert LinkedAt(hdr, bs, j);
      TilesInside(bs, lo, hi, j);
      AddrLess(bs, lo, hi, j, n);
      assert gs[j] == bs[j];
    }
  }

  lemma AppendList(hdr: Headers, bs: seq<Block>, lo: nat, hi: nat, size: nat)
    requires List(hdr, bs, lo, hi)
    ensures bs[|bs| - 1].addr in hdr
    ensures List(AppendHeaders(hdr, bs[|bs| - 1].addr, hi, size), bs + [Block(hi, size, true)], lo, hi + 48 + size)
  {
    assert LinkedAt(hdr, bs, |bs| - 1);
    var gs, h := bs + [Block(hi, size, true)], AppendHeaders(hdr, bs[|bs| - 1].addr, hi, size);
    forall j: nat | j < |gs| ensures LinkedAt(h, gs, j) { AppendLinkedAt(hdr, bs, lo, hi, size, j); }
    TilesInside(bs, lo, hi, |bs| - 1);
    forall a | a in h ensures HasAddr(gs, a) {
      if a == hi {
        assert gs[|bs|].addr == a;
      } else {
        assert a in hdr;
        var k :| 0 <= k < |bs| && bs[k].addr == a;
        assert gs[k].addr == a;
      }
    }
  }

  // ---------- freeing what is no block ----------

  /** The bytes of a header that `kfree` takes for an allocation. */
  predicate ReadsUsed(h: Header) {
    h.magic == MAGIC && !h.free
  }

  /** `heap_coalesce_with_next` on headers anywhere in memory. */
  function CoalesceWrites(hdr: Headers, block: nat): Headers
    requires block in hdr
  {
    var next := hdr[block].next;
    if next == 0 || next !in hdr || hdr[next].magic != MAGIC || !hdr[next].free then hdr
    else MergeWrites(hdr, block)
  }

  /** `kfree` of the pointer behind the header at `block`, on headers anywhere in memory. */
  function KfreeWrites(hdr: Headers, block: nat): Headers
    requires block in hdr
  {
    if !ReadsUsed(hdr[block]) then hdr
    else
      var h1 := CoalesceWrites(hdr[block := hdr[block].(free := true)], block);
      var prev := h1[block].prev;
      if prev == 0 || prev !in h1 || !h1[prev].free then h1 else CoalesceWrites(h1, prev)
  }

  lemma CoalesceKeepsFree(hdr: Headers, block: nat, a: nat)
    requires block in hdr && a in hdr
    ensures a in CoalesceWrites(hdr, block) && CoalesceWrites(hdr, block)[a].free == hdr[a].free
  {
  }

  /** A pointer that is no allocation is ignored if and only if the bytes before it do not read as the header
      of one. */
  lemma ForeignIgnored(hdr: Headers, block: nat)
    requires block in hdr
    ensures KfreeWrites(hdr, block) == hdr <==> !ReadsUsed(hdr[block])
  {
    if ReadsUsed(hdr[block]) {
      var h0 := hdr[block := hdr[block].(free := true)];
      CoalesceKeepsFree(h0, block, block);
      var h1 := CoalesceWrites(h0, block);
      var prev := h1[block].prev;
      if prev in h1 { CoalesceKeepsFree(h1, prev, block); }
      assert KfreeWrites(hdr, block)[block].free;
    }
  }

  /** Otherwise the list itself may break: payload bytes that read as a used header whose `next` is a free
      block make the block behind that one point back into the payload. */
  lemma ForgedHeaderBreaksList(hdr: Headers, bs: seq<Block>, lo: nat, hi: nat, a: nat, j: nat)
    requires List(hdr, bs, lo, hi) && a > 0 && !HasAddr(bs, a) && j + 1 < |bs| && bs[j].free
    ensures var forged := Header(MAGIC, 0, false, 0, bs[j].addr);
            a !in hdr && !Linked(KfreeWrites(hdr[a := forged], a), bs)
  {
    var h0 := hdr[a := Header(MAGIC, 0, true, 0, bs[j].addr)];
    assert LinkedAt(hdr, bs, j) && LinkedAt(hdr, bs, j + 1);
    NoneNull(bs, lo, hi);
    var y := bs[j + 1].addr;
    assert y != a && bs[j].addr != a;
    var h1 := CoalesceWrites(h0, a);
    assert h1[y].prev == a;
    assert hdr[a := Header(MAGIC, 0, false, 0, bs[j].addr)][a := Header(MAGIC, 0, true, 0, bs[j].addr)] == h0;
    assert !LinkedAt(h1, bs, j + 1);
  }

  // ---------- freeing a block ----------

  /** The headers `w` are those of `hdr` and perhaps others. */
  ghost predicate Extends(w: Headers, hdr: Headers) {
    Whole(ExtendsParts(w, hdr))
  }

  ghost predicate ExtendsParts(w: Headers, hdr: Headers) {
    forall a :: a in hdr ==> a in w && w[a] == hdr[a]
  }

  lemma ExtendsRefl(hdr: Headers)
    ensures Extends(hdr, hdr)
  {
  }

  lemma MergeExtends(hdr: Headers, w: Headers, block: nat)
    requires Extends(w, hdr) && block in hdr && hdr[block].next in hdr
    requires var last := hdr[hdr[block].next].next; last == 0 || last in hdr
    ensures block in w && w[block].next in w && Extends(MergeWrites(w, block), MergeHeaders(hdr, block))
  {
  }

  /** `heap_coalesce_with_next` on memory that holds the headers of a list and others. */
  lemma CoalesceExtends(hdr: Headers, w: Headers, bs: seq<Block>, lo: nat, hi: nat, i: nat) returns (h: Headers)
    requires List(hdr, bs, lo, hi) && Extends(w, hdr) && i < |bs|
    ensures List(h, MergeNext(bs, i), lo, hi)
    ensures bs[i].addr in w && Extends(CoalesceWrites(w, bs[i].addr), h)
  {
    hide List, MergeWrites, MergeHeaders;
    NextFacts(hdr, bs, lo, hi, i);
    h := hdr;
    if Merges(bs, i) {
      NextFacts(hdr, bs, lo, hi, i + 1);
      assert i + 2 < |bs| ==> LinkedAt(hdr, bs, i + 2);
      MergeList(hdr, bs, lo, hi, i);
      MergeExtends(hdr, w, bs[i].addr);
      h := MergeHeaders(hdr, bs[i].addr);
    }
  }

  /** A list has one set of headers. */
  lemma HeadersUnique(h: Headers, h': Headers, bs: seq<Block>)
    requires Linked(h, bs) && OnlyBlocks(h, bs) && Linked(h', bs) && OnlyBlocks(h', bs)
    ensures h == h'
  {
    SameHeaders(h, h', bs);
    SameHeaders(h', h, bs);
  }

  lemma SameHeaders(h: Headers, h': Headers, bs: seq<Block>)
    requires Linked(h, bs) && OnlyBlocks(h, bs) && Linked(h', bs)
    ensures forall a :: a in h ==> a in h' && h'[a] == h[a]
  {
    forall a | a in h ensures a in h' && h'[a] == h[a] {
      var i :| 0 <= i < |bs| && bs[i].addr == a;
      assert LinkedAt(h, bs, i) && LinkedAt(h', bs, i);
    }
  }

  /** What the header of block `i` tells of the block before it. */
  lemma PrevFacts(hdr: Headers, bs: seq<Block>, lo: nat, hi: nat, i: nat)
    requires List(hdr, bs, lo, hi) && i < |bs|
    ensures LinkedAt(hdr, bs, i) && (PrevOf(bs, i) == 0 <==> i == 0)
    ensures i > 0 ==> LinkedAt(hdr, bs, i - 1)
  {
    assert LinkedAt(hdr, bs, i);
    assert i > 0 ==> LinkedAt(hdr, bs, i - 1);
    NoneNull(bs, lo, hi);
  }

  /** The writes of `kfree` on a block in use leave the headers of the released list where its blocks are. */
  lemma KfreeReleases(hdr: Headers, bs: seq<Block>, lo: nat, hi: nat, i: nat, h': Headers)
    requires List(hdr, bs, lo, hi) && i < |bs| && !bs[i].free && List(h', Release(bs, i), lo, hi)
    ensures bs[i].addr in hdr && Extends(KfreeWrites(hdr, bs[i].addr), h')
  {
    hide List, CoalesceWrites, MergeNext;
    var block := bs[i].addr;
    NextFacts(hdr, bs, lo, hi, i);
    MergedAt(SetFree(bs, i, true), i);
    SetFreeList(hdr, bs, lo, hi, i, true);
    var h0, fs := hdr[block := hdr[block].(free := true)], SetFree(bs, i, true);
    var w, m := CoalesceWrites(h0, block), MergeNext(fs, i);
    var h1 := CoalesceExtends(h0, h0, fs, lo, hi, i);
    PrevFacts(h1, m, lo, hi, i);
    assert w[block].prev == PrevOf(m, i);
    if i > 0 && m[i - 1].free { h1 := CoalesceExtends(h1, w, m, lo, hi, i - 1); }
    UniqueList(h', h1, Release(bs, i), lo, hi);
  }

  lemma MergedAt(bs: seq<Block>, i: nat)
    requires i < |bs|
    ensures i < |MergeNext(bs, i)| && MergeNext(bs, i)[i].addr == bs[i].addr
  {
  }

  lemma UniqueList(h: Headers, h': Headers, bs: seq<Block>, lo: nat, hi: nat)
    requires List(h, bs, lo, hi) && List(h', bs, lo, hi)
    ensures h == h'
  {
    HeadersUnique(h, h', bs);
  }
}
