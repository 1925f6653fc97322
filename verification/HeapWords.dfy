/** `kmalloc` of kernel/heap.c with its sums taken modulo 2^64, and exactly when they do what is meant. */
module HeapWords {
  import opened Bits
  import opened Utils
  import opened HeapBlocks

  /** The bytes `heap_expand` adds, as it computes them. */
  function WordExpand(size: nat): nat {
    var e := AlignUp(Add64(48, size), 4096);
    if e < HEAP_INITIAL then HEAP_INITIAL else e
  }

  /** The limit test of `heap_expand`. */
  predicate WordRefused(end: nat, size: nat) {
    Add64(end, WordExpand(size)) > HEAP_MAX_END
  }

  /** `kmalloc` on words; `granted` says whether frames for the growth it asks for can be had. */
  function KmallocWords(h: Heap, n: nat, granted: bool): (Heap, nat) {
    if n == 0 then (h, 0)
    else
      var size := AlignUp(n, 16);
      var i := FirstFit(h.blocks, size);
      if i < |h.blocks| then (h.(blocks := Carve(h.blocks, i, size)), h.blocks[i].addr + 48)
      else if WordRefused(h.end, size) || !granted then (h, 0)
      else TakeFirst(WordGrown(h, size), size)
  }

  function WordGrown(h: Heap, size: nat): Heap {
    Heap(Grow(h.blocks, h.end, WordExpand(size) - 48), Add64(h.end, WordExpand(size)))
  }

  /** A growth that does not fit 64 bits becomes the least one. */
  lemma WordExpandIs(size: nat)
    requires size < U64_LIMIT
    ensures WordExpand(size) == if ExpandSize(size) < U64_LIMIT then ExpandSize(size) else HEAP_INITIAL
  {
    hide And, Not;
    var needed := 48 + size;
    if needed + 4096 <= U64_LIMIT {
      PageMasks(needed);
    } else if needed < U64_LIMIT {
      assert Pow2(12) == 4096 by { Pow2Values(); }
      AlignUpWraps(needed, 12);
      assert PageUp(needed) >= U64_LIMIT;
    } else {
      assert Add64(48, size) == needed - U64_LIMIT < 48;
      PageMasks(needed - U64_LIMIT);
    }
  }

  /** The decision of `heap_expand` is the meant one, with the meant size, if and only if `GrowthInWords`. */
  lemma GrowthWords(end: nat, size: nat)
    requires HEAP_START <= end <= HEAP_MAX_END && size < U64_LIMIT
    ensures GrowthInWords(end, size) <==>
            && (WordRefused(end, size) <==> end + ExpandSize(size) > HEAP_MAX_END)
            && (!WordRefused(end, size) ==> WordExpand(size) == ExpandSize(size))
    ensures GrowthInWords(end, size) && !WordRefused(end, size) ==>
              Add64(end, WordExpand(size)) == end + ExpandSize(size)
  {
    hide AlignUp, ExpandSize, WordExpand;
    WordExpandIs(size);
    ExpandAtLeast(size);
  }

  lemma ExpandAtLeast(size: nat)
    ensures ExpandSize(size) >= HEAP_INITIAL > 0
  {
  }

  /** A size near 2^64 fits no block. */
  lemma LargeFitsNowhere(h: Heap, size: nat)
    requires HeapOk(h) && size >= HEAP_MAX_END
    ensures FirstFit(h.blocks, size) == |h.blocks|
  {
    var i := FirstFit(h.blocks, size);
    if i < |h.blocks| { TilesInside(h.blocks, HEAP_START, h.end, i); }
  }

  /** When the heap grows although it should not, it ends elsewhere. */
  lemma GrownEndsElsewhere(h: Heap, size: nat)
    requires HeapOk(h) && size < U64_LIMIT && !WordRefused(h.end, size)
    ensures TakeFirst(WordGrown(h, size), size).0.end == Add64(h.end, WordExpand(size)) != h.end
  {
    hide AlignUp, ExpandSize, WordExpand, Grow, Carve;
    WordExpandIs(size);
    ExpandAtLeast(size);
  }

  lemma EndInside(h: Heap)
    requires HeapOk(h)
    ensures HEAP_START <= h.end <= HEAP_MAX_END
  {
    TilesInside(h.blocks, HEAP_START, h.end, 0);
  }

  /** Where the sums are right both grow alike. */
  lemma MeantGrowth(h: Heap, size: nat)
    requires HEAP_START <= h.end <= HEAP_MAX_END && size < U64_LIMIT
    requires GrowthInWords(h.end, size) && !WordRefused(h.end, size)
    ensures WordGrown(h, size) == Expanded(h, size) && h.end + ExpandSize(size) <= HEAP_MAX_END
  {
    hide AlignUp, ExpandSize, WordExpand, Grow, GrowthInWords, WordRefused;
    GrowthWords(h.end, size);
  }

  /** Requests that no free block holds. */
  lemma GrowingRequest(h: Heap, n: nat)
    requires HeapOk(h) && 0 < n && n + 15 < U64_LIMIT && FirstFit(h.blocks, Rounded(n)) == |h.blocks|
    ensures KmallocWords(h, n, true) == Kmalloc(h, n, true) <==> GrowthInWords(h.end, Rounded(n))
  {
    RoundedIsMask(n);
    EndInside(h);
    var size := Rounded(n);
    GrowthWords(h.end, size);
    if !WordRefused(h.end, size) {
      GrownEndsElsewhere(h, size);
      if GrowthInWords(h.end, size) { MeantGrowth(h, size); }
    }
    hide AlignUp, ExpandSize, WordExpand, Grow, Carve, FirstFit, HeapOk, WordRefused, Rounded;
    if !GrowthInWords(h.end, size) { assert !WordRefused(h.end, size); }
  }

  /** Requests within 15 bytes of 2^64 are rounded to 0. */
  lemma WrappedRequest(h: Heap, n: nat, granted: bool)
    requires HeapOk(h) && n < U64_LIMIT <= n + 15
    ensures Kmalloc(h, n, granted) == (h, 0) && ExpandSize(Rounded(n)) >= U64_LIMIT
    ensures KmallocWords(h, n, granted) == (h, 0) <==>
            && FirstFit(h.blocks, 0) == |h.blocks|
            && (!granted || h.end + HEAP_INITIAL > HEAP_MAX_END)
  {
    RoundedIsMask(n);
    EndInside(h);
    LargeFitsNowhere(h, Rounded(n));
    WordExpandIs(0);
    assert ExpandSize(0) == HEAP_INITIAL;
    if !WordRefused(h.end, 0) { GrownEndsElsewhere(h, 0); }
    hide AlignUp, WordExpand, Grow, Carve, FirstFit, HeapOk, Rounded;
  }

  /** `kmalloc` does what is meant, whatever frames there are, if and only if the request is `Requestable`. */
  lemma RequestableIff(h: Heap, n: nat)
    requires HeapOk(h) && n < U64_LIMIT
    ensures Requestable(h, n) <==> forall granted :: KmallocWords(h, n, granted) == Kmalloc(h, n, granted)
  {
    if n == 0 { return; }
    if n + 15 < U64_LIMIT {
      RoundedIsMask(n);
      if FirstFit(h.blocks, Rounded(n)) == |h.blocks| { GrowingRequest(h, n); }
      hide AlignUp, Grow, Carve, FirstFit, HeapOk, WordRefused, Rounded, GrowthInWords;
      forall granted | !granted || FirstFit(h.blocks, Rounded(n)) < |h.blocks|
        ensures KmallocWords(h, n, granted) == Kmalloc(h, n, granted)
      {
      }
    } else {
      WrappedRequest(h, n, true);
      WrappedRequest(h, n, false);
      LargeFitsNowhere(h, Rounded(n));
      hide KmallocWords, Kmalloc, FirstFit, HeapOk, Rounded, ExpandSize;
    }
  }

  /** The requests of real programs are all right. */
  lemma SmallRequest(h: Heap, n: nat)
    requires h.end + ExpandSize(Rounded(n)) < U64_LIMIT
    ensures Requestable(h, n)
  {
    hide FirstFit;
  }

  /** A request that wraps in `heap_expand`: 2^64 - 32 bytes. The heap grows by 16 KiB and the result is null all
      the same, so that null is no sign of a refused expansion. */
  lemma GrowsForNothing(h: Heap)
    requires HeapOk(h) && h.end + HEAP_INITIAL <= HEAP_MAX_END
    ensures var n := U64_LIMIT - 32;
            && !Requestable(h, n) && KmallocWords(h, n, true).1 == 0
            && KmallocWords(h, n, true).0.end == h.end + HEAP_INITIAL
  {
    var n: nat := U64_LIMIT - 32;
    RoundedIsMask(n);
    assert Rounded(n) == n;
    LargeFitsNowhere(h, n);
    WordExpandIs(n);
    EndInside(h);
    GrownStillSmall(h, n);
    hide AlignUp, WordExpand, Grow, FirstFit, HeapOk, Rounded;
  }

  lemma GrownStillSmall(h: Heap, size: nat)
    requires HeapOk(h) && size >= HEAP_MAX_END && size < U64_LIMIT && ExpandSize(size) >= U64_LIMIT
    requires h.end + HEAP_INITIAL <= HEAP_MAX_END
    ensures TakeFirst(WordGrown(h, size), size) == (WordGrown(h, size), 0)
  {
    WordExpandIs(size);
    PageMultiples(HEAP_INITIAL, h.end);
    GrowWellFormed(h.blocks, HEAP_START, h.end, HEAP_INITIAL - 48);
    LargeFitsNowhere(WordGrown(h, size), size);
  }

  /** A request that wraps in the limit test: the heap would grow to address 0. */
  lemma GrowsPastTheLimit(h: Heap)
    requires HeapOk(h) && h.end == 0x4100_4000
    ensures var n := U64_LIMIT - 0x4100_4030;
            !Requestable(h, n) && h.end + ExpandSize(n) > HEAP_MAX_END && !WordRefused(h.end, n) &&
            Add64(h.end, WordExpand(n)) == 0
  {
    var n: nat := U64_LIMIT - 0x4100_4030;
    assert Rounded(n) == n && ExpandSize(n) == U64_LIMIT - 0x4100_4000;
    WordExpandIs(n);
    LargeFitsNowhere(h, n);
    hide AlignUp, WordExpand, FirstFit, HeapOk, Rounded;
  }

  /** A request that wraps in the rounding: it gets the first free block, whatever its size. */
  lemma GetsAnyBlock(h: Heap, granted: bool)
    requires HeapOk(h) && FirstFit(h.blocks, 0) < |h.blocks|
    ensures var n, i := U64_LIMIT - 8, FirstFit(h.blocks, 0);
            && !Requestable(h, n) && h.blocks[i].size < n
            && KmallocWords(h, n, granted).1 == h.blocks[i].addr + 48
  {
    var n: nat := U64_LIMIT - 8;
    RoundedIsMask(n);
    TilesInside(h.blocks, HEAP_START, h.end, FirstFit(h.blocks, 0));
  }
}
