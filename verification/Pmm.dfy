/** kernel/pmm.c: the physical frame allocator. A bitmap holds one bit per 4 KiB frame, set when the
    frame is used; `free` is the set of frames whose bit is clear. */
module Pmm {
  import opened Bits
  import opened Utils
  import opened MemoryMap
  import opened Options

  class FrameAllocator {
    var ready: bool
    var bitmap: array<nat>
    var totalFrames: nat
    var freeFrames: nat
    var bitmapStart: nat
    var bitmapEnd: nat
    ghost var free: set<nat>

    predicate Test(frame: nat)
      requires frame / 8 < bitmap.Length
      reads this`bitmap, bitmap
    {
      Bit(bitmap[frame / 8], frame % 8)
    }

    /** The bitmap describes `free`; the free counter is not part of this. */
    ghost predicate Mapped()
      reads this`bitmap, this`totalFrames, this`free, bitmap
    {
      && totalFrames <= 8 * bitmap.Length
      && (forall b :: 0 <= b < bitmap.Length ==> bitmap[b] < 256)
      && (forall f :: f in free ==> f < totalFrames)
      && (forall f {:trigger Test(f)} :: 0 <= f < totalFrames ==> (f in free <==> !Test(f)))
    }

    ghost predicate Valid()
      reads this, bitmap
    {
      Whole(Counted())
    }

    ghost predicate Counted()
      reads this, bitmap
    {
      ready ==> Mapped() && freeFrames == |free|
    }

    constructor ()
      ensures Valid() && !ready && fresh(bitmap)
    {
      ready, totalFrames, freeFrames, free := false, 0, 0, {};
      bitmapStart, bitmapEnd := 0, 0;
      bitmap := new nat[0];
    }

    lemma SetByte(b: nat, k: nat)
      requires b < 256 && k < 8
      ensures Or(b, Pow2(k)) < 256
      ensures forall j :: 0 <= j < 8 ==> Bit(Or(b, Pow2(k)), j) == (Bit(b, j) || j == k)
    {
      Pow2Values();
      Pow2Monotone(k + 1, 8);
      OrBound(b, Pow2(k), 8);
      forall j | 0 <= j < 8
        ensures Bit(Or(b, Pow2(k)), j) == (Bit(b, j) || j == k)
      {
        BitOfOr(b, Pow2(k), j);
        BitOfPow2(k, j);
      }
    }

    lemma ClearByte(b: nat, k: nat)
      requires b < 256 && k < 8
      ensures Pow2(k) < Pow2(8) && And(b, Not(8, Pow2(k))) < 256
      ensures forall j :: 0 <= j < 8 ==> Bit(And(b, Not(8, Pow2(k))), j) == (Bit(b, j) && j != k)
    {
      Pow2Monotone(k + 1, 8);
      var mask := Not(8, Pow2(k));
      AndBound(b, mask);
      forall j | 0 <= j < 8
        ensures Bit(And(b, mask), j) == (Bit(b, j) && j != k)
      {
        BitOfAnd(b, mask, j);
        BitOfNot(8, Pow2(k), j);
        BitOfPow2(k, j);
      }
    }

    method BitmapSet(frame: nat)
      requires Mapped() && frame < totalFrames
      modifies this`free, bitmap
      ensures Mapped() && free == old(free) - {frame}
    {
      SetByte(bitmap[frame / 8], frame % 8);
      bitmap[frame / 8] := Or(bitmap[frame / 8], Pow2(frame % 8));
      free := free - {frame};
      forall f | 0 <= f < totalFrames
        ensures f in free <==> !Test(f)
      {
        assert f == 8 * (f / 8) + f % 8 && frame == 8 * (frame / 8) + frame % 8;
        assert (f in old(free)) <==> !old(Test(f));
      }
    }

    method BitmapClear(frame: nat)
      requires Mapped() && frame < totalFrames
      modifies this`free, bitmap
      ensures Mapped() && free == old(free) + {frame}
    {
      ClearByte(bitmap[frame / 8], frame % 8);
      bitmap[frame / 8] := And(bitmap[frame / 8], Not(8, Pow2(frame % 8)));
      free := free + {frame};
      forall f | 0 <= f < totalFrames
        ensures f in free <==> !Test(f)
      {
        assert f == 8 * (f / 8) + f % 8 && frame == 8 * (frame / 8) + frame % 8;
        assert (f in old(free)) <==> !old(Test(f));
      }
    }

    method AllocFrame() returns (r: nat)
      requires Valid()
      modifies this`free, this`freeFrames, bitmap
      ensures Valid()
      ensures !ready || old(free) == {} ==> r == 0 && free == old(free)
      ensures ready && old(free) != {} ==>
                && r % PAGE_SIZE == 0
                && r / PAGE_SIZE in old(free)
                && (forall f :: f in old(free) ==> r / PAGE_SIZE <= f)
                && free == old(free) - {r / PAGE_SIZE}
      ensures r == 0 <==> !ready || old(free) == {} || 0 in old(free)
    {
      if !ready { return 0; }
      var frame := 0;
      while frame < totalFrames
        invariant frame <= totalFrames
        invariant unchanged(this) && unchanged(bitmap)
        invariant forall f :: 0 <= f < frame ==> f !in free
      {
        if !Test(frame) {
          BitmapSet(frame);
          assert frame in old(free);
          if freeFrames > 0 {
            freeFrames := freeFrames - 1;
          }
          r := frame * PAGE_SIZE;
          assert r / PAGE_SIZE == frame;
          return;
        }
        frame := frame + 1;
      }
      assert free == {};
      return 0;
    }

    method FreeFrame(addr: nat)
      requires Valid()
      modifies this`free, this`freeFrames, bitmap
      ensures Valid()
      ensures free == if ready && addr % PAGE_SIZE == 0 && addr / PAGE_SIZE < totalFrames
                      then old(free) + {addr / PAGE_SIZE} else old(free)
    {
      if !ready { return; }
      if addr % PAGE_SIZE != 0 { return; }
      var frame := addr / PAGE_SIZE;
      if frame >= totalFrames { return; }
      if Test(frame) {
        BitmapClear(frame);
        freeFrames := freeFrames + 1;
      }
    }

    /** Frames that meet the page hull of [start, end) become used. */
    method MarkRangeUsed(start: nat, end: nat)
      requires Mapped() && start < U64_LIMIT && end + PAGE_SIZE <= U64_LIMIT
      modifies this`free, bitmap
      ensures Mapped()
      ensures forall f: nat :: f in free <==> f in old(free) && !TouchesHull(f, start, end)
    {
      var s, e := PageDown(start), PageUp(end);
      if e <= s { return; }
      var firstFrame, lastFrame := s / PAGE_SIZE, e / PAGE_SIZE;
      assert forall f: nat :: TouchesHull(f, start, end) <==> firstFrame <= f < lastFrame;
      if lastFrame > totalFrames { lastFrame := totalFrames; }
      var frame := firstFrame;
      while frame < lastFrame
        invariant firstFrame <= frame && (frame <= lastFrame || frame == firstFrame)
        invariant Mapped()
        invariant forall f: nat :: f in free <==> f in old(free) && !(firstFrame <= f < frame)
      {
        BitmapSet(frame);
        frame := frame + 1;
      }
    }

    /** Frames wholly inside [start, end) become free. */
    method MarkRangeFree(start: nat, end: nat)
      requires Mapped() && start + PAGE_SIZE <= U64_LIMIT && end < U64_LIMIT
      modifies this`free, bitmap
      ensures Mapped()
      ensures forall f: nat :: f in free <==> f in old(free) || (f < totalFrames && InsideRange(f, start, end))
    {
      var s, e := PageUp(start), PageDown(end);
      if e <= s { return; }
      var firstFrame, lastFrame := s / PAGE_SIZE, e / PAGE_SIZE;
      if lastFrame > totalFrames { lastFrame := totalFrames; }
      var frame := firstFrame;
      while frame < lastFrame
        invariant firstFrame <= frame
        invariant Mapped()
        invariant forall f: nat :: f in free <==> f in old(free) || (firstFrame <= f < frame && f < lastFrame)
      {
        BitmapClear(frame);
        frame := frame + 1;
      }
    }

    method RecountFreeFrames()
      requires Mapped()
      modifies this`freeFrames
      ensures Mapped() && freeFrames == |free|
    {
      freeFrames := 0;
      var frame := 0;
      ghost var seen: set<nat> := {};
      while frame < totalFrames
        invariant frame <= totalFrames
        invariant forall f :: f in seen <==> f in free && f < frame
        invariant freeFrames == |seen|
      {
        if !Test(frame) {
          freeFrames := freeFrames + 1;
          seen := seen + {frame};
        }
        frame := frame + 1;
      }
      assert seen == free;
    }

    method MarkAvailableRegionsFree(tag: MmapTag)
      requires Mapped() && free == {} && tag.Readable()
      modifies this`free, bitmap
      ensures Mapped()
      ensures forall f: nat :: f in free <==> f < totalFrames && Available(tag.Entries(), f)
    {
      assert forall f: nat :: !Available([], f);
      hide Available;
      var offset := FIRST_ENTRY;
      ghost var seen: seq<MmapEntry> := [];
      while offset + ENTRY_BYTES <= tag.size
        invariant FIRST_ENTRY <= offset
        invariant Mapped()
        invariant seen + tag.EntriesFrom(offset) == tag.Entries()
        invariant forall f: nat :: f in free <==> f < totalFrames && Available(seen, f)
      {
        var e := tag.entry(offset);
        assert tag.EntriesFrom(offset)[0] == e;
        assert e in tag.Entries();
        if e.kind == AVAILABLE {
          MarkRangeFree(e.Lo(), e.Hi());
          EntryRange(e);
        }
        AvailableSnoc(seen, e);
        seen := seen + [e];
        offset := offset + tag.entrySize;
      }
      assert seen == tag.Entries();
    }

    /** A fresh bitmap of `frames` bits with every frame used. */
    method FillBitmap(frames: nat)
      modifies this`bitmap, this`totalFrames, this`free
      ensures fresh(bitmap) && Mapped() && totalFrames == frames && free == {}
    {
      totalFrames, free := frames, {};
      var bytes := (frames + 7) / 8;
      var bytemap := new nat[bytes];
      var i := 0;
      while i < bytes
        modifies bytemap
        invariant i <= bytes
        invariant forall b :: 0 <= b < i ==> bytemap[b] == 0xFF
      {
        bytemap[i] := 0xFF;
        i := i + 1;
      }
      bitmap := bytemap;
      forall f | 0 <= f < totalFrames
        ensures Test(f)
      {
        assert 0xFF == Not(8, 0) by { Pow2Values(); }
        BitOfNot(8, 0, f % 8);
        BitOfZero(f % 8);
      }
    }

    /** What `Init` leaves free: frames wholly inside an available entry at or above 1 MiB that meet
        none of low memory, the kernel image, the boot information and the bitmap itself. */
    ghost predicate FreeAtBoot(es: seq<MmapEntry>, kernel: Range, info: Range, bits: Range, f: nat)
      requires Representable(kernel) && Representable(info) && Representable(bits)
    {
      && Available(es, f)
      && !TouchesHull(f, 0, 0x10_0000)
      && !TouchesHull(f, kernel.start, kernel.end)
      && !TouchesHull(f, info.start, info.end)
      && !TouchesHull(f, bits.start, bits.end)
    }

    /** Marks the boot memory in a bitmap that covers `max` bytes. */
    method MarkBootMemory(tag: MmapTag, kernel: Range, info: Range, max: nat)
      requires tag.Readable() && Mapped() && free == {} && max % PAGE_SIZE == 0
      requires totalFrames == max / PAGE_SIZE
      requires TopOf(tag.Entries(), max)
      requires Representable(kernel) && Representable(info) && Representable(Range(bitmapStart, bitmapEnd))
      modifies this`free, this`freeFrames, bitmap
      ensures Mapped() && freeFrames == |free|
      ensures forall f: nat :: f in free <==>
                FreeAtBoot(tag.Entries(), kernel, info, Range(bitmapStart, bitmapEnd), f)
    {
      ghost var es := tag.Entries();
      forall f: nat | Available(es, f)
        ensures f < totalFrames
      {
        AvailableBelowMax(es, max, f);
      }
      MarkAvailableRegionsFree(tag);
      assert forall f: nat :: f in free <==> Available(es, f);
      MarkRangeUsed(0, MIN_USABLE_ADDR);
      HullIdempotent(kernel);
      MarkRangeUsed(PageDown(kernel.start), PageUp(kernel.end));
      HullIdempotent(info);
      MarkRangeUsed(PageDown(info.start), PageUp(info.end));
      MarkRangeUsed(bitmapStart, bitmapEnd);
      RecountFreeFrames();
    }

    /** `tag` is None when the boot information holds no memory map. */
    method Init(tag: Option<MmapTag>, kernel: Range, info: Range)
      requires !ready
      requires tag.Some? ==> tag.value.Readable()
      requires Representable(kernel) && Representable(info)
      modifies this
      ensures Valid()
      ensures ready ==> tag.Some? && fresh(bitmap)
      ensures tag.Some? ==> totalFrames <= U64_LIMIT / PAGE_SIZE && TopOf(tag.value.Entries(), PAGE_SIZE * totalFrames)
      ensures ready ==> bitmapEnd == bitmapStart + BitmapBytes(totalFrames)
      ensures ready ==> Representable(Range(bitmapStart, bitmapEnd))
      ensures ready ==> Placed(tag.value.Entries(), BootReserves(kernel, info), BitmapBytes(totalFrames), bitmapStart)
      ensures ready ==> forall a: nat :: bitmapStart <= a < bitmapEnd ==> !Reserved(kernel, info, a)
      ensures ready ==> forall f: nat :: f in free <==>
                FreeAtBoot(tag.value.Entries(), kernel, info, Range(bitmapStart, bitmapEnd), f)
      ensures ready ==> 0 !in free
      ensures tag.Some? && !ready ==>
                NoPlacement(tag.value.Entries(), BootReserves(kernel, info), BitmapBytes(totalFrames))
    {
      hide Placed, NoPlacement, PageUp, PageDown, Available, BitmapBytes, TopOf, TouchesHull, Reserved;
      if tag.None? { return; }
      var mmap := tag.value;
      var max, start := PlaceBitmap(mmap, BootReserves(kernel, info));
      totalFrames, bitmapStart := max / PAGE_SIZE, start;
      if start == 0 { return; }
      PlacedIsRepresentable(mmap.Entries(), BootReserves(kernel, info), BitmapBytes(totalFrames), start);
      PlacedClear(mmap.Entries(), kernel, info, BitmapBytes(totalFrames), start);
      bitmapEnd := start + BitmapBytes(totalFrames);
      FillBitmap(totalFrames);
      MarkBootMemory(mmap, kernel, info, max);
      ready := true;
      NullFrameNotAvailable(mmap.Entries());
    }
  }
}
