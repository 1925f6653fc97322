/** The Multiboot2 memory map as kernel/pmm.c walks it, and the search for a free region in it. */
module MemoryMap {
  import opened Utils

  const MIN_USABLE_ADDR: nat := 0x100000

  /** Below this no sum of an address and the size of the bitmap leaves 64 bits. */
  const ADDR_LIMIT: nat := 0x8000_0000_0000_0000

  const AVAILABLE: nat := 1
  const FIRST_ENTRY: nat := 16
  const ENTRY_BYTES: nat := 24

  datatype Range = Range(start: nat, end: nat)

  datatype MmapEntry = MmapEntry(addr: nat, len: nat, kind: nat) {
    /** No sum the walk forms on this entry leaves 64 bits. */
    predicate Fits() {
      addr + len <= ADDR_LIMIT
    }

    predicate Usable()
      requires Fits()
    {
      kind == AVAILABLE && Lo() < Hi()
    }

    function Lo(): (r: nat)
      requires Fits()
      ensures r % PAGE_SIZE == 0 && r >= MIN_USABLE_ADDR
      ensures addr <= r
      ensures forall x: nat :: x % PAGE_SIZE == 0 ==> (r <= x <==> addr <= x && MIN_USABLE_ADDR <= x)
    {
      PageUp(MaxU64(addr, MIN_USABLE_ADDR))
    }

    function Hi(): (r: nat)
      requires Fits()
      ensures r % PAGE_SIZE == 0
      ensures forall x: nat :: x % PAGE_SIZE == 0 ==> (x <= r <==> x <= addr + len)
    {
      PageDown(addr + len)
    }
  }

  /** A memory-map tag: `entry(o)` is the record decoded at byte offset `o` of the tag. */
  datatype MmapTag = MmapTag(size: nat, entrySize: nat, entry: nat -> MmapEntry) {
    ghost function EntriesFrom(offset: nat): seq<MmapEntry>
      requires entrySize > 0
      decreases size - offset
    {
      if offset + ENTRY_BYTES <= size then [entry(offset)] + EntriesFrom(offset + entrySize) else []
    }

    ghost function Entries(): seq<MmapEntry>
      requires entrySize > 0
    {
      EntriesFrom(FIRST_ENTRY)
    }

    ghost predicate Readable() {
      entrySize > 0 && forall e :: e in Entries() ==> e.Fits()
    }
  }

  /** Frame `f` lies wholly inside [start, end). */
  predicate InsideRange(f: nat, start: nat, end: nat) {
    start <= PAGE_SIZE * f && PAGE_SIZE * f + PAGE_SIZE <= end
  }

  /** The range ends where its hull of pages, and a bitmap behind it, stay within 64 bits. */
  predicate Representable(r: Range) {
    r.start < U64_LIMIT && r.end <= ADDR_LIMIT
  }

  /** Frame `f` meets the page hull of [start, end). */
  predicate TouchesHull(f: nat, start: nat, end: nat)
    requires start < U64_LIMIT && end + PAGE_SIZE <= U64_LIMIT
  {
    PageDown(start) <= PAGE_SIZE * f < PageUp(end)
  }

  lemma HullIdempotent(r: Range)
    requires Representable(r)
    ensures PageDown(PageDown(r.start)) == PageDown(r.start) && PageUp(PageUp(r.end)) == PageUp(r.end)
  {
  }

  /** The ranges the bitmap must not be placed on. */
  function BootReserves(kernel: Range, info: Range): seq<Range>
    requires Representable(kernel) && Representable(info)
  {
    [Range(0, MIN_USABLE_ADDR),
     Range(PageDown(kernel.start), PageUp(kernel.end)),
     Range(PageDown(info.start), PageUp(info.end))]
  }

  /** Frame `f` lies wholly inside an available entry, at or above 1 MiB. */
  predicate InEntry(e: MmapEntry, f: nat) {
    e.kind == 1 && e.addr <= 4096 * f && 4096 * f + 4096 <= e.addr + e.len && 0x10_0000 <= 4096 * f
  }

  /** Rounding an available entry inwards to pages keeps exactly the frames inside it. */
  lemma EntryRange(e: MmapEntry)
    requires e.Fits() && e.kind == AVAILABLE
    ensures forall f: nat :: InsideRange(f, e.Lo(), e.Hi()) <==> InEntry(e, f)
  {
  }

  ghost predicate Available(es: seq<MmapEntry>, f: nat) {
    exists k :: 0 <= k < |es| && InEntry(es[k], f)
  }

  lemma AvailableSnoc(es: seq<MmapEntry>, e: MmapEntry)
    ensures forall f: nat :: Available(es + [e], f) <==> Available(es, f) || InEntry(e, f)
  {
    forall f: nat
      ensures Available(es + [e], f) <==> Available(es, f) || InEntry(e, f)
    {
      var s := es + [e];
      if Available(es, f) {
        var k :| 0 <= k < |es| && InEntry(es[k], f);
        assert InEntry(s[k], f);
      }
      if InEntry(e, f) {
        assert InEntry(s[|es|], f);
      }
    }
  }

  lemma NullFrameNotAvailable(es: seq<MmapEntry>)
    ensures !Available(es, 0)
  {
  }

  /** Bytes reserved for a bitmap of `frames` bits. */
  function BitmapBytes(frames: nat): (n: nat)
    requires frames <= U64_LIMIT / PAGE_SIZE
    ensures n % PAGE_SIZE == 0 && frames <= 8 * n && n + 3 * PAGE_SIZE <= ADDR_LIMIT
    ensures n < (frames + 7) / 8 + 4096
  {
    PageUp((frames + 7) / 8)
  }

  /** `max` is the highest page-aligned end of a usable entry, or 0 when there is none. */
  ghost predicate TopOf(es: seq<MmapEntry>, max: nat)
    requires forall e :: e in es ==> e.Fits()
  {
    && (forall e :: e in es && e.Usable() ==> e.Hi() <= max)
    && (max == 0 || exists e :: e in es && e.Usable() && e.Hi() == max)
  }

  method FindMaxUsableAddr(tag: MmapTag) returns (max: nat)
    requires tag.Readable()
    ensures max % PAGE_SIZE == 0 && max < U64_LIMIT && TopOf(tag.Entries(), max)
  {
    max := 0;
    var offset := FIRST_ENTRY;
    ghost var seen: seq<MmapEntry> := [];
    while offset + ENTRY_BYTES <= tag.size
      invariant FIRST_ENTRY <= offset
      invariant seen + tag.EntriesFrom(offset) == tag.Entries()
      invariant max % PAGE_SIZE == 0 && max < U64_LIMIT
      invariant forall e :: e in seen && e.Usable() ==> e.Hi() <= max
      invariant max == 0 || exists e :: e in tag.Entries() && e.Usable() && e.Hi() == max
    {
      var e := tag.entry(offset);
      assert tag.EntriesFrom(offset)[0] == e;
      assert e in tag.Entries();
      if e.kind == AVAILABLE && e.Lo() < e.Hi() && e.Hi() > max {
        max := e.Hi();
      }
      seen := seen + [e];
      offset := offset + tag.entrySize;
    }
    assert seen == tag.Entries();
  }

  /** Every available frame lies below the highest usable address. */
  lemma AvailableBelowMax(es: seq<MmapEntry>, max: nat, f: nat)
    requires forall e :: e in es ==> e.Fits()
    requires forall e :: e in es && e.Usable() ==> e.Hi() <= max
    requires Available(es, f)
    ensures PAGE_SIZE * f + PAGE_SIZE <= max
  {
    var k :| 0 <= k < |es| && InEntry(es[k], f);
    EntryRange(es[k]);
    assert InsideRange(f, es[k].Lo(), es[k].Hi());
    assert es[k] in es && es[k].Usable();
  }

  /** A page-aligned address where `size` bytes fit between `lo` and `hi` and miss every reserved range. */
  ghost predicate Placement(lo: nat, hi: nat, reserves: seq<Range>, size: nat, c: nat) {
    && c % PAGE_SIZE == 0
    && lo <= c && c + size <= hi
    && Clear(reserves, size, c)
  }

  ghost predicate Clear(reserves: seq<Range>, size: nat, c: nat) {
    forall i :: 0 <= i < |reserves| ==> !RangesOverlap(c, c + size, reserves[i].start, reserves[i].end)
  }

  /** A byte below 1 MiB or on a page of the kernel or of the boot information. */
  predicate Reserved(kernel: Range, info: Range, a: nat)
    requires Representable(kernel) && Representable(info)
  {
    || a < 0x10_0000 || PageDown(kernel.start) <= a < PageUp(kernel.end)
    || PageDown(info.start) <= a < PageUp(info.end)
  }

  /** What the bitmap is kept clear of. */
  lemma ReservesMean(kernel: Range, info: Range, size: nat, c: nat)
    requires Representable(kernel) && Representable(info)
    ensures Clear(BootReserves(kernel, info), size, c) <==>
            forall a: nat :: c <= a < c + size ==> !Reserved(kernel, info, a)
  {
    var rs := BootReserves(kernel, info);
    hide PageUp, PageDown, Reserved, RangesOverlap;
    forall i: nat | i < 3
      ensures RangesOverlap(c, c + size, rs[i].start, rs[i].end) <==>
              exists a: nat :: c <= a < c + size && InReserve(kernel, info, i, a)
    {
      OverlapReserved(kernel, info, size, c, i);
    }
    forall a: nat ensures Reserved(kernel, info, a) <==> exists i: nat :: i < 3 && InReserve(kernel, info, i, a) {
      ReservedBy(kernel, info, a);
    }
    hide InReserve;
    if exists a: nat :: c <= a < c + size && Reserved(kernel, info, a) {
      var a: nat :| c <= a < c + size && Reserved(kernel, info, a);
      var i: nat :| i < 3 && InReserve(kernel, info, i, a);
      assert RangesOverlap(c, c + size, rs[i].start, rs[i].end);
    } else {
      forall i: nat | i < 3 ensures !RangesOverlap(c, c + size, rs[i].start, rs[i].end) {
        assert forall a: nat :: InReserve(kernel, info, i, a) ==> Reserved(kernel, info, a);
      }
    }
  }

  predicate InReserve(kernel: Range, info: Range, i: nat, a: nat)
    requires Representable(kernel) && Representable(info) && i < 3
  {
    BootReserves(kernel, info)[i].start <= a < BootReserves(kernel, info)[i].end
  }

  lemma ReservedBy(kernel: Range, info: Range, a: nat)
    requires Representable(kernel) && Representable(info)
    ensures Reserved(kernel, info, a) <==> exists i: nat :: i < 3 && InReserve(kernel, info, i, a)
  {
    hide PageUp, PageDown;
    assert Reserved(kernel, info, a) <==>
           InReserve(kernel, info, 0, a) || InReserve(kernel, info, 1, a) || InReserve(kernel, info, 2, a);
  }

  lemma OverlapReserved(kernel: Range, info: Range, size: nat, c: nat, i: nat)
    requires Representable(kernel) && Representable(info) && i < 3
    ensures var r := BootReserves(kernel, info)[i];
            RangesOverlap(c, c + size, r.start, r.end) <==>
            exists a: nat :: c <= a < c + size && InReserve(kernel, info, i, a)
  {
    hide PageUp, PageDown;
    var r := BootReserves(kernel, info)[i];
    if RangesOverlap(c, c + size, r.start, r.end) {
      assert InReserve(kernel, info, i, MaxU64(c, r.start));
    }
  }

  /** Any page-aligned address from a colliding one up to the end of the range it meets collides too. */
  lemma JumpSkipsNothing(r: Range, size: nat, cursor: nat, c: nat)
    requires r.end + PAGE_SIZE <= U64_LIMIT
    requires RangesOverlap(cursor, cursor + size, r.start, r.end)
    requires c % PAGE_SIZE == 0 && cursor <= c < PageUp(r.end)
    ensures RangesOverlap(c, c + size, r.start, r.end)
  {
  }

  /** The first reserved range that an area of `size` bytes at `cursor` meets. */
  method FirstCollision(reserves: seq<Range>, size: nat, cursor: nat) returns (i: nat)
    ensures i <= |reserves|
    ensures i == |reserves| <==> Clear(reserves, size, cursor)
    ensures i < |reserves| ==> RangesOverlap(cursor, cursor + size, reserves[i].start, reserves[i].end)
  {
    i := 0;
    while i < |reserves|
      invariant i <= |reserves|
      invariant forall j :: 0 <= j < i ==>
                  !RangesOverlap(cursor, cursor + size, reserves[j].start, reserves[j].end)
    {
      if RangesOverlap(cursor, cursor + size, reserves[i].start, reserves[i].end) {
        return;
      }
      i := i + 1;
    }
  }

  /** The lowest placement between `lo` and `hi`, found by jumping past colliding ranges; 0 if none. */
  method LowestPlacement(lo: nat, hi: nat, reserves: seq<Range>, size: nat) returns (c: nat)
    requires 0 < lo && lo % PAGE_SIZE == 0 && lo + size < U64_LIMIT
    requires forall r :: r in reserves ==> r.end + size + 2 * PAGE_SIZE <= U64_LIMIT
    ensures c != 0 ==> Placement(lo, hi, reserves, size, c)
    ensures c != 0 ==> forall x :: lo <= x < c ==> !Placement(lo, hi, reserves, size, x)
    ensures c == 0 ==> forall x: nat :: !Placement(lo, hi, reserves, size, x)
  {
    var cursor := lo;
    while Add64(cursor, size) <= hi
      invariant lo <= cursor && cursor % PAGE_SIZE == 0 && cursor + size < U64_LIMIT
      invariant forall x :: lo <= x < cursor ==> !Placement(lo, hi, reserves, size, x)
      decreases hi - cursor
    {
      var i := FirstCollision(reserves, size, cursor);
      if i == |reserves| {
        return cursor;
      }
      var r := reserves[i];
      var next := PageUp(r.end);
      forall x | cursor <= x < next
        ensures !Placement(lo, hi, reserves, size, x)
      {
        if x % PAGE_SIZE == 0 { JumpSkipsNothing(r, size, cursor, x); }
      }
      cursor := next;
    }
    return 0;
  }

  /** Entry `k` is the first usable one with a placement, and `c` is the lowest placement in it. */
  ghost predicate FirstFit(es: seq<MmapEntry>, reserves: seq<Range>, size: nat, k: nat, c: nat)
    requires forall e :: e in es ==> e.Fits()
  {
    && k < |es| && es[k].Usable()
    && Placement(es[k].Lo(), es[k].Hi(), reserves, size, c)
    && (forall x :: 0 <= x < c ==> !Placement(es[k].Lo(), es[k].Hi(), reserves, size, x))
    && forall j, x: nat :: 0 <= j < k && es[j].Usable() ==>
                             !Placement(es[j].Lo(), es[j].Hi(), reserves, size, x)
  }

  ghost predicate Placed(es: seq<MmapEntry>, reserves: seq<Range>, size: nat, c: nat)
    requires forall e :: e in es ==> e.Fits()
  {
    exists k :: FirstFit(es, reserves, size, k, c)
  }

  ghost predicate NoPlacement(es: seq<MmapEntry>, reserves: seq<Range>, size: nat)
    requires forall e :: e in es ==> e.Fits()
  {
    forall j, x: nat :: 0 <= j < |es| && es[j].Usable() ==>
                          !Placement(es[j].Lo(), es[j].Hi(), reserves, size, x)
  }

  method FindFreeRegion(tag: MmapTag, reserves: seq<Range>, size: nat) returns (c: nat)
    requires tag.Readable()
    requires size + 3 * PAGE_SIZE <= ADDR_LIMIT
    requires forall r :: r in reserves ==> r.end <= ADDR_LIMIT
    ensures c != 0 ==> Placed(tag.Entries(), reserves, PageUp(size), c)
    ensures c == 0 ==> NoPlacement(tag.Entries(), reserves, PageUp(size))
  {
    var sz := PageUp(size);
    var offset := FIRST_ENTRY;
    ghost var es := tag.Entries();
    ghost var n := 0;
    while offset + ENTRY_BYTES <= tag.size
      invariant FIRST_ENTRY <= offset && n <= |es|
      invariant es[n..] == tag.EntriesFrom(offset)
      invariant forall j, x: nat :: 0 <= j < n && es[j].Usable() ==>
                                      !Placement(es[j].Lo(), es[j].Hi(), reserves, sz, x)
    {
      var e := tag.entry(offset);
      assert es[n..][0] == e == es[n];
      if e.kind == AVAILABLE && e.Lo() < e.Hi() {
        c := LowestPlacement(e.Lo(), e.Hi(), reserves, sz);
        if c != 0 {
          assert FirstFit(es, reserves, sz, n, c);
          return;
        }
      }
      assert es[n + 1..] == es[n..][1..];
      n := n + 1;
      offset := offset + tag.entrySize;
    }
    c := 0;
  }

  /** Sizes the bitmap for the memory map and finds room for it; `start` is 0 when there is none. */
  method PlaceBitmap(tag: MmapTag, reserves: seq<Range>) returns (max: nat, start: nat)
    requires tag.Readable()
    requires forall r :: r in reserves ==> r.end <= ADDR_LIMIT
    ensures max % PAGE_SIZE == 0 && max < U64_LIMIT && TopOf(tag.Entries(), max)
    ensures start != 0 ==> Placed(tag.Entries(), reserves, BitmapBytes(max / PAGE_SIZE), start)
    ensures start == 0 ==> NoPlacement(tag.Entries(), reserves, BitmapBytes(max / PAGE_SIZE))
  {
    max := FindMaxUsableAddr(tag);
    var size := BitmapBytes(max / PAGE_SIZE);
    start := FindFreeRegion(tag, reserves, size);
    PageUpAligned(size);
  }

  lemma PlacedClear(es: seq<MmapEntry>, kernel: Range, info: Range, size: nat, c: nat)
    requires Representable(kernel) && Representable(info) && forall e :: e in es ==> e.Fits()
    requires Placed(es, BootReserves(kernel, info), size, c)
    ensures forall a: nat :: c <= a < c + size ==> !Reserved(kernel, info, a)
  {
    hide Clear, BootReserves, Reserved;
    ReservesMean(kernel, info, size, c);
    var k: nat :| FirstFit(es, BootReserves(kernel, info), size, k, c);
  }

  lemma PlacedIsRepresentable(es: seq<MmapEntry>, reserves: seq<Range>, size: nat, c: nat)
    requires forall e :: e in es ==> e.Fits()
    requires Placed(es, reserves, size, c)
    ensures Representable(Range(c, c + size))
  {
    var k: nat :| FirstFit(es, reserves, size, k, c);
    assert FirstFit(es, reserves, size, k, c);
    assert k < |es|;
    assert es[k] in es;
    var hi := es[k].Hi();
    assert c + size <= hi <= ADDR_LIMIT;
  }
}
