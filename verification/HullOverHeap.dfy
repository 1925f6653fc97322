/** What unmapping the hull of an image does to the kernel heap (arch/x86_64/user_mode.c). The hull reaches from
    the lowest segment to the highest, whatever lies between them. */
module HullOverHeap {
  import opened Utils
  import opened PageTables
  import opened TableEffects
  import opened PageRanges
  import opened FrameCounts
  import opened Vmm
  import opened UserRanges
  import opened UserImage
  import opened HeapBlocks
  import opened Heap
  import opened HeapBytes
  import opened ImageLoader
  import opened UserLoader

  // ---------- the hull ----------

  /** Header `i` is one of the first `n` and describes a segment. */
  predicate Segment(file: seq<nat>, n: nat, i: int)
    requires ValidElf(file) && n <= PhNum(file)
  {
    0 <= i < n && PhdrAt(file, i).kind == 1 && PhdrAt(file, i).memsz != 0
  }

  /** The first `n` segments pass the checks. */
  ghost predicate FirstAcceptable(file: seq<nat>, n: nat)
    requires ValidElf(file) && n <= PhNum(file)
  {
    forall i :: Segment(file, n, i) ==> Acceptable(PhdrAt(file, i), |file|)
  }

  /** The hull holds every segment. */
  lemma {:induction false} HullHolds(file: seq<nat>, n: nat, i: nat)
    requires ValidElf(file) && n <= PhNum(file) && FirstAcceptable(file, n) && Segment(file, n, i)
    ensures 0 < HullOf(file, n).0 <= 4096 * SegLo(PhdrAt(file, i))
    ensures 4096 * SegHi(PhdrAt(file, i)) <= HullOf(file, n).1
  {
    hide Le, ValidElf, PhdrAt, SegLo, SegHi;
    var ph := PhdrAt(file, n - 1);
    if Loadable(ph) {
      assert Segment(file, n, n - 1);
      SegPages(ph, 0);
    }
    if i < n - 1 {
      assert FirstAcceptable(file, n - 1) by {
        assert forall j :: Segment(file, n - 1, j) ==> Segment(file, n, j);
      }
      HullHolds(file, n - 1, i);
    }
  }

  /** The hull begins with a segment and ends with one, or there is none. */
  lemma {:induction false} HullTight(file: seq<nat>, n: nat) returns (i: nat, j: nat)
    requires ValidElf(file) && n <= PhNum(file)
    ensures HullOf(file, n) == (0, 0) ||
            (&& Segment(file, n, i) && HullOf(file, n).0 == 4096 * SegLo(PhdrAt(file, i))
             && Segment(file, n, j) && HullOf(file, n).1 == 4096 * SegHi(PhdrAt(file, j)))
  {
    hide Le, ValidElf, PhdrAt, SegLo, SegHi;
    i, j := 0, 0;
    if n > 0 {
      i, j := HullTight(file, n - 1);
      var hull, ph := HullOf(file, n - 1), PhdrAt(file, n - 1);
      if Loadable(ph) {
        if HullBegin(hull.0, ph) != hull.0 || hull == (0, 0) { i := n - 1; }
        if HullEnd(hull.1, ph) != hull.1 || hull == (0, 0) { j := n - 1; }
      }
    }
  }

  /** No heap page below `end` is among the pages `a` up to `b`. */
  ghost predicate Misses(a: nat, b: nat, end: nat) {
    forall n: nat :: HEAP_LO <= n < end / 4096 ==> !PageBetween(a, n, b)
  }

  predicate PageBetween(a: nat, n: nat, b: nat) {
    a <= n < b
  }

  /** All segments of the file lie below the heap, or all lie above its mapped part. */
  ghost predicate OneSide(file: seq<nat>, end: nat)
    requires ValidElf(file)
  {
    || (forall i :: Segment(file, PhNum(file), i) ==> SegHi(PhdrAt(file, i)) <= HEAP_LO)
    || (forall i :: Segment(file, PhNum(file), i) ==> end / 4096 <= SegLo(PhdrAt(file, i)))
  }

  /** The hull of a file that passes the checks misses the mapped heap if and only if no segment has the heap
      between itself and another, or under itself. */
  lemma HullMissesHeap(file: seq<nat>, end: nat)
    requires ValidElf(file) && AllAcceptable(file) && HEAP_START < end && end % 4096 == 0
    ensures var hull := HullOf(file, PhNum(file));
            Misses(hull.0 / 4096, hull.1 / 4096, end) <==> OneSide(file, end)
  {
    hide Le, ValidElf, PhdrAt, SegLo, SegHi, HullOf;
    var n := PhNum(file);
    var hull := HullOf(file, n);
    if OneSide(file, end) {
      var i, j := HullTight(file, n);
    } else {
      var i :| Segment(file, n, i) && SegHi(PhdrAt(file, i)) > HEAP_LO;
      var j :| Segment(file, n, j) && SegLo(PhdrAt(file, j)) < end / 4096;
      HullHolds(file, n, i);
      HullHolds(file, n, j);
      SegPages(PhdrAt(file, i), 0);
      var k: nat := if hull.0 / 4096 <= HEAP_LO then HEAP_LO else hull.0 / 4096;
      assert PageBetween(hull.0 / 4096, k, hull.1 / 4096);
    }
  }

  // ---------- the heap ----------

  /** A heap whose pages are all mapped keeps them when the pages `a` up to `b` are unmapped if and only if none
      of them is among those. */
  lemma HeapAfterUnmap(s: Snapshot, s': Snapshot, a: nat, b: nat, end: nat)
    requires Partitioned(s) && Partitioned(s') && RangeCleared(s, s', a, b)
    requires MappedBelow(s, end, {}) && HEAP_START <= end <= HEAP_MAX_END
    ensures MappedBelow(s', end, {}) <==> Misses(a, b, end)
  {
    hide Partitioned;
    if Misses(a, b, end) {
      forall p | InRange(p, HEAP_START / 4096, end / 4096) && p in s'.view ensures s'.view[p].Small? {
        AllShown(s', s, p);
        assert !PageBetween(a, NumOf(p), b);
      }
    } else {
      var n: nat :| HEAP_LO <= n < end / 4096 && PageBetween(a, n, b);
      NumOfNumber(n);
      var p := PageOf(4096 * n);
      AllShown(s, s', p);
      assert InRange(p, HEAP_START / 4096, end / 4096);
      assert s'.view[p].Unmapped?;
    }
  }

  /** The frames of the pages unmapped are free again, those of heap pages too. */
  lemma UnmappedFreed(s: Snapshot, s': Snapshot, a: nat, b: nat, d: nat)
    requires Partitioned(s) && Partitioned(s') && RangeCleared(s, s', a, b) && s'.tables == s.tables
    requires d in s.leaves && InRange(s.leaves[d], a, b)
    ensures d in s'.free
  {
    assert d in Pool(s);
  }

  /** Unmapping the hull of a file leaves the mapped heap in place if and only if the file's segments are all on
      one side of it. */
  lemma UnloadKeepsHeap(file: seq<nat>, s: Snapshot, s': Snapshot, end: nat)
    requires ValidElf(file) && AllAcceptable(file) && Partitioned(s) && Partitioned(s')
    requires RangeCleared(s, s', HullOf(file, PhNum(file)).0 / 4096, HullOf(file, PhNum(file)).1 / 4096)
    requires MappedBelow(s, end, {}) && HEAP_START < end <= HEAP_MAX_END && end % 4096 == 0
    ensures MappedBelow(s', end, {}) <==> OneSide(file, end)
  {
    hide Whole, Le, ValidElf, PhdrAt, HullOf, AllAcceptable, OneSide, Misses;
    var hull := HullOf(file, PhNum(file));
    HullMissesHeap(file, end);
    HeapAfterUnmap(s, s', hull.0 / 4096, hull.1 / 4096, end);
  }

  /** Two segments of one page each, below the heap and above it. */
  const BELOW: Phdr := Phdr(1, 0, 0x4000_0000, 0, 4096)
  const ABOVE: Phdr := Phdr(1, 0, 0x4300_0000, 0, 4096)

  lemma SegmentsApart(file: seq<nat>, end: nat)
    requires ValidElf(file) && Entry(file) == 0x4000_0000 && PhNum(file) == 2
    requires PhdrAt(file, 0) == BELOW && PhdrAt(file, 1) == ABOVE && HEAP_START < end <= HEAP_MAX_END
    ensures Runnable(file) && !OneSide(file, end)
  {
    hide Le, ValidElf, PhdrAt;
    assert Segment(file, 2, 0) && Segment(file, 2, 1);
  }

  lemma TwoHeadersFit()
    ensures Fits(BELOW) && Fits(ABOVE) && 0x4000_0000 < Pow256(8) && 2 < Pow256(2)
  {
    SmallPowers();
    hide Pow256;
  }

  function TwoSegments(): seq<nat> {
    HeaderBytes(0x4000_0000, 64, 2) + [] + PhdrsBytes([BELOW, ABOVE]) + []
  }

  /** A file of these two passes every check, and the heap is between them however far it is mapped. */
  lemma HeapBetweenSegments(end: nat)
    requires HEAP_START < end <= HEAP_MAX_END
    ensures Runnable(TwoSegments()) && !OneSide(TwoSegments(), end)
  {
    hide Le, ValidElf, PhdrAt, HeaderBytes, PhdrsBytes, Pow256, Fits, Runnable, OneSide;
    TwoHeadersFit();
    var phs := [BELOW, ABOVE];
    FileRoundTrip(0x4000_0000, [], phs, [], 0);
    FileRoundTrip(0x4000_0000, [], phs, [], 1);
    SegmentsApart(TwoSegments(), end);
  }
}
