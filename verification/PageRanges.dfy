/** Ranges of virtual pages, and what clearing or filling a range does to the translations and to the
    frames of mapped pages. */
module PageRanges {
  import opened Bits
  import opened Utils
  import opened Options
  import opened Entries
  import opened PageTables
  import opened TableEffects

  predicate WfPage(p: Page) {
    p.i4 < 512 && p.i3 < 512 && p.i2 < 512 && p.i1 < 512
  }

  /** The number of a page: its address divided by 4096. */
  function NumOf(p: Page): nat {
    ((p.i4 * 512 + p.i3) * 512 + p.i2) * 512 + p.i1
  }

  predicate InRange(p: Page, lo: nat, hi: nat) {
    WfPage(p) && lo <= NumOf(p) < hi
  }

  const VA_LIMIT: nat := 0x1_0000_0000_0000
  const PAGE_LIMIT: nat := 0x10_0000_0000

  /** The pages that [start, start + size) meets are numbered from `start / 4096` up to this. */
  function EndPage(start: nat, size: nat): nat {
    if size == 0 then start / 4096 else PageUp(start + size) / 4096
  }

  lemma RangePages(start: nat, size: nat)
    requires size > 0 && start + size < VA_LIMIT
    ensures PageDown(start) / 4096 == start / 4096 <= PageUp(start + size) / 4096 == EndPage(start, size) <= PAGE_LIMIT
  {
  }

  lemma Level2(va: nat)
    ensures va / 0x20_0000 == va / 4096 / 512
  {
  }

  lemma Level3(va: nat)
    ensures va / 0x4000_0000 == va / 0x20_0000 / 512
  {
  }

  lemma Level4(va: nat)
    ensures va / 0x80_0000_0000 == va / 0x4000_0000 / 512
  {
  }

  lemma NumOfPageOf(va: nat)
    requires va < 0x1_0000_0000_0000
    ensures WfPage(PageOf(va)) && NumOf(PageOf(va)) == va / 4096
  {
    Level2(va);
    Level3(va);
    Level4(va);
    var x1, x2, x3 := va / 4096, va / 0x20_0000, va / 0x4000_0000;
    assert x1 == 512 * x2 + x1 % 512;
    assert x2 == 512 * x3 + x2 % 512;
    assert x3 == 512 * (x3 / 512) + x3 % 512;
    assert x3 / 512 < 512;
  }

  lemma NumOfNumber(n: nat)
    requires n < 0x10_0000_0000
    ensures WfPage(PageOf(4096 * n)) && NumOf(PageOf(4096 * n)) == n
  {
    NumOfPageOf(4096 * n);
  }

  lemma SameDigits(x: nat, d: nat, y: nat, e: nat)
    requires d < 512 && e < 512 && x * 512 + d == y * 512 + e
    ensures x == y && d == e
  {
  }

  lemma SameNumber(p: Page, q: Page)
    requires WfPage(p) && WfPage(q) && NumOf(p) == NumOf(q)
    ensures p == q
  {
    SameDigits((p.i4 * 512 + p.i3) * 512 + p.i2, p.i1, (q.i4 * 512 + q.i3) * 512 + q.i2, q.i1);
    SameDigits(p.i4 * 512 + p.i3, p.i2, q.i4 * 512 + q.i3, q.i2);
    SameDigits(p.i4, p.i3, q.i4, q.i3);
  }

  /** Two addresses below 2^48 lie on the same page exactly when they agree above the low 12 bits. */
  lemma SamePage(a: nat, b: nat)
    requires a < 0x1_0000_0000_0000 && b < 0x1_0000_0000_0000
    ensures PageOf(a) == PageOf(b) <==> a / 4096 == b / 4096
  {
    NumOfPageOf(a);
    NumOfPageOf(b);
    if a / 4096 == b / 4096 { SameNumber(PageOf(a), PageOf(b)); }
  }

  lemma RangeSnoc(lo: nat, n: nat, p: Page)
    requires WfPage(p) && NumOf(p) == n && lo <= n
    ensures forall q :: InRange(q, lo, n + 1) <==> InRange(q, lo, n) || q == p
  {
    forall q
      ensures InRange(q, lo, n + 1) <==> InRange(q, lo, n) || q == p
    {
      if InRange(q, lo, n + 1) && !InRange(q, lo, n) { SameNumber(p, q); }
    }
  }

  // ---------- states of an address space ----------

  /** Memory, the table tree, the translations, the frames of mapped pages and the free frames. */
  datatype Snapshot = Snapshot(mem: Mem, tables: map<nat, Place>, view: imap<Page, View>, leaves: map<nat, Page>,
                               free: set<nat>, total: nat)

  /** Every frame is free, a table, a mapped page, or none of these. */
  ghost predicate Partitioned(s: Snapshot) {
    Whole(PartitionedParts(s))
  }

  ghost predicate PartitionedParts(s: Snapshot) {
    && LeavesOk(s.view, s.leaves)
    && LeavesApart(s.leaves, s.tables, s.free, s.total, |s.mem|)
    && Apart(s.tables, s.free, |s.mem|)
    && |s.mem| <= MAX_FRAMES
    && (forall p :: p in s.view)
  }

  /** All frames that are free, tables or mapped pages. */
  ghost function Pool(s: Snapshot): set<nat> {
    s.free + s.leaves.Keys + s.tables.Keys
  }

  /** What every operation keeps: no table disappears and no frame leaves the pool or enters it. */
  ghost predicate Conserves(s: Snapshot, s': Snapshot) {
    s'.tables.Keys >= s.tables.Keys && Pool(s') == Pool(s) && |s'.mem| == |s.mem|
  }

  /** Frames of pages mapped in both states hold the same data. */
  ghost predicate DataKept(s: Snapshot, s': Snapshot) {
    |s'.mem| == |s.mem| &&
    forall d :: d in s.leaves && d in s'.leaves && s.leaves[d] == s'.leaves[d] && d < |s.mem| ==> s'.mem[d] == s.mem[d]
  }

  // ---------- clearing pages ----------

  /** Page `p` lost its 4 KiB mapping, if it had one, and the frame is free again. */
  ghost predicate PageCleared(s: Snapshot, s': Snapshot, p: Page) {
    Whole(PageClearedParts(s, s', p))
  }

  ghost predicate PageClearedParts(s: Snapshot, s': Snapshot, p: Page) {
    && Conserves(s, s') && DataKept(s, s') && s'.total == s.total
    && p in s.view
    && s'.view == (if s.view[p].Small? then s.view[p := Unmapped] else s.view)
    && s'.leaves == Without(s.leaves, s.view[p])
  }

  lemma UnmapClears(s: Snapshot, s': Snapshot, p: Page, r: Option<nat>)
    requires Partitioned(s) && s'.tables == s.tables && s'.total == s.total
    requires UnmapResult(s.view, s.leaves, s.free, s'.view, s'.leaves, s'.free, p, true, r)
    requires Extended(s.mem, s.tables, s.free, s'.mem, s.tables, s.free)
    ensures PageCleared(s, s', p) && s.free <= s'.free
  {
    if s.view[p].Small? { LeafRecorded(s.view, s.leaves, p); }
    assert s'.free + s'.leaves.Keys == s.free + s.leaves.Keys;
  }

  lemma NothingToClear(s: Snapshot, p: Page)
    requires Partitioned(s) && p in s.view && !s.view[p].Small?
    ensures PageCleared(s, s, p)
  {
  }

  /** The pages numbered `lo` up to `hi` lost their 4 KiB mappings; nothing else changed. */
  ghost predicate RangeCleared(s: Snapshot, s': Snapshot, lo: nat, hi: nat) {
    Whole(RangeClearedParts(s, s', lo, hi))
  }

  ghost predicate RangeClearedParts(s: Snapshot, s': Snapshot, lo: nat, hi: nat) {
    && Conserves(s, s') && DataKept(s, s') && s'.total == s.total
    && (forall p :: p in s.view && p in s'.view ==>
                    s'.view[p] == if InRange(p, lo, hi) && s.view[p].Small? then Unmapped else s.view[p])
    && (forall d :: d in s'.leaves <==> d in s.leaves && !InRange(s.leaves[d], lo, hi))
    && (forall d :: d in s'.leaves ==> s'.leaves[d] == s.leaves[d])
  }

  lemma ClearedNone(s: Snapshot, lo: nat)
    ensures RangeCleared(s, s, lo, lo)
  {
  }

  /** Frames recorded for pages other than `p` are not the frame of `p`. */
  lemma OtherLeaves(view: imap<Page, View>, lv: map<nat, Page>, p: Page)
    requires LeavesOk(view, lv) && p in view
    ensures view[p].Small? ==> Frame(view[p].entry) in lv && lv[Frame(view[p].entry)] == p
    ensures forall d :: d in lv && lv[d] == p ==> view[p].Small? && d == Frame(view[p].entry)
  {
  }

  lemma ClearedExtendLeaves(s: Snapshot, s1: Snapshot, s2: Snapshot, lo: nat, hi: nat, lo': nat, hi': nat, p: Page)
    requires Partitioned(s) && RangeCleared(s, s1, lo, hi) && PageCleared(s1, s2, p) && !InRange(p, lo, hi)
    requires forall q :: InRange(q, lo', hi') <==> InRange(q, lo, hi) || q == p
    ensures forall d :: d in s2.leaves <==> d in s.leaves && !InRange(s.leaves[d], lo', hi')
    ensures forall d :: d in s2.leaves ==> s2.leaves[d] == s.leaves[d]
  {
    OtherLeaves(s.view, s.leaves, p);
    assert s1.view[p] == s.view[p];
  }

  /** Clearing one more page. */
  lemma ClearedExtend(s: Snapshot, s1: Snapshot, s2: Snapshot, lo: nat, hi: nat, lo': nat, hi': nat, p: Page)
    requires Partitioned(s) && Partitioned(s1) && Partitioned(s2)
    requires RangeCleared(s, s1, lo, hi) && PageCleared(s1, s2, p) && !InRange(p, lo, hi)
    requires forall q :: InRange(q, lo', hi') <==> InRange(q, lo, hi) || q == p
    ensures RangeCleared(s, s2, lo', hi')
  {
    hide LeavesOk, LeavesApart, Apart, Pool;
    ClearedExtendLeaves(s, s1, s2, lo, hi, lo', hi', p);
  }

  lemma ClearedStep(s: Snapshot, s1: Snapshot, s2: Snapshot, lo: nat, n: nat, p: Page)
    requires Partitioned(s) && Partitioned(s1) && Partitioned(s2)
    requires RangeCleared(s, s1, lo, n) && PageCleared(s1, s2, p)
    requires WfPage(p) && NumOf(p) == n && lo <= n
    ensures RangeCleared(s, s2, lo, n + 1)
  {
    RangeSnoc(lo, n, p);
    ClearedExtend(s, s1, s2, lo, n, lo, n + 1, p);
  }

  lemma ClearedStepDown(s: Snapshot, s1: Snapshot, s2: Snapshot, k: nat, n: nat, p: Page)
    requires Partitioned(s) && Partitioned(s1) && Partitioned(s2)
    requires RangeCleared(s, s1, k + 1, n) && PageCleared(s1, s2, p)
    requires WfPage(p) && NumOf(p) == k && k < n
    ensures RangeCleared(s, s2, k, n)
  {
    forall q
      ensures InRange(q, k, n) <==> InRange(q, k + 1, n) || q == p
    {
      if InRange(q, k, n) && !InRange(q, k + 1, n) { SameNumber(p, q); }
    }
    ClearedExtend(s, s1, s2, k + 1, n, k, n, p);
  }

  // ---------- filling pages ----------

  function ZeroRow(): seq<nat> { seq(ENTRIES, _ => 0) }

  const USER_FLAGS: nat := 6

  /** Page `p` now has a zeroed user frame of its own; the other pages kept their frames and contents. */
  ghost predicate PageFilled(s: Snapshot, s': Snapshot, p: Page) {
    Whole(PageFilledParts(s, s', p))
  }

  ghost predicate PageFilledParts(s: Snapshot, s': Snapshot, p: Page) {
    && Conserves(s, s') && DataKept(s, s') && s'.total == s.total
    && p in s.view && p in s'.view && s'.view == s.view[p := s'.view[p]]
    && FreshPage(s', p)
    && Frame(s'.view[p].entry) !in s.leaves
    && s'.leaves == s.leaves[Frame(s'.view[p].entry) := p]
  }

  /** Page `p` shows a user frame that holds only zeros. */
  ghost predicate FreshPage(s: Snapshot, p: Page) {
    && p in s.view && s.view[p].Small? && User(s.view[p].entry)
    && Frame(s.view[p].entry) < |s.mem| && s.mem[Frame(s.view[p].entry)] == ZeroRow()
  }

  /** An attempt to fill a page that failed: only new empty tables may remain of it. */
  ghost predicate FillFailed(s: Snapshot, s': Snapshot) {
    Whole(FillFailedParts(s, s'))
  }

  ghost predicate FillFailedParts(s: Snapshot, s': Snapshot) {
    && Conserves(s, s') && DataKept(s, s') && s'.total == s.total
    && s'.view == s.view && s'.leaves == s.leaves
  }

  lemma FillFailedRefl(s: Snapshot)
    ensures FillFailed(s, s)
  {
  }

  /** Frame `f` was taken and zeroed, and then tables were added. */
  ghost predicate TakenAndExtended(s: Snapshot, s': Snapshot, f: nat) {
    && f in s.free && f < |s.mem| && s'.total == s.total
    && Extended(s.mem[f := ZeroRow()], s.tables, s.free - {f}, s'.mem, s'.tables, s'.free)
  }

  lemma TakenPool(s: Snapshot, s': Snapshot, f: nat)
    requires Partitioned(s) && TakenAndExtended(s, s', f)
    ensures s'.free + s'.tables.Keys + {f} == s.free + s.tables.Keys && s'.tables.Keys >= s.tables.Keys
    ensures |s'.mem| == |s.mem| && f !in s'.tables && f !in s.leaves
    ensures s'.mem[f] == ZeroRow()
    ensures forall d :: d in s.leaves ==> d < |s.mem| && d != f && s'.mem[d] == s.mem[d]
  {
    var m1 := s.mem[f := ZeroRow()];
    ExtendedApart(m1, s.tables, s.free - {f}, s'.mem, s'.tables, s'.free, s.leaves, s.total);
    assert f !in s'.tables.Keys - s.tables.Keys;
  }

  lemma FilledByMap(s: Snapshot, s': Snapshot, p: Page, f: nat)
    requires Partitioned(s) && TakenAndExtended(s, s', f)
    requires p in s.view && s.view[p].Unmapped?
    requires MapResult(s.view, s.leaves, s'.view, s'.leaves, p, f, USER_FLAGS, true)
    ensures PageFilled(s, s', p)
  {
    assert f < FRAME_LIMIT;
    hide Partitioned, PageEntry, TakenAndExtended, Conserves, DataKept;
    PageEntryFields(f, USER_FLAGS);
    TakenPool(s, s', f);
    FilledConserves(s, s', p, f);
  }

  lemma FilledConserves(s: Snapshot, s': Snapshot, p: Page, f: nat)
    requires Partitioned(s) && TakenAndExtended(s, s', f) && s'.leaves == s.leaves[f := p]
    ensures Conserves(s, s') && DataKept(s, s') && s'.total == s.total
  {
    TakenPool(s, s', f);
    hide Partitioned, Extended;
    assert s'.leaves.Keys == s.leaves.Keys + {f};
  }

  lemma KeptByFailedMap(s: Snapshot, s1: Snapshot, s': Snapshot, p: Page, f: nat)
    requires Partitioned(s) && TakenAndExtended(s, s1, f) && s' == s1.(free := s1.free + {f})
    requires MapResult(s.view, s.leaves, s'.view, s'.leaves, p, f, USER_FLAGS, false)
    ensures FillFailed(s, s')
  {
    hide LeavesOk, LeavesApart, Apart, Extended;
    TakenPool(s, s1, f);
  }

  /** After an attempt to map a nonzero frame at an unmapped page, the mapping read back tells whether it
      worked. */
  lemma MappingAfterMap(view: imap<Page, View>, lv: map<nat, Page>, view': imap<Page, View>, lv': map<nat, Page>,
                        addr: nat, f: nat, ok: bool)
    requires 0 < f < FRAME_LIMIT && PageOf(addr) in view && view[PageOf(addr)].Unmapped?
    requires MapResult(view, lv, view', lv', PageOf(addr), f, USER_FLAGS, ok)
    ensures PageOf(addr) in view' && (Mapping(view'[PageOf(addr)], addr) == 4096 * f <==> ok)
    ensures !view'[PageOf(addr)].Large?
  {
  }

  // ---------- filling ranges ----------

  /** Pages outside `lo` up to `hi` kept their frames, and those frames their contents. */
  ghost predicate OutsideKept(s: Snapshot, s': Snapshot, lo: nat, hi: nat) {
    && |s'.mem| == |s.mem|
    && (forall d :: d in s'.leaves && !InRange(s'.leaves[d], lo, hi) ==>
                    d in s.leaves && s.leaves[d] == s'.leaves[d] && (d < |s.mem| ==> s'.mem[d] == s.mem[d]))
    && (forall d :: d in s.leaves && !InRange(s.leaves[d], lo, hi) ==> d in s'.leaves && s'.leaves[d] == s.leaves[d])
  }

  /** The pages numbered `lo` up to `hi` have zeroed user frames; nothing else changed. */
  ghost predicate RangeFilled(s: Snapshot, s': Snapshot, lo: nat, hi: nat) {
    Whole(RangeFilledParts(s, s', lo, hi))
  }

  ghost predicate RangeFilledParts(s: Snapshot, s': Snapshot, lo: nat, hi: nat) {
    && Conserves(s, s') && s'.total == s.total && OutsideKept(s, s', lo, hi)
    && (forall p :: p in s.view && p in s'.view && !InRange(p, lo, hi) ==> s'.view[p] == s.view[p])
    && (forall p :: InRange(p, lo, hi) ==> FreshPage(s', p))
  }

  lemma FilledNone(s: Snapshot, lo: nat)
    ensures RangeFilled(s, s, lo, lo)
  {
  }

  /** Clearing and then filling page `p`. */
  ghost predicate PageRefilled(s: Snapshot, s': Snapshot, p: Page) {
    Whole(PageRefilledParts(s, s', p))
  }

  ghost predicate PageRefilledParts(s: Snapshot, s': Snapshot, p: Page) {
    && Conserves(s, s') && s'.total == s.total
    && p in s.view && p in s'.view && s'.view == s.view[p := s'.view[p]]
    && FreshPage(s', p)
    && Frame(s'.view[p].entry) in s'.leaves && s'.leaves[Frame(s'.view[p].entry)] == p
    && (forall d :: d in s'.leaves && s'.leaves[d] != p ==>
                    d in s.leaves && s.leaves[d] == s'.leaves[d] && (d < |s.mem| ==> s'.mem[d] == s.mem[d]))
    && (forall d :: d in s.leaves && s.leaves[d] != p ==> d in s'.leaves && s'.leaves[d] == s.leaves[d])
  }

  lemma ClearThenFill(s: Snapshot, s1: Snapshot, s2: Snapshot, p: Page)
    requires Partitioned(s) && PageCleared(s, s1, p) && PageFilled(s1, s2, p)
    ensures PageRefilled(s, s2, p)
  {
    hide LeavesApart, Apart, Pool;
    OtherLeaves(s.view, s.leaves, p);
  }

  lemma FilledStepPages(s: Snapshot, s1: Snapshot, s2: Snapshot, lo: nat, n: nat, p: Page)
    requires Partitioned(s1) && Partitioned(s2)
    requires RangeFilled(s, s1, lo, n) && PageRefilled(s1, s2, p)
    requires WfPage(p) && NumOf(p) == n && lo <= n
    ensures forall q :: InRange(q, lo, n + 1) ==> FreshPage(s2, q)
  {
    RangeSnoc(lo, n, p);
    forall q | InRange(q, lo, n + 1)
      ensures FreshPage(s2, q)
    {
      if q != p {
        assert FreshPage(s1, q);
        LeafRecorded(s1.view, s1.leaves, q);
        LeafRecorded(s2.view, s2.leaves, q);
      }
    }
  }

  lemma FilledStepLeaves(s: Snapshot, s1: Snapshot, s2: Snapshot, lo: nat, n: nat, p: Page)
    requires RangeFilled(s, s1, lo, n) && PageRefilled(s1, s2, p)
    requires WfPage(p) && NumOf(p) == n && lo <= n
    ensures OutsideKept(s, s2, lo, n + 1)
  {
    RangeSnoc(lo, n, p);
  }

  lemma FilledStep(s: Snapshot, s1: Snapshot, s2: Snapshot, lo: nat, n: nat, p: Page)
    requires Partitioned(s) && Partitioned(s1) && Partitioned(s2)
    requires RangeFilled(s, s1, lo, n) && PageRefilled(s1, s2, p)
    requires WfPage(p) && NumOf(p) == n && lo <= n
    ensures RangeFilled(s, s2, lo, n + 1)
  {
    FilledStepPages(s, s1, s2, lo, n, p);
    FilledStepLeaves(s, s1, s2, lo, n, p);
    RangeSnoc(lo, n, p);
  }

  /** A failed attempt on a range: some of its old pages may be gone, nothing was added. */
  ghost predicate RangeDropped(s: Snapshot, s': Snapshot, lo: nat, hi: nat) {
    Whole(RangeDroppedParts(s, s', lo, hi))
  }

  ghost predicate RangeDroppedParts(s: Snapshot, s': Snapshot, lo: nat, hi: nat) {
    && Conserves(s, s') && s'.total == s.total && OutsideKept(s, s', lo, hi)
    && (forall p :: p in s.view && p in s'.view ==>
                    s'.view[p] == s.view[p] || (InRange(p, lo, hi) && s'.view[p].Unmapped?))
    && (forall d :: d in s'.leaves ==> d in s.leaves && s.leaves[d] == s'.leaves[d])
  }

  lemma DroppedNone(s: Snapshot, lo: nat, hi: nat)
    ensures RangeDropped(s, s, lo, hi)
  {
  }

  /** Page `p` was cleared and could not be filled. */
  ghost predicate PageLost(s: Snapshot, s': Snapshot, p: Page) {
    Whole(PageLostParts(s, s', p))
  }

  ghost predicate PageLostParts(s: Snapshot, s': Snapshot, p: Page) {
    && Conserves(s, s') && DataKept(s, s') && s'.total == s.total && p in s.view
    && s'.view == (if s.view[p].Small? then s.view[p := Unmapped] else s.view)
    && s'.leaves == Without(s.leaves, s.view[p])
  }

  lemma ClearThenFail(s: Snapshot, s1: Snapshot, s2: Snapshot, p: Page)
    requires PageCleared(s, s1, p) && FillFailed(s1, s2)
    ensures PageLost(s, s2, p)
  {
  }

  lemma LostLeaves(s1: Snapshot, s2: Snapshot, p: Page)
    requires Partitioned(s1) && PageLost(s1, s2, p)
    ensures forall d :: d in s2.leaves <==> d in s1.leaves && s1.leaves[d] != p
    ensures forall d :: d in s2.leaves ==> s2.leaves[d] == s1.leaves[d] && (d < |s1.mem| ==> s2.mem[d] == s1.mem[d])
  {
    OtherLeaves(s1.view, s1.leaves, p);
  }

  lemma DroppedLeaves(s: Snapshot, s1: Snapshot, s2: Snapshot, s3: Snapshot, lo: nat, n: nat, hi: nat, p: Page)
    requires Partitioned(s1) && n < hi && lo <= n && WfPage(p) && NumOf(p) == n
    requires RangeFilled(s, s1, lo, n) && PageLost(s1, s2, p) && RangeCleared(s2, s3, lo, n)
    ensures forall d :: d in s3.leaves ==> d in s.leaves && s.leaves[d] == s3.leaves[d]
    ensures OutsideKept(s, s3, lo, hi)
  {
    LostLeaves(s1, s2, p);
    forall d | d in s3.leaves
      ensures d in s.leaves && s.leaves[d] == s3.leaves[d] && (d < |s.mem| ==> s3.mem[d] == s.mem[d])
    {
      assert d in s2.leaves && d in s1.leaves;
    }
    forall d | d in s.leaves && !InRange(s.leaves[d], lo, hi)
      ensures d in s3.leaves && s3.leaves[d] == s.leaves[d]
    {
      assert !InRange(s.leaves[d], lo, n);
      assert d in s1.leaves && d in s2.leaves;
    }
  }

  lemma DroppedViews(s: Snapshot, s1: Snapshot, s2: Snapshot, s3: Snapshot, lo: nat, n: nat, hi: nat, p: Page)
    requires Partitioned(s1) && Partitioned(s2) && n < hi && lo <= n && WfPage(p) && NumOf(p) == n
    requires RangeFilled(s, s1, lo, n) && PageLost(s1, s2, p) && RangeCleared(s2, s3, lo, n)
    ensures forall q :: q in s.view && q in s3.view ==>
                        s3.view[q] == s.view[q] || (InRange(q, lo, hi) && s3.view[q].Unmapped?)
  {
    hide RangeFilled, PageLost, RangeCleared, Partitioned, InRange;
    forall q | q in s.view && q in s3.view
      ensures s3.view[q] == s.view[q] || (InRange(q, lo, hi) && s3.view[q].Unmapped?)
    {
      DroppedView(s, s1, s2, s3, lo, n, hi, p, q);
    }
  }

  lemma DroppedView(s: Snapshot, s1: Snapshot, s2: Snapshot, s3: Snapshot, lo: nat, n: nat, hi: nat, p: Page, q: Page)
    requires Partitioned(s1) && Partitioned(s2) && n < hi && lo <= n && WfPage(p) && NumOf(p) == n
    requires RangeFilled(s, s1, lo, n) && PageLost(s1, s2, p) && RangeCleared(s2, s3, lo, n)
    requires q in s.view && q in s3.view
    ensures s3.view[q] == s.view[q] || (InRange(q, lo, hi) && s3.view[q].Unmapped?)
  {
    assert q in s1.view && q in s2.view;
    hide Partitioned, Conserves, DataKept;
    if InRange(q, lo, n) { assert FreshPage(s1, q); }
  }

  lemma DroppedAfterFailure(s: Snapshot, s1: Snapshot, s2: Snapshot, s3: Snapshot, lo: nat, n: nat, hi: nat, p: Page)
    requires Partitioned(s1) && Partitioned(s2) && n < hi && lo <= n && WfPage(p) && NumOf(p) == n
    requires RangeFilled(s, s1, lo, n) && PageLost(s1, s2, p) && RangeCleared(s2, s3, lo, n)
    ensures RangeDropped(s, s3, lo, hi)
  {
    DroppedLeaves(s, s1, s2, s3, lo, n, hi, p);
    DroppedViews(s, s1, s2, s3, lo, n, hi, p);
  }

  // ---------- marking ranges ----------

  /** User access was added; the pages numbered `lo` up to `hi` have it now. */
  ghost predicate RangeMarked(s: Snapshot, s': Snapshot, lo: nat, hi: nat) {
    Whole(RangeMarkedParts(s, s', lo, hi))
  }

  ghost predicate RangeMarkedParts(s: Snapshot, s': Snapshot, lo: nat, hi: nat) {
    && s'.tables == s.tables && s'.leaves == s.leaves && s'.free == s.free && s'.total == s.total
    && SameTargets(s.view, s'.view)
    && Extended(s.mem, s.tables, s.free, s'.mem, s.tables, s.free)
    && (forall p :: InRange(p, lo, hi) && p in s'.view && s'.view[p].Small? ==> Accessible(s'.view[p]))
    && (forall p :: p in s.view && p in s'.view && !InRange(p, lo, hi) ==> Untouched(s.view[p], s'.view[p]))
  }

  lemma MarkedNone(s: Snapshot, lo: nat)
    requires Partitioned(s)
    ensures RangeMarked(s, s, lo, lo)
  {
  }

  lemma MarkedStep(s: Snapshot, s1: Snapshot, s2: Snapshot, lo: nat, n: nat, p: Page)
    requires RangeMarked(s, s1, lo, n) && Partitioned(s1)
    requires Marks(s1.mem, s1.view, s2.mem, s2.view, s1.tables, s1.free)
    requires s2 == s1.(mem := s2.mem, view := s2.view)
    requires WfPage(p) && NumOf(p) == n && lo <= n
    requires p in s2.view && (s2.view[p].Small? ==> Accessible(s2.view[p]))
    requires OthersUntouched(s1.view, s2.view, p)
    ensures RangeMarked(s, s2, lo, n + 1)
  {
    RangeSnoc(lo, n, p);
    SameTargetsTrans(s.view, s1.view, s2.view);
    ExtendedTrans(s.mem, s.tables, s.free, s1.mem, s.tables, s.free, s2.mem, s.tables, s.free);
    forall q | InRange(q, lo, n + 1) && q in s2.view && s2.view[q].Small?
      ensures Accessible(s2.view[q])
    {
      assert q in s1.view && SameTarget(s1.view[q], s2.view[q]);
    }
    forall q | q in s.view && q in s2.view && !InRange(q, lo, n + 1)
      ensures Untouched(s.view[q], s2.view[q])
    {
      assert q in s1.view && q != p;
    }
  }

  /** `map_range` succeeded: every page of the range is user-accessible and reads as zeros; the other
      pages are where they were, with their entries and contents. */
  ghost predicate RangeMapped(s: Snapshot, s': Snapshot, lo: nat, hi: nat) {
    Whole(RangeMappedParts(s, s', lo, hi))
  }

  ghost predicate RangeMappedParts(s: Snapshot, s': Snapshot, lo: nat, hi: nat) {
    && Conserves(s, s') && s'.total == s.total && OutsideKept(s, s', lo, hi)
    && (forall p :: p in s.view && p in s'.view && !InRange(p, lo, hi) ==> Untouched(s.view[p], s'.view[p]))
    && (forall p :: InRange(p, lo, hi) ==> FreshPage(s', p) && Accessible(s'.view[p]))
  }

  lemma MarkedFresh(s1: Snapshot, s2: Snapshot, lo: nat, hi: nat, p: Page)
    requires Partitioned(s1) && Partitioned(s2) && RangeMarked(s1, s2, lo, hi)
    requires FreshPage(s1, p) && InRange(p, lo, hi)
    ensures FreshPage(s2, p) && Accessible(s2.view[p])
  {
  }

  lemma MarkedOutside(s: Snapshot, s1: Snapshot, s2: Snapshot, lo: nat, hi: nat)
    requires Partitioned(s1) && OutsideKept(s, s1, lo, hi) && RangeMarked(s1, s2, lo, hi)
    ensures OutsideKept(s, s2, lo, hi)
  {
    forall d | d in s2.leaves && !InRange(s2.leaves[d], lo, hi)
      ensures d in s.leaves && s.leaves[d] == s2.leaves[d] && (d < |s.mem| ==> s2.mem[d] == s.mem[d])
    {
      assert d in s1.leaves && d !in s1.tables;
    }
  }

  lemma FillThenMark(s: Snapshot, s1: Snapshot, s2: Snapshot, lo: nat, hi: nat)
    requires Partitioned(s1) && Partitioned(s2)
    requires RangeFilled(s, s1, lo, hi) && RangeMarked(s1, s2, lo, hi)
    ensures RangeMapped(s, s2, lo, hi)
  {
    MarkedOutside(s, s1, s2, lo, hi);
    forall p | InRange(p, lo, hi)
      ensures FreshPage(s2, p) && Accessible(s2.view[p])
    {
      MarkedFresh(s1, s2, lo, hi, p);
    }
    forall p | p in s.view && p in s2.view && !InRange(p, lo, hi)
      ensures Untouched(s.view[p], s2.view[p])
    {
      assert p in s1.view && Untouched(s1.view[p], s2.view[p]);
    }
  }

  /** No large page among those numbered `lo` up to `hi`. */
  ghost predicate NoLarge(s: Snapshot, lo: nat, hi: nat) {
    forall p :: InRange(p, lo, hi) && p in s.view ==> !s.view[p].Large?
  }
}
