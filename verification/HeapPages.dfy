/** `heap_map_pages` of kernel/heap.c: backing new heap pages with frames, with rollback. `vmm_map_page`
    reports nothing, so a frame whose mapping fails is lost; `lost` keeps track of it. */
module HeapPages {
  import opened Utils
  import opened Options
  import opened Entries
  import opened PageTables
  import opened TableEffects
  import opened TableKeys
  import opened PageRanges
  import opened FrameCounts
  import opened Pmm
  import opened Vmm
  import opened UserRanges

  const HEAP_PAGE_FLAGS: nat := 3

  ghost predicate RangeUnmapped(s: Snapshot, lo: nat, hi: nat) {
    Whole(RangeUnmappedParts(s, lo, hi))
  }

  ghost predicate RangeUnmappedParts(s: Snapshot, lo: nat, hi: nat) {
    forall p :: InRange(p, lo, hi) && p in s.view ==> s.view[p].Unmapped?
  }

  /** The old pages are where they were, with their frames and contents, and no frame is unaccounted for
      except those in `lost`. */
  ghost predicate Undisturbed(s: Snapshot, s': Snapshot, lost: set<nat>) {
    Whole(UndisturbedParts(s, s', lost))
  }

  ghost predicate UndisturbedParts(s: Snapshot, s': Snapshot, lost: set<nat>) {
    && s'.tables.Keys >= s.tables.Keys && |s'.mem| == |s.mem| && s'.total == s.total
    && Pool(s') + lost == Pool(s) && lost !! Pool(s')
    && (forall d :: d in s.leaves ==>
                    d in s'.leaves && s'.leaves[d] == s.leaves[d] && (d < |s.mem| ==> s'.mem[d] == s.mem[d]))
  }

  /** A 4 KiB page that the kernel may write and user code cannot reach: its own entry lacks the user bit. */
  predicate KernelPage(v: View) {
    v.Small? && MayWrite(v.entry) && !User(v.entry)
  }

  /** Heap pages `lo` up to `n` were mapped. A lost frame means that memory ran out at the last of them. */
  ghost predicate Backed(s: Snapshot, s': Snapshot, lo: nat, n: nat, lost: set<nat>) {
    && Undisturbed(s, s', lost)
    && Whole(BackedParts(s, s', lo, n, lost))
  }

  ghost predicate BackedParts(s: Snapshot, s': Snapshot, lo: nat, n: nat, lost: set<nat>) {
    && (forall p :: p in s.view && p in s'.view && !InRange(p, lo, n) ==> s'.view[p] == s.view[p])
    && (forall d :: d in s'.leaves ==> d in s.leaves || InRange(s'.leaves[d], lo, n))
    && (forall p :: InRange(p, lo, n) && p in s.view && p in s'.view ==>
                    KernelPage(s'.view[p]) || (lost != {} && NumOf(p) + 1 == n && s'.view[p] == s.view[p]))
    && (lost != {} ==> s'.free == {})
  }

  // ---------- how many frames the pages of a range take ----------

  ghost predicate ShortOfFrames(s: Snapshot, lo: nat, hi: nat)
    requires lo <= hi
  {
    |s.free| < FramesFor(s.tables, lo, hi)
  }

  /** With `k` free frames memory runs out while page `n` gets its tables: its own frame is taken by then. */
  ghost predicate RunsOutAt(tb: map<nat, Place>, k: nat, lo: nat, n: nat)
    requires lo <= n
  {
    FramesFor(tb, lo, n) < k < FramesFor(tb, lo, n + 1)
  }

  /** How backing the pages `lo` up to `hi` ends, told from the state before: without loss if and only if there
      are frames for all pages and tables; with a frame lost if and only if they run out at a page's tables.
      A loss at the last page goes unnoticed. */
  ghost predicate Outcome(s: Snapshot, lo: nat, hi: nat, ok: bool, lost: set<nat>)
    requires lo <= hi
  {
    Whole(OutcomeParts(s, lo, hi, ok, lost))
  }

  ghost predicate OutcomeParts(s: Snapshot, lo: nat, hi: nat, ok: bool, lost: set<nat>)
    requires lo <= hi
  {
    && (ok && lost == {} <==> !ShortOfFrames(s, lo, hi))
    && (ok <==> lo == hi || FramesFor(s.tables, lo, hi - 1) < |s.free|)
    && (lost != {} <==> exists n :: lo <= n < hi && RunsOutAt(s.tables, |s.free|, lo, n))
  }

  /** Every further page takes a frame at least. */
  lemma {:induction false} FramesGrow(tb: map<nat, Place>, lo: nat, n: nat, hi: nat)
    requires lo <= n <= hi
    ensures FramesFor(tb, lo, n) + (hi - n) <= FramesFor(tb, lo, hi)
    decreases hi
  {
    hide Keys, PageOf, Prefixes;
    if n < hi {
      FramesGrow(tb, lo, n, hi - 1);
      SubsetCount(TablesFor(lo, hi - 1) - Keys(tb), TablesFor(lo, hi) - Keys(tb));
    }
  }

  /** Page `n` takes its frame and those of the tables that are missing after the pages before it. */
  lemma FramesStep(tb: map<nat, Place>, lo: nat, n: nat)
    requires lo <= n
    ensures FramesFor(tb, lo, n + 1) ==
            FramesFor(tb, lo, n) + 1 + |Prefixes(PageOf(4096 * n)) - (Keys(tb) + TablesFor(lo, n))|
  {
    hide Keys;
    LackingTwice(Keys(tb), TablesFor(lo, n), Prefixes(PageOf(4096 * n)));
  }

  /** The state of the tables and frames when the pages up to `n` are backed and nothing is lost. */
  ghost predicate UsedUpTo(s: Snapshot, s': Snapshot, lo: nat, n: nat)
    requires lo <= n
  {
    Whole(Keys(s'.tables) == Keys(s.tables) + TablesFor(lo, n) && |s'.free| + FramesFor(s.tables, lo, n) == |s.free|)
  }

  lemma UsedNone(s: Snapshot, lo: nat)
    ensures UsedUpTo(s, s, lo, lo)
  {
    hide Keys;
    assert TablesFor(lo, lo) - Keys(s.tables) == {};
  }

  lemma UsedStep(s: Snapshot, s1: Snapshot, s2: Snapshot, lo: nat, n: nat, f: nat)
    requires lo <= n && UsedUpTo(s, s1, lo, n) && f in s1.free
    requires Made(s1.tables, s1.free - {f}, s2.tables, s2.free, Prefixes(PageOf(4096 * n)))
    ensures UsedUpTo(s, s2, lo, n + 1)
  {
    hide Keys, PageOf, Prefixes;
    FramesStep(s.tables, lo, n);
    assert TablesFor(lo, n + 1) == TablesFor(lo, n) + Prefixes(PageOf(4096 * n));
  }

  lemma RunsOutNow(s: Snapshot, s1: Snapshot, lo: nat, n: nat, f: nat)
    requires lo <= n && UsedUpTo(s, s1, lo, n) && f in s1.free
    requires Short(s1.tables, s1.free - {f}, Prefixes(PageOf(4096 * n)))
    ensures RunsOutAt(s.tables, |s.free|, lo, n)
  {
    hide Keys, PageOf, Prefixes;
    FramesStep(s.tables, lo, n);
  }

  lemma AllBacked(s: Snapshot, s': Snapshot, lo: nat, hi: nat)
    requires lo <= hi && UsedUpTo(s, s', lo, hi)
    ensures Outcome(s, lo, hi, true, {})
  {
    hide Keys, TablesFor, FramesFor;
    forall n | lo <= n < hi ensures !RunsOutAt(s.tables, |s.free|, lo, n) {
      FramesGrow(s.tables, lo, n + 1, hi);
    }
    if lo < hi { FramesGrow(s.tables, lo, hi - 1, hi); }
  }

  lemma StoppedAt(s: Snapshot, s': Snapshot, lo: nat, n: nat, hi: nat)
    requires lo <= n < hi && UsedUpTo(s, s', lo, n) && s'.free == {}
    ensures Outcome(s, lo, hi, false, {})
  {
    hide Keys, TablesFor, FramesFor;
    forall m | lo <= m < hi ensures !RunsOutAt(s.tables, |s.free|, lo, m) {
      if m < n { FramesGrow(s.tables, lo, m + 1, n); } else { FramesGrow(s.tables, lo, n, m); }
    }
    FramesGrow(s.tables, lo, n, hi);
    FramesGrow(s.tables, lo, n, hi - 1);
  }

  lemma LostAt(s: Snapshot, lo: nat, n: nat, hi: nat, lost: set<nat>)
    requires lo <= n < hi && RunsOutAt(s.tables, |s.free|, lo, n) && lost != {}
    ensures Outcome(s, lo, hi, n + 1 == hi, lost)
  {
    hide Keys, TablesFor, FramesFor;
    FramesGrow(s.tables, lo, n + 1, hi);
    if n + 1 < hi { FramesGrow(s.tables, lo, n + 1, hi - 1); }
  }

  lemma BackedNone(s: Snapshot, lo: nat)
    ensures Backed(s, s, lo, lo, {})
  {
  }

  /** One frame was taken for page `p`; `ok` tells whether it got mapped. */
  ghost predicate PageBacked(s: Snapshot, s': Snapshot, p: Page, f: nat, ok: bool) {
    Whole(PageBackedParts(s, s', p, f, ok))
  }

  ghost predicate PageBackedParts(s: Snapshot, s': Snapshot, p: Page, f: nat, ok: bool) {
    && f in s.free && p in s.view && p in s'.view
    && (ok ==> KernelPage(s'.view[p]) && s'.view == s.view[p := s'.view[p]] && s'.leaves == s.leaves[f := p])
    && (!ok ==> s'.view == s.view && s'.leaves == s.leaves && s'.free == {})
    && Undisturbed(s, s', if ok then {} else {f})
  }

  lemma BackedByMap(s: Snapshot, s': Snapshot, p: Page, f: nat, ok: bool)
    requires Partitioned(s) && f in s.free && s'.total == s.total
    requires p in s.view && s.view[p].Unmapped?
    requires Extended(s.mem, s.tables, s.free - {f}, s'.mem, s'.tables, s'.free)
    requires MapResult(s.view, s.leaves, s'.view, s'.leaves, p, f, HEAP_PAGE_FLAGS, ok)
    requires !ok ==> s'.free == {}
    ensures PageBacked(s, s', p, f, ok)
  {
    assert f < FRAME_LIMIT;
    hide Partitioned, Extended, Undisturbed, PageEntry, User, MayWrite;
    PageEntryFields(f, HEAP_PAGE_FLAGS);
    HeapFlags();
    BackedUndisturbed(s, s', p, f, ok);
  }

  /** The kernel may write a heap page and user code may not reach it. */
  lemma HeapFlags()
    ensures MayWrite(HEAP_PAGE_FLAGS) && !User(HEAP_PAGE_FLAGS)
  {
  }

  lemma BackedUndisturbed(s: Snapshot, s': Snapshot, p: Page, f: nat, ok: bool)
    requires Partitioned(s) && f in s.free && s'.total == s.total
    requires Extended(s.mem, s.tables, s.free - {f}, s'.mem, s'.tables, s'.free)
    requires s'.leaves == if ok then s.leaves[f := p] else s.leaves
    ensures Undisturbed(s, s', if ok then {} else {f})
  {
    assert f !in s.leaves && f !in s.tables;
    ExtendedApart(s.mem, s.tables, s.free - {f}, s'.mem, s'.tables, s'.free, s.leaves, s.total);
    assert f !in s'.tables.Keys - s.tables.Keys;
    assert s'.free + s'.tables.Keys + {f} == s.free + s.tables.Keys;
  }

  lemma UndisturbedTrans(s: Snapshot, s1: Snapshot, s2: Snapshot, lost: set<nat>, more: set<nat>)
    requires Undisturbed(s, s1, lost) && Undisturbed(s1, s2, more)
    ensures Undisturbed(s, s2, lost + more)
  {
    assert lost !! Pool(s1) && Pool(s2) <= Pool(s1);
    assert Pool(s2) + (lost + more) == Pool(s);
  }

  lemma BackedStep(s: Snapshot, s1: Snapshot, s2: Snapshot, lo: nat, n: nat, lost: set<nat>, p: Page, f: nat, ok: bool)
    requires Backed(s, s1, lo, n, lost) && PageBacked(s1, s2, p, f, ok)
    requires WfPage(p) && NumOf(p) == n && lo <= n
    ensures lost == {} && Backed(s, s2, lo, n + 1, if ok then {} else {f})
  {
    hide Undisturbed, Partitioned, InRange, NumOf, KernelPage;
    assert lost == {} by { assert f in s1.free; }
    var more := if ok then {} else {f};
    UndisturbedTrans(s, s1, s2, {}, more);
    assert {} + more == more;
    RangeSnoc(lo, n, p);
  }

  lemma ClearedViews(s: Snapshot, s1: Snapshot, s2: Snapshot, lo: nat, n: nat, lost: set<nat>)
    requires Partitioned(s1) && RangeUnmapped(s, lo, n)
    requires Backed(s, s1, lo, n, lost) && RangeCleared(s1, s2, lo, n)
    ensures forall p :: p in s.view && p in s2.view ==> s2.view[p] == s.view[p]
  {
    forall p | p in s.view && p in s2.view
      ensures s2.view[p] == s.view[p]
    {
      assert p in s1.view;
    }
  }

  lemma ClearedLeaves(s: Snapshot, s1: Snapshot, s2: Snapshot, lo: nat, n: nat, lost: set<nat>)
    requires Partitioned(s) && RangeUnmapped(s, lo, n)
    requires Backed(s, s1, lo, n, lost) && RangeCleared(s1, s2, lo, n)
    ensures s2.leaves == s.leaves
  {
    forall d | d in s.leaves ensures !InRange(s.leaves[d], lo, n) {
      assert s.leaves[d] in s.view;
    }
    forall d | d in s.leaves ensures d in s2.leaves && s2.leaves[d] == s.leaves[d] {
      assert d in s1.leaves;
    }
    forall d | d in s2.leaves ensures d in s.leaves {
      assert d in s1.leaves;
    }
  }

  /** What the failed growth leaves behind once its pages are unmapped again. */
  lemma BackedThenCleared(s: Snapshot, s1: Snapshot, s2: Snapshot, lo: nat, n: nat, lost: set<nat>)
    requires Partitioned(s) && Partitioned(s1) && RangeUnmapped(s, lo, n)
    requires Backed(s, s1, lo, n, lost) && RangeCleared(s1, s2, lo, n)
    ensures Undisturbed(s, s2, lost) && s2.leaves == s.leaves
    ensures forall p :: p in s.view && p in s2.view ==> s2.view[p] == s.view[p]
  {
    ClearedViews(s, s1, s2, lo, n, lost);
    ClearedLeaves(s, s1, s2, lo, n, lost);
    assert Pool(s2) == Pool(s1);
  }

  /** One round of `heap_map_pages`. */
  method BackPage(vm: AddressSpace, addr: nat) returns (ok: bool, ghost f: nat, ghost mapped: bool)
    requires vm.Owned() && PageOf(addr) in vm.view && vm.view[PageOf(addr)].Unmapped?
    modifies vm`mem, vm`tables, vm`view, vm`leaves, vm.pmm`free, vm.pmm`freeFrames, vm.pmm.bitmap
    ensures vm.Owned()
    ensures !ok ==> vm.Snap() == old(vm.Snap()) && vm.pmm.free == {}
    ensures ok ==> PageBacked(old(vm.Snap()), vm.Snap(), PageOf(addr), f, mapped)
    ensures ok ==> f in old(vm.pmm.free)
    ensures ok && mapped ==>
              Made(old(vm.tables), old(vm.pmm.free) - {f}, vm.tables, vm.pmm.free, Prefixes(PageOf(addr)))
    ensures ok && !mapped ==> Short(old(vm.tables), old(vm.pmm.free) - {f}, Prefixes(PageOf(addr)))
  {
    hide Whole, Prefixes;
    vm.SnapPartitioned();
    var phys := vm.TakeFrame();
    if phys == 0 { return false, 0, false; }
    f := phys / 4096;
    mapped := vm.MapSpare(addr, phys, HEAP_PAGE_FLAGS);
    ok := true;
    StillUnmapped(old(vm.view), old(vm.leaves), vm.view, vm.leaves, PageOf(addr), f, mapped);
    BackedByMap(old(vm.Snap()), vm.Snap(), PageOf(addr), f, mapped);
  }

  lemma StillUnmapped(view: imap<Page, View>, lv: map<nat, Page>, view': imap<Page, View>, lv': map<nat, Page>,
                      p: Page, f: nat, ok: bool)
    requires MapResult(view, lv, view', lv', p, f, HEAP_PAGE_FLAGS, ok) && p in view && view[p].Unmapped?
    ensures !ok ==> p in view' && view'[p].Unmapped?
  {
  }

  /** The rollback: pages `n` - 1 down to `lo`. */
  method UnmapBack(vm: AddressSpace, lo: nat, n: nat)
    requires vm.Owned() && lo <= n <= PAGE_LIMIT
    modifies vm`mem, vm`view, vm`leaves, vm.pmm`free, vm.pmm`freeFrames, vm.pmm.bitmap
    ensures vm.Owned()
    ensures RangeCleared(old(vm.Snap()), vm.Snap(), lo, n)
  {
    vm.SnapPartitioned();
    ClearedNone(vm.Snap(), n);
    var k := n;
    while k > lo
      invariant lo <= k <= n
      invariant vm.Owned()
      invariant RangeCleared(old(vm.Snap()), vm.Snap(), k, n)
    {
      k := k - 1;
      ghost var s1 := vm.Snap();
      vm.SnapPartitioned();
      UnmapOne(vm, 4096 * k);
      vm.SnapPartitioned();
      NumOfNumber(k);
      ClearedStepDown(old(vm.Snap()), s1, vm.Snap(), k, n, PageOf(4096 * k));
    }
  }

  /** The frames used for the pages `lo` up to `n`: as many as they take, or all there were. */
  ghost predicate Progress(s: Snapshot, s1: Snapshot, lo: nat, n: nat, lost: set<nat>) {
    && lo <= n && (lost == {} ==> UsedUpTo(s, s1, lo, n)) && |lost| <= 1
    && (lost != {} ==> lo < n && RunsOutAt(s.tables, |s.free|, lo, n - 1))
  }

  lemma NoProgress(s: Snapshot, lo: nat)
    ensures Progress(s, s, lo, lo, {})
  {
    hide UsedUpTo;
    UsedNone(s, lo);
  }

  lemma ProgressStep(s: Snapshot, s1: Snapshot, s2: Snapshot, lo: nat, n: nat, f: nat, mapped: bool)
    requires lo <= n && Progress(s, s1, lo, n, {}) && f in s1.free
    requires if mapped then Made(s1.tables, s1.free - {f}, s2.tables, s2.free, Prefixes(PageOf(4096 * n)))
             else Short(s1.tables, s1.free - {f}, Prefixes(PageOf(4096 * n)))
    ensures Progress(s, s2, lo, n + 1, if mapped then {} else {f})
  {
    hide UsedUpTo, RunsOutAt, Made, Short, PageOf, Prefixes;
    if mapped { UsedStep(s, s1, s2, lo, n, f); } else { RunsOutNow(s, s1, lo, n, f); }
  }

  lemma ProgressStops(s: Snapshot, s1: Snapshot, lo: nat, n: nat, hi: nat, lost: set<nat>)
    requires lo <= n < hi && Progress(s, s1, lo, n, lost) && s1.free == {}
    ensures Outcome(s, lo, hi, false, lost) && |lost| <= 1
  {
    hide UsedUpTo, RunsOutAt, Outcome;
    if lost == {} { StoppedAt(s, s1, lo, n, hi); } else { LostAt(s, lo, n - 1, hi, lost); }
  }

  lemma ProgressEnds(s: Snapshot, s1: Snapshot, lo: nat, hi: nat, lost: set<nat>)
    requires lo <= hi && Progress(s, s1, lo, hi, lost)
    ensures Outcome(s, lo, hi, true, lost) && |lost| <= 1
  {
    hide UsedUpTo, RunsOutAt, Outcome;
    if lost == {} { AllBacked(s, s1, lo, hi); } else { LostAt(s, lo, hi - 1, hi, lost); }
  }

  /** Backs the pages numbered `lo` up to `hi`; on failure the pages mapped so far are unmapped. */
  method MapPages(vm: AddressSpace, lo: nat, hi: nat) returns (ok: bool, ghost lost: set<nat>)
    requires vm.Owned() && lo <= hi <= PAGE_LIMIT && RangeUnmapped(vm.Snap(), lo, hi)
    modifies vm`mem, vm`tables, vm`view, vm`leaves, vm.pmm`free, vm.pmm`freeFrames, vm.pmm.bitmap
    ensures vm.Owned()
    ensures ok ==> Backed(old(vm.Snap()), vm.Snap(), lo, hi, lost)
    ensures !ok ==> Undisturbed(old(vm.Snap()), vm.Snap(), lost) && vm.leaves == old(vm.leaves)
    ensures !ok ==> forall p :: p in old(vm.view) && p in vm.view ==> vm.view[p] == old(vm.view)[p]
    ensures Outcome(old(vm.Snap()), lo, hi, ok, lost) && |lost| <= 1
  {
    hide Whole, PageOf, Backed, Outcome, Progress, Prefixes, Partitioned, Undisturbed, PageBacked, Made, Short;
    vm.SnapPartitioned();
    BackedNone(vm.Snap(), lo);
    NoProgress(vm.Snap(), lo);
    var n := lo;
    lost := {};
    while n < hi
      invariant lo <= n <= hi && vm.Owned()
      invariant Backed(old(vm.Snap()), vm.Snap(), lo, n, lost) && Progress(old(vm.Snap()), vm.Snap(), lo, n, lost)
    {
      ghost var s, s1, p := old(vm.Snap()), vm.Snap(), PageOf(4096 * n);
      vm.SnapPartitioned();
      NumOfNumber(n);
      NextUnmapped(s, s1, lo, n, hi, lost, p);
      var got;
      ghost var f, mapped;
      got, f, mapped := BackPage(vm, 4096 * n);
      if !got {
        ProgressStops(s, s1, lo, n, hi, lost);
        UnmapBack(vm, lo, n);
        BackedThenCleared(s, s1, vm.Snap(), lo, n, lost);
        return false, lost;
      }
      BackedStep(s, s1, vm.Snap(), lo, n, lost, p, f, mapped);
      ProgressStep(s, s1, vm.Snap(), lo, n, f, mapped);
      lost := if mapped then {} else {f};
      n := n + 1;
    }
    ProgressEnds(old(vm.Snap()), vm.Snap(), lo, hi, lost);
    return true, lost;
  }

  lemma NextUnmapped(s: Snapshot, s1: Snapshot, lo: nat, n: nat, hi: nat, lost: set<nat>, p: Page)
    requires Partitioned(s) && Partitioned(s1) && RangeUnmapped(s, lo, hi) && Backed(s, s1, lo, n, lost)
    requires WfPage(p) && NumOf(p) == n && lo <= n < hi
    ensures p in s1.view && s1.view[p].Unmapped?
    ensures RangeUnmapped(s, lo, n)
  {
    assert InRange(p, lo, hi);
  }

  /** Beyond the new pages nothing was mapped. */
  lemma UnmappedBeyond(s: Snapshot, s': Snapshot, lo: nat, hi: nat, top: nat, lost: set<nat>)
    requires Partitioned(s) && RangeUnmapped(s, lo, top) && lo <= hi <= top && Backed(s, s', lo, hi, lost)
    ensures RangeUnmapped(s', hi, top)
  {
    forall p | InRange(p, hi, top) && p in s'.view
      ensures s'.view[p].Unmapped?
    {
      assert p in s.view && InRange(p, lo, top) && !InRange(p, lo, hi);
    }
  }

  lemma UnmappedStill(s: Snapshot, s': Snapshot, lo: nat, top: nat)
    requires Partitioned(s) && RangeUnmapped(s, lo, top)
    requires forall p :: p in s.view && p in s'.view ==> s'.view[p] == s.view[p]
    ensures RangeUnmapped(s', lo, top)
  {
  }

  lemma UnmappedPrefix(s: Snapshot, lo: nat, hi: nat, top: nat)
    requires RangeUnmapped(s, lo, top) && hi <= top
    ensures RangeUnmapped(s, lo, hi)
  {
  }

  /** Backs the pages `lo` up to `hi` of a region that is unmapped up to `top`. */
  method BackPages(vm: AddressSpace, lo: nat, hi: nat, ghost top: nat) returns (ok: bool, ghost lost: set<nat>)
    requires vm.Owned() && lo <= hi <= top <= PAGE_LIMIT && RangeUnmapped(vm.Snap(), lo, top)
    modifies vm`mem, vm`tables, vm`view, vm`leaves, vm.pmm`free, vm.pmm`freeFrames, vm.pmm.bitmap
    ensures vm.Owned()
    ensures ok ==> RangeUnmapped(vm.Snap(), hi, top) && Backed(old(vm.Snap()), vm.Snap(), lo, hi, lost)
    ensures !ok ==> RangeUnmapped(vm.Snap(), lo, top)
    ensures !ok ==> Undisturbed(old(vm.Snap()), vm.Snap(), lost) && vm.leaves == old(vm.leaves)
    ensures !ok ==> forall p :: p in old(vm.view) && p in vm.view ==> vm.view[p] == old(vm.view)[p]
    ensures Outcome(old(vm.Snap()), lo, hi, ok, lost) && |lost| <= 1
  {
    vm.SnapPartitioned();
    UnmappedPrefix(vm.Snap(), lo, hi, top);
    ok, lost := MapPages(vm, lo, hi);
    if ok {
      UnmappedBeyond(old(vm.Snap()), vm.Snap(), lo, hi, top, lost);
    } else {
      UnmappedStill(old(vm.Snap()), vm.Snap(), lo, top);
    }
  }
}
