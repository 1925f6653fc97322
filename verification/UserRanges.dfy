/** arch/x86_64/user_mode.c: mapping, unmapping and marking ranges of user pages. */
module UserRanges {
  import opened Utils
  import opened Options
  import opened Entries
  import opened PageTables
  import opened TableEffects
  import opened TableKeys
  import opened ByteMemory
  import opened PageRanges
  import opened FrameCounts
  import opened Pmm
  import opened Vmm

  /** A mapped 4 KiB page has a nonzero mapping. */
  lemma SmallMapping(s: Snapshot, va: nat)
    requires Partitioned(s) && PageOf(va) in s.view && s.view[PageOf(va)].Small?
    ensures Mapping(s.view[PageOf(va)], va) != 0
  {
  }

  method UnmapOne(vm: AddressSpace, addr: nat)
    requires vm.Owned()
    modifies vm`mem, vm`view, vm`leaves, vm.pmm`free, vm.pmm`freeFrames, vm.pmm.bitmap
    ensures vm.Owned()
    ensures PageCleared(old(vm.Snap()), vm.Snap(), PageOf(addr))
    ensures old(vm.pmm.free) <= vm.pmm.free
  {
    hide Whole;
    vm.SnapPartitioned();
    var u := vm.UnmapPage(addr, true);
    UnmapClears(old(vm.Snap()), vm.Snap(), PageOf(addr), if u == 0 then None else Some(u / 4096));
  }

  /** One round of `unmap_range`. */
  method ClearPage(vm: AddressSpace, addr: nat)
    requires vm.Owned()
    modifies vm`mem, vm`view, vm`leaves, vm.pmm`free, vm.pmm`freeFrames, vm.pmm.bitmap
    ensures vm.Owned()
    ensures PageCleared(old(vm.Snap()), vm.Snap(), PageOf(addr))
    ensures old(vm.pmm.free) <= vm.pmm.free
  {
    var r := vm.GetMapping(addr);
    if r != 0 {
      UnmapOne(vm, addr);
    } else {
      vm.SnapPartitioned();
      if vm.view[PageOf(addr)].Small? { SmallMapping(vm.Snap(), addr); }
      NothingToClear(vm.Snap(), PageOf(addr));
    }
  }

  /** Clears the pages numbered `lo` up to `hi`, in address order. */
  method UnmapPages(vm: AddressSpace, lo: nat, hi: nat)
    requires vm.Owned() && lo <= hi <= PAGE_LIMIT
    modifies vm`mem, vm`view, vm`leaves, vm.pmm`free, vm.pmm`freeFrames, vm.pmm.bitmap
    ensures vm.Owned()
    ensures RangeCleared(old(vm.Snap()), vm.Snap(), lo, hi)
  {
    ClearedNone(vm.Snap(), lo);
    vm.SnapPartitioned();
    var n := lo;
    while n < hi
      invariant lo <= n <= hi
      invariant vm.Owned()
      invariant RangeCleared(old(vm.Snap()), vm.Snap(), lo, n)
    {
      ghost var s1 := vm.Snap();
      vm.SnapPartitioned();
      ClearPage(vm, 4096 * n);
      vm.SnapPartitioned();
      NumOfNumber(n);
      ClearedStep(old(vm.Snap()), s1, vm.Snap(), lo, n, PageOf(4096 * n));
      n := n + 1;
    }
  }

  method UnmapRange(vm: AddressSpace, start: nat, size: nat)
    requires vm.Owned() && start + size < VA_LIMIT
    modifies vm`mem, vm`view, vm`leaves, vm.pmm`free, vm.pmm`freeFrames, vm.pmm.bitmap
    ensures vm.Owned()
    ensures RangeCleared(old(vm.Snap()), vm.Snap(), start / 4096, EndPage(start, size))
  {
    if size == 0 {
      ClearedNone(vm.Snap(), start / 4096);
      return;
    }
    RangePages(start, size);
    UnmapPages(vm, PageDown(start) / 4096, PageUp(start + size) / 4096);
  }

  /** Zeroes a frame just taken, maps it and reads the mapping back. */
  method ZeroAndMap(vm: AddressSpace, addr: nat, phys: nat) returns (got: nat, ghost mapped: bool)
    requires vm.Owned() && PageOf(addr) in vm.view && vm.view[PageOf(addr)].Unmapped?
    requires phys % 4096 == 0 && vm.Spare(phys / 4096)
    modifies vm`mem, vm`tables, vm`view, vm`leaves, vm.pmm`free, vm.pmm`freeFrames, vm.pmm.bitmap
    ensures vm.Owned() && phys / 4096 < |old(vm.mem)|
    ensures Extended(old(vm.mem)[phys / 4096 := ZeroRow()], old(vm.tables), old(vm.pmm.free), vm.mem, vm.tables,
            vm.pmm.free)
    ensures MapResult(old(vm.view), old(vm.leaves), vm.view, vm.leaves, PageOf(addr), phys / 4096, USER_FLAGS, mapped)
    ensures got == phys <==> mapped
    ensures !mapped ==> vm.Spare(phys / 4096) && Short(old(vm.tables), old(vm.pmm.free), Prefixes(PageOf(addr)))
    ensures mapped ==> Made(old(vm.tables), old(vm.pmm.free), vm.tables, vm.pmm.free, Prefixes(PageOf(addr)))
  {
    hide Tree, Shows, Rows, LeavesOk, LeavesApart, Apart, Extended, MapResult, Made, Short, Prefixes;
    vm.WriteFrame(phys / 4096, ZeroRow());
    mapped := vm.MapSpare(addr, phys, USER_FLAGS);
    got := vm.GetMapping(addr);
    MappingAfterMap(old(vm.view), old(vm.leaves), vm.view, vm.leaves, addr, phys / 4096, mapped);
  }

  /** The part of `map_range` that follows the unmapping of an old page. */
  method FillCleared(vm: AddressSpace, addr: nat) returns (ok: bool)
    requires vm.Owned() && PageOf(addr) in vm.view && vm.view[PageOf(addr)].Unmapped?
    modifies vm`mem, vm`tables, vm`view, vm`leaves, vm.pmm`free, vm.pmm`freeFrames, vm.pmm.bitmap
    ensures vm.Owned()
    ensures ok ==> PageFilled(old(vm.Snap()), vm.Snap(), PageOf(addr))
    ensures !ok ==> FillFailed(old(vm.Snap()), vm.Snap())
    ensures ok ==> Paid(old(vm.Snap()), vm.Snap(), {PageOf(addr)}, Prefixes(PageOf(addr)))
    ensures !ok ==> Unpaid(old(vm.Snap()), {PageOf(addr)}, Prefixes(PageOf(addr)))
  {
    hide PageOf, Prefixes, Made, Short, Paid, Unpaid;
    vm.SnapPartitioned();
    FillFailedRefl(vm.Snap());
    var phys := vm.TakeFrame();
    if phys == 0 {
      NoFrame(vm.Snap(), PageOf(addr));
      return false;
    }
    var got;
    ghost var mapped;
    got, mapped := ZeroAndMap(vm, addr, phys);
    ghost var s1 := vm.Snap();
    assert TakenAndExtended(old(vm.Snap()), s1, phys / 4096);
    hide TakenAndExtended, MapResult, Extended, FillFailed, PageFilled, Partitioned;
    if got != phys {
      vm.GiveBack(phys);
      KeptByFailedMap(old(vm.Snap()), s1, vm.Snap(), PageOf(addr), phys / 4096);
      PageNotAdded(old(vm.Snap()), PageOf(addr), phys / 4096);
      return false;
    }
    FilledByMap(old(vm.Snap()), vm.Snap(), PageOf(addr), phys / 4096);
    FilledCount(old(vm.Snap()), vm.Snap(), PageOf(addr), phys / 4096);
    return true;
  }

  lemma FilledCount(s: Snapshot, s': Snapshot, p: Page, f: nat)
    requires Partitioned(s) && p in s.view && s.view[p].Unmapped? && f in s.free
    requires MapResult(s.view, s.leaves, s'.view, s'.leaves, p, f, USER_FLAGS, true)
    requires Made(s.tables, s.free - {f}, s'.tables, s'.free, Prefixes(p))
    ensures Paid(s, s', {p}, Prefixes(p))
  {
    hide Made, Prefixes, Paid;
    PageAdded(s, s', p, f);
  }

  /** One round of `map_range`: whatever was at the page is unmapped first. */
  method FillPage(vm: AddressSpace, addr: nat) returns (ok: bool)
    requires vm.Owned() && PageOf(addr) in vm.view && !vm.view[PageOf(addr)].Large?
    modifies vm`mem, vm`tables, vm`view, vm`leaves, vm.pmm`free, vm.pmm`freeFrames, vm.pmm.bitmap
    ensures vm.Owned()
    ensures ok ==> PageRefilled(old(vm.Snap()), vm.Snap(), PageOf(addr))
    ensures !ok ==> PageLost(old(vm.Snap()), vm.Snap(), PageOf(addr))
    ensures ok ==> Paid(old(vm.Snap()), vm.Snap(), {PageOf(addr)}, Prefixes(PageOf(addr)))
    ensures !ok ==> Unpaid(old(vm.Snap()), {PageOf(addr)}, Prefixes(PageOf(addr)))
  {
    hide Whole, PageOf, Prefixes;
    vm.SnapPartitioned();
    ClearPage(vm, addr);
    ghost var s1 := vm.Snap();
    vm.SnapPartitioned();
    ClearedPage(old(vm.Snap()), s1, PageOf(addr));
    ok := FillCleared(vm, addr);
    ClearThenPaid(old(vm.Snap()), s1, vm.Snap(), PageOf(addr));
    if ok {
      ClearThenFill(old(vm.Snap()), s1, vm.Snap(), PageOf(addr));
    } else {
      ClearThenFail(old(vm.Snap()), s1, vm.Snap(), PageOf(addr));
    }
  }

  lemma ClearedPage(s: Snapshot, s1: Snapshot, p: Page)
    requires PageCleared(s, s1, p) && !s.view[p].Large?
    ensures p in s1.view && s1.view[p].Unmapped?
  {
  }

  method MarkPage(vm: AddressSpace, addr: nat)
    requires vm.Owned()
    modifies vm`mem, vm`view
    ensures vm.Owned()
    ensures Marks(old(vm.mem), old(vm.view), vm.mem, vm.view, vm.tables, vm.pmm.free)
    ensures PageOf(addr) in vm.view && (vm.view[PageOf(addr)].Small? ==> Accessible(vm.view[PageOf(addr)]))
    ensures OthersUntouched(old(vm.view), vm.view, PageOf(addr))
  {
    vm.MarkUserPage(addr);
    SameTargetsLeaves(old(vm.view), vm.view, vm.leaves);
    MarksLength(old(vm.mem), old(vm.view), vm.mem, vm.view, vm.tables, vm.pmm.free);
  }

  lemma MarksLength(m: Mem, view: imap<Page, View>, m': Mem, view': imap<Page, View>,
                    tb: map<nat, Place>, free: set<nat>)
    requires Marks(m, view, m', view', tb, free)
    ensures |m'| == |m|
  {
  }

  method MarkPages(vm: AddressSpace, lo: nat, hi: nat)
    requires vm.Owned() && lo <= hi <= PAGE_LIMIT
    modifies vm`mem, vm`view
    ensures vm.Owned()
    ensures RangeMarked(old(vm.Snap()), vm.Snap(), lo, hi)
  {
    vm.SnapPartitioned();
    MarkedNone(vm.Snap(), lo);
    var n := lo;
    while n < hi
      invariant lo <= n <= hi
      invariant vm.Owned()
      invariant RangeMarked(old(vm.Snap()), vm.Snap(), lo, n)
    {
      ghost var s1 := vm.Snap();
      vm.SnapPartitioned();
      MarkPage(vm, 4096 * n);
      NumOfNumber(n);
      MarkedStep(old(vm.Snap()), s1, vm.Snap(), lo, n, PageOf(4096 * n));
      n := n + 1;
    }
  }

  /** Fills the pages numbered `lo` up to `hi`; on failure unmaps those it had filled. */
  method FillPages(vm: AddressSpace, lo: nat, hi: nat) returns (ok: bool)
    requires vm.Owned() && lo <= hi <= PAGE_LIMIT && NoLarge(vm.Snap(), lo, hi)
    modifies vm`mem, vm`tables, vm`view, vm`leaves, vm.pmm`free, vm.pmm`freeFrames, vm.pmm.bitmap
    ensures vm.Owned()
    ensures ok ==> RangeFilled(old(vm.Snap()), vm.Snap(), lo, hi)
    ensures !ok ==> RangeDropped(old(vm.Snap()), vm.Snap(), lo, hi)
    ensures ok ==> Paid(old(vm.Snap()), vm.Snap(), PagesFor(lo, hi), TablesFor(lo, hi))
    ensures !ok ==> Unpaid(old(vm.Snap()), PagesFor(lo, hi), TablesFor(lo, hi))
  {
    hide Whole, PageOf, RangeFilled, PageRefilled, PageLost, RangeDropped, NoLarge, Paid, Unpaid, PagesFor, TablesFor;
    hide Prefixes;
    vm.SnapPartitioned();
    FilledNone(vm.Snap(), lo);
    NothingPaid(vm.Snap(), lo);
    var n := lo;
    while n < hi
      invariant lo <= n <= hi
      invariant vm.Owned()
      invariant RangeFilled(old(vm.Snap()), vm.Snap(), lo, n)
      invariant Paid(old(vm.Snap()), vm.Snap(), PagesFor(lo, n), TablesFor(lo, n))
    {
      ghost var s, s1, p := old(vm.Snap()), vm.Snap(), PageOf(4096 * n);
      vm.SnapPartitioned();
      NumOfNumber(n);
      StillNotLarge(s, s1, lo, n, hi, p);
      var filled := FillPage(vm, 4096 * n);
      vm.SnapPartitioned();
      RangeStep(lo, n);
      if !filled {
        ghost var s2 := vm.Snap();
        UnpaidLater(s, s1, PagesFor(lo, n), TablesFor(lo, n), {p}, Prefixes(p));
        RangeMore(lo, n + 1, hi);
        UnpaidMore(s, PagesFor(lo, n + 1), TablesFor(lo, n + 1), PagesFor(lo, hi), TablesFor(lo, hi));
        UnmapPages(vm, lo, n);
        DroppedAfterFailure(s, s1, s2, vm.Snap(), lo, n, hi, p);
        return false;
      }
      FilledStep(s, s1, vm.Snap(), lo, n, p);
      PaidTwice(s, s1, vm.Snap(), PagesFor(lo, n), TablesFor(lo, n), {p}, Prefixes(p));
      n := n + 1;
    }
    return true;
  }

  lemma NothingPaid(s: Snapshot, lo: nat)
    ensures Paid(s, s, PagesFor(lo, lo), TablesFor(lo, lo))
  {
    PaidNone(s);
  }

  lemma StillNotLarge(s: Snapshot, s1: Snapshot, lo: nat, n: nat, hi: nat, p: Page)
    requires Partitioned(s) && Partitioned(s1) && RangeFilled(s, s1, lo, n) && NoLarge(s, lo, hi)
    requires WfPage(p) && NumOf(p) == n && lo <= n < hi
    ensures p in s1.view && !s1.view[p].Large?
  {
    assert InRange(p, lo, hi);
  }

  const USER_EXEC_MIN_VADDR: nat := 0x1000_0000
  const USER_EXEC_MAX_VADDR: nat := 0x8000_0000

  predicate RangeOk(start: nat, size: nat) {
    size != 0 && USER_EXEC_MIN_VADDR <= start < USER_EXEC_MAX_VADDR && size <= USER_EXEC_MAX_VADDR - start
  }

  method MapRange(vm: AddressSpace, start: nat, size: nat) returns (ok: bool)
    requires vm.Owned()
    requires RangeOk(start, size) ==> NoLarge(vm.Snap(), start / 4096, EndPage(start, size))
    modifies vm`mem, vm`tables, vm`view, vm`leaves, vm.pmm`free, vm.pmm`freeFrames, vm.pmm.bitmap
    ensures vm.Owned()
    ensures ok ==> RangeOk(start, size) && RangeMapped(old(vm.Snap()), vm.Snap(), start / 4096, EndPage(start, size))
    ensures !ok ==> RangeDropped(old(vm.Snap()), vm.Snap(), start / 4096, EndPage(start, size))
    ensures !RangeOk(start, size) ==> !ok && vm.Snap() == old(vm.Snap())
    ensures ok ==> Paid(old(vm.Snap()), vm.Snap(), PagesFor(start / 4096, EndPage(start, size)),
                        TablesFor(start / 4096, EndPage(start, size)))
    ensures ok <==> RangeOk(start, size) && !Unpaid(old(vm.Snap()), PagesFor(start / 4096, EndPage(start, size)),
                                                    TablesFor(start / 4096, EndPage(start, size)))
  {
    hide Whole, PagesFor, TablesFor, EndPage;
    if !RangeOk(start, size) {
      DroppedNone(vm.Snap(), start / 4096, EndPage(start, size));
      return false;
    }
    RangePages(start, size);
    var lo, hi := PageDown(start) / 4096, PageUp(start + size) / 4096;
    ok := FillPages(vm, lo, hi);
    if !ok { return; }
    ghost var s1 := vm.Snap();
    vm.SnapPartitioned();
    MarkPages(vm, lo, hi);
    vm.SnapPartitioned();
    FillThenMark(old(vm.Snap()), s1, vm.Snap(), lo, hi);
    PaidIsEnough(old(vm.Snap()), s1, PagesFor(lo, hi), TablesFor(lo, hi));
    PaidKept(old(vm.Snap()), s1, vm.Snap(), PagesFor(lo, hi), TablesFor(lo, hi));
  }

  lemma PaidKept(s: Snapshot, s1: Snapshot, s2: Snapshot, ps: set<Page>, ks: set<Key>)
    requires Paid(s, s1, ps, ks) && s2.leaves == s1.leaves && s2.tables == s1.tables && s2.free == s1.free
    ensures Paid(s, s2, ps, ks)
  {
    hide Keys;
  }
}
