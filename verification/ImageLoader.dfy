/** Loading an ELF image from the file buffer (arch/x86_64/user_mode.c): segments and stack, with rollback. */
module ImageLoader {
  import opened Utils
  import opened Options
  import opened Sequences
  import opened Entries
  import opened PageTables
  import opened TableEffects
  import opened TableKeys
  import opened PageRanges
  import opened FrameCounts
  import opened Vmm
  import opened UserRanges
  import opened UserMemory
  import opened UserImage
  import opened ImagePages
  import opened FileBuffer

  // ---------- one segment ----------

  function HullBegin(begin: nat, ph: Phdr): nat {
    if begin == 0 || 4096 * SegLo(ph) < begin then 4096 * SegLo(ph) else begin
  }

  function HullEnd(end: nat, ph: Phdr): nat {
    if 4096 * SegHi(ph) > end then 4096 * SegHi(ph) else end
  }

  /** Every segment has its bytes in the file and its addresses where user programs may be. */
  predicate AllAcceptable(file: seq<nat>)
    requires ValidElf(file)
  {
    forall i :: 0 <= i < PhNum(file) ==>
      var ph := PhdrAt(file, i);
      ph.kind == 1 && ph.memsz != 0 ==>
        && ph.filesz <= ph.memsz && ph.offset + ph.filesz <= |file|
        && 0x1000_0000 <= ph.vaddr && ph.vaddr + ph.memsz <= 0x8000_0000
  }

  /** The checks of the loader, which subtract so as not to wrap, decide just that. */
  lemma AcceptableMeans(ph: Phdr, size: nat)
    requires ph.memsz != 0
    ensures Acceptable(ph, size) <==>
            && ph.filesz <= ph.memsz && ph.offset + ph.filesz <= size
            && 0x1000_0000 <= ph.vaddr && ph.vaddr + ph.memsz <= 0x8000_0000
  {
  }

  /** The pages of the segment were mapped, giving `s1`, and then its bytes were copied. */
  ghost predicate Installed(s: Snapshot, s1: Snapshot, s': Snapshot, file: seq<nat>, ph: Phdr) {
    && Acceptable(ph, |file|) && Partitioned(s1)
    && RangeMapped(s, s1, SegLo(ph), SegHi(ph)) && OnlyDataIn(s1, s', SegLo(ph), SegHi(ph))
    && Copied(s1, s', ph.vaddr, SegmentBytes(file, ph), ph.filesz)
  }

  lemma SegmentWritable(s: Snapshot, s1: Snapshot, file: seq<nat>, ph: Phdr)
    requires Acceptable(ph, |file|) && RangeMapped(s, s1, SegLo(ph), SegHi(ph))
    ensures Writable(s1, ph.vaddr, ph.filesz, SegLo(ph), SegHi(ph))
  {
    forall a | ph.vaddr <= a < ph.vaddr + ph.filesz
      ensures SegLo(ph) <= a / 4096 < SegHi(ph) && PageOf(a) in s1.view && s1.view[PageOf(a)].Small?
    {
      SegPages(ph, a);
      NumOfPageOf(a);
      assert InRange(PageOf(a), SegLo(ph), SegHi(ph));
      assert FreshPage(s1, PageOf(a));
    }
  }

  /** The buffer survives the mapping and the copying of a segment that lies beside the heap. */
  lemma BufferAfterMap(s: Snapshot, s1: Snapshot, ptr: nat, file: seq<nat>, lo: nat, hi: nat)
    requires Partitioned(s) && Partitioned(s1) && RangeMapped(s, s1, lo, hi) && ClearOfHeap(lo, hi)
    requires Buffer(s, ptr, file)
    ensures Buffer(s1, ptr, file)
  {
    hide Whole;
    KeptByMap(s, s1, lo, hi);
    BufferKept(s, s1, ptr, file, lo, hi);
  }

  lemma BufferAfterCopy(s1: Snapshot, s2: Snapshot, ptr: nat, file: seq<nat>, ph: Phdr)
    requires Acceptable(ph, |file|) && ClearOfHeap(SegLo(ph), SegHi(ph)) && Buffer(s1, ptr, file)
    requires OnlyDataIn(s1, s2, SegLo(ph), SegHi(ph))
    requires Copied(s1, s2, ph.vaddr, SegmentBytes(file, ph), ph.filesz)
    ensures Buffer(s2, ptr, file)
  {
    hide Whole;
    KeptByCopy(s1, s2, ph, SegmentBytes(file, ph));
    BufferKept(s1, s2, ptr, file, SegLo(ph), SegHi(ph));
  }

  lemma DataKeepsCount(s: Snapshot, s1: Snapshot, s2: Snapshot, ps: set<Page>, ks: set<Key>, lo: nat, hi: nat)
    requires Paid(s, s1, ps, ks) && OnlyDataIn(s1, s2, lo, hi)
    ensures Paid(s, s2, ps, ks)
  {
    hide Paid;
    PaidKept(s, s1, s2, ps, ks);
  }

  /** `map_load_segment`: the header `ph` was read from the buffer, and the bytes are copied from there. */
  method MapLoadSegment(vm: AddressSpace, ptr: nat, size: nat, ph: Phdr, begin: nat, end: nat, ghost file: seq<nat>)
    returns (ok: bool, begin': nat, end': nat, ghost s1: Snapshot)
    requires vm.Owned() && Buffer(vm.Snap(), ptr, file) && size == |file|
    requires Acceptable(ph, size) ==> NoLarge(vm.Snap(), SegLo(ph), SegHi(ph)) && ClearOfHeap(SegLo(ph), SegHi(ph))
    modifies vm`mem, vm`tables, vm`view, vm`leaves, vm.pmm`free, vm.pmm`freeFrames, vm.pmm.bitmap
    ensures vm.Owned() && (ok ==> Buffer(vm.Snap(), ptr, file))
    ensures ph.kind != 1 || ph.memsz == 0 ==> ok && vm.Snap() == old(vm.Snap()) && (begin', end') == (begin, end)
    ensures !Acceptable(ph, size) ==> vm.Snap() == old(vm.Snap())
    ensures !ok ==> begin' == begin && end' == end
    ensures !ok && Acceptable(ph, size) ==> RangeDropped(old(vm.Snap()), vm.Snap(), SegLo(ph), SegHi(ph))
    ensures ok && ph.kind == 1 && ph.memsz != 0 ==> Installed(old(vm.Snap()), s1, vm.Snap(), file, ph)
    ensures ok && ph.kind == 1 && ph.memsz != 0 ==> begin' == HullBegin(begin, ph) && end' == HullEnd(end, ph)
    ensures ok && ph.kind == 1 && ph.memsz != 0 ==>
              Paid(old(vm.Snap()), vm.Snap(), PagesFor(SegLo(ph), SegHi(ph)), TablesFor(SegLo(ph), SegHi(ph)))
    ensures !ok && Acceptable(ph, size) ==>
              Unpaid(old(vm.Snap()), PagesFor(SegLo(ph), SegHi(ph)), TablesFor(SegLo(ph), SegHi(ph)))
  {
    hide Whole, PagesFor, TablesFor, Paid, Unpaid;
    begin', end', s1 := begin, end, vm.Snap();
    if !Loadable(ph) { return true, begin', end', s1; }
    if !Acceptable(ph, size) { return false, begin', end', s1; }
    ghost var s := vm.Snap();
    vm.SnapPartitioned();
    ok := MapRange(vm, ph.vaddr, ph.memsz);
    if !ok { return; }
    s1 := vm.Snap();
    vm.SnapPartitioned();
    BufferAfterMap(s, s1, ptr, file, SegLo(ph), SegHi(ph));
    SegmentWritable(s, s1, file, ph);
    BufferSource(s1, ptr, file, ph.offset, ph.filesz, SegLo(ph), SegHi(ph));
    CopyBytes(vm, ph.vaddr, ptr + ph.offset, ph.filesz, SegmentBytes(file, ph), SegLo(ph), SegHi(ph));
    BufferAfterCopy(s1, vm.Snap(), ptr, file, ph);
    DataKeepsCount(s, s1, vm.Snap(), PagesFor(SegLo(ph), SegHi(ph)), TablesFor(SegLo(ph), SegHi(ph)),
                   SegLo(ph), SegHi(ph));
    begin', end' := HullBegin(begin, ph), HullEnd(end, ph);
  }

  // ---------- all segments ----------

  lemma AllPass(file: seq<nat>)
    requires ValidElf(file)
    ensures AllAcceptable(file) <==>
            forall i :: 0 <= i < PhNum(file) && Loadable(PhdrAt(file, i)) ==> Acceptable(PhdrAt(file, i), |file|)
  {
    hide Le, ValidElf, PhdrAt, Acceptable;
    forall ph: Phdr | ph.memsz != 0
      ensures Acceptable(ph, |file|) <==>
              && ph.filesz <= ph.memsz && ph.offset + ph.filesz <= |file|
              && 0x1000_0000 <= ph.vaddr && ph.vaddr + ph.memsz <= 0x8000_0000
    {
      AcceptableMeans(ph, |file|);
    }
  }

  /** Every segment that can be loaded lies on the pages numbered `lo` up to `hi`. */
  predicate WithinHull(file: seq<nat>, lo: nat, hi: nat)
    requires ValidElf(file)
  {
    forall i :: 0 <= i < PhNum(file) ==>
      var ph := PhdrAt(file, i);
      ph.kind == 1 && ph.memsz != 0 && Acceptable(ph, |file|) ==> lo <= SegLo(ph) && SegHi(ph) <= hi
  }

  /** The range that the loader records for the first `n` headers: from the lowest page to the highest. */
  function HullOf(file: seq<nat>, n: nat): (nat, nat)
    requires ValidElf(file) && n <= PhNum(file)
  {
    if n == 0 then (0, 0)
    else
      var hull, ph := HullOf(file, n - 1), PhdrAt(file, n - 1);
      if Loadable(ph) then (HullBegin(hull.0, ph), HullEnd(hull.1, ph)) else hull
  }

  predicate PagesApart(a: Phdr, b: Phdr) {
    SegHi(a) <= SegLo(b) || SegHi(b) <= SegLo(a)
  }

  /** No two segments share a page, and none shares a page with the stack. */
  predicate NoSharedPages(file: seq<nat>)
    requires ValidElf(file)
  {
    && (forall i, j :: 0 <= i < j < PhNum(file) ==>
          var a, b := PhdrAt(file, i), PhdrAt(file, j);
          a.kind == 1 && a.memsz != 0 && b.kind == 1 && b.memsz != 0 ==> PagesApart(a, b))
    && (forall i :: 0 <= i < PhNum(file) ==>
          var ph := PhdrAt(file, i);
          ph.kind == 1 && ph.memsz != 0 ==> SegHi(ph) <= STACK_LO || STACK_HI <= SegLo(ph))
  }

  ghost predicate FirstLoaded(s: Snapshot, file: seq<nat>, n: nat)
    requires ValidElf(file) && n <= PhNum(file)
  {
    forall i :: 0 <= i < n ==>
      var ph := PhdrAt(file, i); ph.kind == 1 && ph.memsz != 0 ==> SegmentLoaded(s, file, ph)
  }

  /** The hull of the segments loaded so far: empty, or page-aligned and within `lo` up to `hi`. */
  predicate HullOk(begin: nat, end: nat, lo: nat, hi: nat) {
    || (begin == 0 && end == 0)
    || (0 < begin < end < VA_LIMIT && begin % 4096 == 0 && end % 4096 == 0 && lo <= begin / 4096 && end / 4096 <= hi)
  }

  lemma HullGrows(begin: nat, end: nat, lo: nat, hi: nat, ph: Phdr)
    requires HullOk(begin, end, lo, hi) && RangeOk(ph.vaddr, ph.memsz) && lo <= SegLo(ph) && SegHi(ph) <= hi
    ensures HullOk(HullBegin(begin, ph), HullEnd(end, ph), lo, hi)
    ensures forall p :: InRange(p, begin / 4096, end / 4096) ==>
            InRange(p, HullBegin(begin, ph) / 4096, HullEnd(end, ph) / 4096)
    ensures forall p :: InRange(p, SegLo(ph), SegHi(ph)) ==>
            InRange(p, HullBegin(begin, ph) / 4096, HullEnd(end, ph) / 4096)
  {
    SegPages(ph, 0);
  }

  /** From `s0` only image pages changed; those mapped lie in the hull or, if `stack`, in the stack. */
  ghost predicate Loading(s0: Snapshot, s: Snapshot, lo: nat, hi: nat, begin: nat, end: nat, stack: bool) {
    && Partitioned(s0) && Partitioned(s) && Confined(s0, s, lo, hi)
    && HullOk(begin, end, lo, hi) && Idle(s, lo, hi, begin / 4096, end / 4096, stack)
  }

  lemma LoadingStart(s: Snapshot, lo: nat, hi: nat)
    requires Partitioned(s) && Idle(s, lo, hi, 0, 0, false)
    ensures Loading(s, s, lo, hi, 0, 0, false)
  {
    ConfinedRefl(s, lo, hi);
  }

  lemma LoadingInstalled(s0: Snapshot, s: Snapshot, s1: Snapshot, s': Snapshot, lo: nat, hi: nat, begin: nat, end: nat,
                         file: seq<nat>, ph: Phdr)
    requires Loading(s0, s, lo, hi, begin, end, false) && Installed(s, s1, s', file, ph) && Partitioned(s')
    requires lo <= SegLo(ph) && SegHi(ph) <= hi
    ensures Loading(s0, s', lo, hi, HullBegin(begin, ph), HullEnd(end, ph), false)
  {
    hide Partitioned, Confined, RangeMapped, OnlyDataIn, Copied, HullOk, RangeOk;
    var begin', end' := HullBegin(begin, ph), HullEnd(end, ph);
    ConfinedMap(s0, s, s1, lo, hi, SegLo(ph), SegHi(ph));
    ConfinedData(s0, s1, s', lo, hi, SegLo(ph), SegHi(ph));
    HullGrows(begin, end, lo, hi, ph);
    IdleMap(s, s1, lo, hi, begin / 4096, end / 4096, SegLo(ph), SegHi(ph), begin' / 4096, end' / 4096, false);
    OnlyDataView(s1, s', SegLo(ph), SegHi(ph));
    IdleSame(s1, s', lo, hi, begin' / 4096, end' / 4096, false);
  }

  lemma LoadingDropped(s0: Snapshot, s: Snapshot, s': Snapshot, lo: nat, hi: nat, begin: nat, end: nat, a: nat, b: nat,
                       stack: bool)
    requires Loading(s0, s, lo, hi, begin, end, stack) && RangeDropped(s, s', a, b) && Partitioned(s') &&
             Inside(a, b, lo, hi)
    ensures Loading(s0, s', lo, hi, begin, end, stack)
  {
    hide Partitioned, Confined, RangeDropped, HullOk;
    ConfinedDrop(s0, s, s', lo, hi, a, b);
    IdleDrop(s, s', lo, hi, begin / 4096, end / 4096, a, b, stack);
  }

  lemma InstalledKeeps(s: Snapshot, s1: Snapshot, s': Snapshot, file: seq<nat>, ph: Phdr)
    requires Partitioned(s) && Installed(s, s1, s', file, ph)
    ensures BytesKept(s, s', SegLo(ph), SegHi(ph)) && SegmentLoaded(s', file, ph)
  {
    hide Whole;
    MappedThenCopied(s, s1, s', file, ph);
    KeptByMap(s, s1, SegLo(ph), SegHi(ph));
    KeptByCopy(s1, s', ph, SegmentBytes(file, ph));
    KeptTrans(s, s1, s', SegLo(ph), SegHi(ph));
  }

  lemma NextLoaded(s: Snapshot, s1: Snapshot, s': Snapshot, file: seq<nat>, i: nat)
    requires ValidElf(file) && i < PhNum(file) && NoSharedPages(file) && Loadable(PhdrAt(file, i))
    requires Partitioned(s) && FirstLoaded(s, file, i) && Installed(s, s1, s', file, PhdrAt(file, i))
    ensures FirstLoaded(s', file, i + 1)
  {
    hide Whole, ValidElf, PhdrAt, Partitioned, Installed, Acceptable, SegLo, SegHi;
    InstalledKeeps(s, s1, s', file, PhdrAt(file, i));
    forall j | 0 <= j < i + 1 && Loadable(PhdrAt(file, j)) ensures SegmentLoaded(s', file, PhdrAt(file, j)) {
      if j < i {
        assert PagesApart(PhdrAt(file, j), PhdrAt(file, i));
        SegmentKept(s, s', file, PhdrAt(file, j), SegLo(PhdrAt(file, i)), SegHi(PhdrAt(file, i)));
      }
    }
  }

  lemma StackKeepsSegments(s: Snapshot, s': Snapshot, file: seq<nat>)
    requires ValidElf(file) && NoSharedPages(file) && FirstLoaded(s, file, PhNum(file))
    requires Partitioned(s) && Partitioned(s') && RangeMapped(s, s', STACK_LO, STACK_HI)
    ensures FirstLoaded(s', file, PhNum(file))
  {
    hide Whole, ValidElf, PhdrAt, Partitioned, SegLo, SegHi;
    KeptByMap(s, s', STACK_LO, STACK_HI);
    forall j | 0 <= j < PhNum(file) && Loadable(PhdrAt(file, j)) ensures SegmentLoaded(s', file, PhdrAt(file, j)) {
      SegmentKept(s, s', file, PhdrAt(file, j), STACK_LO, STACK_HI);
    }
  }

  // ---------- what an image takes ----------

  /** The pages of the first `n` segments. */
  ghost function SegmentPages(file: seq<nat>, n: nat): set<Page>
    requires ValidElf(file) && n <= PhNum(file)
  {
    if n == 0 then {}
    else
      var ph := PhdrAt(file, n - 1);
      SegmentPages(file, n - 1) + if Loadable(ph) then PagesFor(SegLo(ph), SegHi(ph)) else {}
  }

  /** The tables they need. */
  ghost function SegmentTables(file: seq<nat>, n: nat): set<Key>
    requires ValidElf(file) && n <= PhNum(file)
  {
    if n == 0 then {}
    else
      var ph := PhdrAt(file, n - 1);
      SegmentTables(file, n - 1) + if Loadable(ph) then TablesFor(SegLo(ph), SegHi(ph)) else {}
  }

  lemma {:induction false} SegmentsMore(file: seq<nat>, n: nat)
    requires ValidElf(file) && n <= PhNum(file)
    ensures SegmentPages(file, n) <= SegmentPages(file, PhNum(file))
    ensures SegmentTables(file, n) <= SegmentTables(file, PhNum(file))
    decreases PhNum(file) - n
  {
    hide ValidElf, PhdrAt, Le, PagesFor, TablesFor, SegLo, SegHi;
    if n < PhNum(file) { SegmentsMore(file, n + 1); }
  }

  /** The first `n` segments are paid for. */
  ghost predicate SegmentsPaid(s: Snapshot, s': Snapshot, file: seq<nat>, n: nat)
    requires ValidElf(file) && n <= PhNum(file)
  {
    Paid(s, s', SegmentPages(file, n), SegmentTables(file, n))
  }

  lemma NoSegmentsPaid(s: Snapshot, file: seq<nat>)
    requires ValidElf(file)
    ensures SegmentsPaid(s, s, file, 0)
  {
    hide ValidElf, Le;
    PaidNone(s);
  }

  lemma NextPaid(s: Snapshot, s1: Snapshot, s2: Snapshot, file: seq<nat>, i: nat)
    requires ValidElf(file) && i < PhNum(file) && SegmentsPaid(s, s1, file, i)
    requires var ph := PhdrAt(file, i);
             if Loadable(ph) then Paid(s1, s2, PagesFor(SegLo(ph), SegHi(ph)), TablesFor(SegLo(ph), SegHi(ph)))
             else s2 == s1
    ensures SegmentsPaid(s, s2, file, i + 1)
  {
    hide ValidElf, PhdrAt, Le, PagesFor, TablesFor, SegLo, SegHi, Paid;
    var ph := PhdrAt(file, i);
    if Loadable(ph) {
      PaidTwice(s, s1, s2, SegmentPages(file, i), SegmentTables(file, i), PagesFor(SegLo(ph), SegHi(ph)),
                TablesFor(SegLo(ph), SegHi(ph)));
    } else {
      assert SegmentPages(file, i) + {} == SegmentPages(file, i);
      assert SegmentTables(file, i) + {} == SegmentTables(file, i);
    }
  }

  lemma SegmentUnpaid(s: Snapshot, s1: Snapshot, file: seq<nat>, i: nat)
    requires ValidElf(file) && i < PhNum(file) && SegmentsPaid(s, s1, file, i) && Loadable(PhdrAt(file, i))
    requires var ph := PhdrAt(file, i); Unpaid(s1, PagesFor(SegLo(ph), SegHi(ph)), TablesFor(SegLo(ph), SegHi(ph)))
    ensures Unpaid(s, SegmentPages(file, PhNum(file)), SegmentTables(file, PhNum(file)))
  {
    hide ValidElf, PhdrAt, Le, PagesFor, TablesFor, SegLo, SegHi, Paid, Unpaid;
    var ph := PhdrAt(file, i);
    UnpaidLater(s, s1, SegmentPages(file, i), SegmentTables(file, i), PagesFor(SegLo(ph), SegHi(ph)),
                TablesFor(SegLo(ph), SegHi(ph)));
    SegmentsMore(file, i + 1);
    UnpaidMore(s, SegmentPages(file, i + 1), SegmentTables(file, i + 1), SegmentPages(file, PhNum(file)),
               SegmentTables(file, PhNum(file)));
  }

  /** One round of the loop over the program headers. */
  method LoadOne(vm: AddressSpace, ptr: nat, size: nat, i: nat, begin: nat, end: nat, ghost file: seq<nat>,
                 ghost s0: Snapshot, ghost lo: nat, ghost hi: nat)
    returns (ok: bool, begin': nat, end': nat)
    requires vm.Owned() && Buffer(vm.Snap(), ptr, file) && size == |file| && ClearOfHeap(lo, hi)
    requires ValidElf(file) && i < PhNum(file) && WithinHull(file, lo, hi)
    requires Loading(s0, vm.Snap(), lo, hi, begin, end, false) && SegmentsPaid(s0, vm.Snap(), file, i)
    modifies vm`mem, vm`tables, vm`view, vm`leaves, vm.pmm`free, vm.pmm`freeFrames, vm.pmm.bitmap
    ensures vm.Owned() && Loading(s0, vm.Snap(), lo, hi, begin', end', false)
    ensures ok ==> Buffer(vm.Snap(), ptr, file) && SegmentsPaid(s0, vm.Snap(), file, i + 1)
    ensures PhdrAt(file, i).kind != 1 || PhdrAt(file, i).memsz == 0 ==> ok && vm.Snap() == old(vm.Snap())
    ensures ok && Loadable(PhdrAt(file, i)) ==> Acceptable(PhdrAt(file, i), |file|)
    ensures ok && (begin, end) == HullOf(file, i) ==> (begin', end') == HullOf(file, i + 1)
    ensures ok && NoSharedPages(file) && FirstLoaded(old(vm.Snap()), file, i) ==> FirstLoaded(vm.Snap(), file, i + 1)
    ensures !ok ==> Loadable(PhdrAt(file, i))
    ensures !ok && Acceptable(PhdrAt(file, i), |file|) ==>
              Unpaid(s0, SegmentPages(file, PhNum(file)), SegmentTables(file, PhNum(file)))
  {
    hide Whole, Le, ValidElf, PhdrAt, Partitioned, Confined, HullOk, NoSharedPages, Acceptable, SegLo, SegHi;
    hide PagesFor, TablesFor, Paid, Unpaid, SegmentsPaid, SegmentPages, SegmentTables, ClearOfHeap;
    ghost var s := vm.Snap();
    vm.SnapPartitioned();
    var ph := ReadPhdr(vm, ptr, i, file);
    if !Loadable(ph) {
      NextPaid(s0, s, s, file, i);
      return true, begin, end;
    }
    ghost var s1;
    if Acceptable(ph, |file|) {
      NoLargeInside(s0, s, lo, hi, SegLo(ph), SegHi(ph));
      ClearInside(lo, hi, SegLo(ph), SegHi(ph));
    }
    ok, begin', end', s1 := MapLoadSegment(vm, ptr, size, ph, begin, end, file);
    vm.SnapPartitioned();
    if ok {
      LoadingInstalled(s0, s, s1, vm.Snap(), lo, hi, begin, end, file, ph);
      NextPaid(s0, s, vm.Snap(), file, i);
      if NoSharedPages(file) && FirstLoaded(s, file, i) { NextLoaded(s, s1, vm.Snap(), file, i); }
    } else if Acceptable(ph, |file|) {
      LoadingDropped(s0, s, vm.Snap(), lo, hi, begin, end, SegLo(ph), SegHi(ph), false);
      SegmentUnpaid(s0, s, file, i);
    }
  }

  lemma ClearInside(lo: nat, hi: nat, a: nat, b: nat)
    requires ClearOfHeap(lo, hi) && lo <= a && b <= hi
    ensures ClearOfHeap(a, b)
  {
  }

  /** The loop over the program headers; their number is read from the buffer in every round. */
  method LoadSegments(vm: AddressSpace, ptr: nat, size: nat, ghost file: seq<nat>, ghost lo: nat, ghost hi: nat)
    returns (ok: bool, begin: nat, end: nat)
    requires vm.Owned() && Buffer(vm.Snap(), ptr, file) && size == |file| && ClearOfHeap(lo, hi)
    requires ValidElf(file) && WithinHull(file, lo, hi) && Idle(vm.Snap(), lo, hi, 0, 0, false)
    modifies vm`mem, vm`tables, vm`view, vm`leaves, vm.pmm`free, vm.pmm`freeFrames, vm.pmm.bitmap
    ensures vm.Owned() && Loading(old(vm.Snap()), vm.Snap(), lo, hi, begin, end, false)
    ensures ok ==> Buffer(vm.Snap(), ptr, file) && SegmentsPaid(old(vm.Snap()), vm.Snap(), file, PhNum(file))
    ensures ok && NoSharedPages(file) ==> FirstLoaded(vm.Snap(), file, PhNum(file))
    ensures ok ==> AllAcceptable(file) && (begin, end) == HullOf(file, PhNum(file))
    ensures !ok && AllAcceptable(file) ==>
              Unpaid(old(vm.Snap()), SegmentPages(file, PhNum(file)), SegmentTables(file, PhNum(file)))
  {
    hide Whole, Le, ValidElf, PhdrAt, Loading, NoSharedPages, Acceptable, SegLo, SegHi, Unpaid, SegmentsPaid;
    hide SegmentPages, SegmentTables, ClearOfHeap;
    ghost var s0 := vm.Snap();
    vm.SnapPartitioned();
    LoadingStart(s0, lo, hi);
    NoSegmentsPaid(s0, file);
    AllPass(file);
    begin, end := 0, 0;
    HeaderFits(file);
    var i := 0;
    var n := ReadLe(vm, ptr, 56, 2, file);
    while i < n
      invariant i <= n == PhNum(file) && vm.Owned() && Buffer(vm.Snap(), ptr, file)
      invariant Loading(s0, vm.Snap(), lo, hi, begin, end, false)
      invariant NoSharedPages(file) ==> FirstLoaded(vm.Snap(), file, i)
      invariant forall j :: 0 <= j < i && Loadable(PhdrAt(file, j)) ==> Acceptable(PhdrAt(file, j), |file|)
      invariant SegmentsPaid(s0, vm.Snap(), file, i) && (begin, end) == HullOf(file, i)
    {
      ok, begin, end := LoadOne(vm, ptr, size, i, begin, end, file, s0, lo, hi);
      if !ok { return false, begin, end; }
      i := i + 1;
      n := ReadLe(vm, ptr, 56, 2, file);
    }
    return true, begin, end;
  }

  lemma HeaderFits(file: seq<nat>)
    requires ValidElf(file)
    ensures |file| >= 64
  {
    hide Le;
  }

  lemma HullEndPage(begin: nat, end: nat, lo: nat, hi: nat)
    requires HullOk(begin, end, lo, hi)
    ensures begin != 0 && end > begin ==>
              EndPage(begin, end - begin) == end / 4096 && Inside(begin / 4096, end / 4096, lo, hi) && end < VA_LIMIT
    ensures !(begin != 0 && end > begin) ==> begin == 0 && end == 0
    ensures HullOk(0, 0, lo, hi)
  {
  }

  method UnmapBetween(vm: AddressSpace, begin: nat, end: nat, ghost a: nat, ghost b: nat)
    requires vm.Owned() && begin < end < VA_LIMIT && begin / 4096 == a && EndPage(begin, end - begin) == b
    modifies vm`mem, vm`view, vm`leaves, vm.pmm`free, vm.pmm`freeFrames, vm.pmm.bitmap
    ensures vm.Owned() && Partitioned(vm.Snap()) && RangeCleared(old(vm.Snap()), vm.Snap(), a, b)
  {
    hide Whole, EndPage;
    UnmapRange(vm, begin, end - begin);
    vm.SnapPartitioned();
  }

  lemma LoadingUnmapped(s0: Snapshot, s: Snapshot, s': Snapshot, lo: nat, hi: nat, begin: nat, end: nat)
    requires Loading(s0, s, lo, hi, begin, end, false) && Partitioned(s')
    requires 0 < begin < end && RangeCleared(s, s', begin / 4096, end / 4096)
    ensures Loading(s0, s', lo, hi, 0, 0, false)
  {
    HullEndPage(begin, end, lo, hi);
    hide Partitioned, Confined, HullOk, EndPage, Inside, RangeCleared, RangeDropped;
    HullCleared(s0, s, s', lo, hi, begin / 4096, end / 4096);
    ClearedIsDropped(s, s', begin / 4096, end / 4096);
    ConfinedDrop(s0, s, s', lo, hi, begin / 4096, end / 4096);
  }

  /** Unmaps the hull of the segments, as every path after loading does. */
  method UnmapHull(vm: AddressSpace, begin: nat, end: nat, ghost s0: Snapshot, ghost lo: nat, ghost hi: nat)
    requires vm.Owned() && Loading(s0, vm.Snap(), lo, hi, begin, end, false)
    modifies vm`mem, vm`view, vm`leaves, vm.pmm`free, vm.pmm`freeFrames, vm.pmm.bitmap
    ensures vm.Owned() && Loading(s0, vm.Snap(), lo, hi, 0, 0, false)
  {
    hide Whole;
    HullEndPage(begin, end, lo, hi);
    if begin != 0 && end > begin {
      hide Loading;
      ghost var s := vm.Snap();
      UnmapBetween(vm, begin, end, begin / 4096, end / 4096);
      LoadingUnmapped(s0, s, vm.Snap(), lo, hi, begin, end);
    }
  }

  lemma StackRange()
    ensures RangeOk(0x6FFF_C000, 16384) && 0x6FFF_C000 / 4096 == STACK_LO && EndPage(0x6FFF_C000, 16384) == STACK_HI
  {
  }

  method UnmapStack(vm: AddressSpace, begin: nat, end: nat, ghost s0: Snapshot, ghost lo: nat, ghost hi: nat)
    requires vm.Owned() && Loading(s0, vm.Snap(), lo, hi, begin, end, true)
    modifies vm`mem, vm`view, vm`leaves, vm.pmm`free, vm.pmm`freeFrames, vm.pmm.bitmap
    ensures vm.Owned() && Loading(s0, vm.Snap(), lo, hi, begin, end, false)
  {
    hide Whole, Partitioned, Confined;
    ghost var s := vm.Snap();
    StackRange();
    UnmapRange(vm, 0x6FFF_C000, 16384);
    vm.SnapPartitioned();
    StackCleared(s0, s, vm.Snap(), lo, hi, begin / 4096, end / 4096);
    ClearedIsDropped(s, vm.Snap(), STACK_LO, STACK_HI);
    ConfinedDrop(s0, s, vm.Snap(), lo, hi, STACK_LO, STACK_HI);
  }

  lemma LoadingStack(s0: Snapshot, s: Snapshot, s': Snapshot, lo: nat, hi: nat, begin: nat, end: nat)
    requires Loading(s0, s, lo, hi, begin, end, false) && RangeMapped(s, s', STACK_LO, STACK_HI) && Partitioned(s')
    ensures Loading(s0, s', lo, hi, begin, end, true)
  {
    hide Partitioned, Confined, RangeMapped;
    ConfinedMap(s0, s, s', lo, hi, STACK_LO, STACK_HI);
    IdleMap(s, s', lo, hi, begin / 4096, end / 4096, STACK_LO, STACK_HI, begin / 4096, end / 4096, true);
  }

  method MapStack(vm: AddressSpace, begin: nat, end: nat, ghost s0: Snapshot, ghost lo: nat,
                  ghost hi: nat) returns (ok: bool)
    requires vm.Owned() && Loading(s0, vm.Snap(), lo, hi, begin, end, false)
    modifies vm`mem, vm`tables, vm`view, vm`leaves, vm.pmm`free, vm.pmm`freeFrames, vm.pmm.bitmap
    ensures vm.Owned() && Loading(s0, vm.Snap(), lo, hi, begin, end, ok)
    ensures ok ==> RangeMapped(old(vm.Snap()), vm.Snap(), STACK_LO, STACK_HI)
    ensures ok ==> Paid(old(vm.Snap()), vm.Snap(), PagesFor(STACK_LO, STACK_HI), TablesFor(STACK_LO, STACK_HI))
    ensures !ok ==> Unpaid(old(vm.Snap()), PagesFor(STACK_LO, STACK_HI), TablesFor(STACK_LO, STACK_HI))
  {
    hide Whole, Partitioned, Confined, PagesFor, TablesFor, Paid, Unpaid;
    ghost var s := vm.Snap();
    StackRange();
    NoLargeInside(s0, s, lo, hi, STACK_LO, STACK_HI);
    ok := MapRange(vm, 0x6FFF_C000, 16384);
    vm.SnapPartitioned();
    if ok {
      LoadingStack(s0, s, vm.Snap(), lo, hi, begin, end);
    } else {
      LoadingDropped(s0, s, vm.Snap(), lo, hi, begin, end, STACK_LO, STACK_HI, false);
    }
  }

  // ---------- the whole image ----------

  /** The stack is there: zeroed pages that user code can access at all levels. */
  ghost predicate StackReady(s: Snapshot) {
    Whole(StackReadyParts(s))
  }

  ghost predicate StackReadyParts(s: Snapshot) {
    forall p :: InRange(p, STACK_LO, STACK_HI) ==> FreshPage(s, p) && Accessible(s.view[p])
  }

  lemma StackMapped(s: Snapshot, s': Snapshot)
    requires RangeMapped(s, s', STACK_LO, STACK_HI)
    ensures StackReady(s')
  {
  }

  /** The pages of all segments and of the stack; pages that segments share are taken once. */
  ghost function ImageSet(file: seq<nat>): set<Page>
    requires ValidElf(file)
  {
    SegmentPages(file, PhNum(file)) + PagesFor(STACK_LO, STACK_HI)
  }

  ghost function ImageTables(file: seq<nat>): set<Key>
    requires ValidElf(file)
  {
    SegmentTables(file, PhNum(file)) + TablesFor(STACK_LO, STACK_HI)
  }

  /** The frames that loading the file takes. */
  ghost function FramesNeeded(s: Snapshot, file: seq<nat>): nat
    requires ValidElf(file)
  {
    FramesIn(s, ImageSet(file), ImageTables(file))
  }

  lemma SegmentsShort(s: Snapshot, file: seq<nat>)
    requires ValidElf(file) && Unpaid(s, SegmentPages(file, PhNum(file)), SegmentTables(file, PhNum(file)))
    ensures |s.free| < FramesNeeded(s, file)
  {
    hide ValidElf, Le, PagesFor, TablesFor, SegmentPages, SegmentTables, FramesIn;
    UnpaidMore(s, SegmentPages(file, PhNum(file)), SegmentTables(file, PhNum(file)), ImageSet(file), ImageTables(file));
  }

  lemma StackShort(s: Snapshot, s1: Snapshot, file: seq<nat>)
    requires ValidElf(file) && SegmentsPaid(s, s1, file, PhNum(file))
    requires Unpaid(s1, PagesFor(STACK_LO, STACK_HI), TablesFor(STACK_LO, STACK_HI))
    ensures |s.free| < FramesNeeded(s, file)
  {
    hide ValidElf, Le, PagesFor, TablesFor, SegmentPages, SegmentTables, FramesIn;
    UnpaidLater(s, s1, SegmentPages(file, PhNum(file)), SegmentTables(file, PhNum(file)), PagesFor(STACK_LO, STACK_HI),
                TablesFor(STACK_LO, STACK_HI));
  }

  lemma ImagePaid(s: Snapshot, s1: Snapshot, s2: Snapshot, file: seq<nat>)
    requires ValidElf(file) && SegmentsPaid(s, s1, file, PhNum(file))
    requires Paid(s1, s2, PagesFor(STACK_LO, STACK_HI), TablesFor(STACK_LO, STACK_HI))
    ensures |s.free| >= FramesNeeded(s, file) && |s2.free| + FramesNeeded(s, file) == |s.free|
  {
    hide ValidElf, Le, PagesFor, TablesFor, SegmentPages, SegmentTables, FramesIn;
    PaidTwice(s, s1, s2, SegmentPages(file, PhNum(file)), SegmentTables(file, PhNum(file)),
              PagesFor(STACK_LO, STACK_HI), TablesFor(STACK_LO, STACK_HI));
  }

  lemma StackBesideHeap()
    ensures ClearOfHeap(STACK_LO, STACK_HI)
  {
  }

  /** Loads the segments and the stack, or takes back what it mapped: it succeeds if and only if every segment
      passes the checks and there are frames for all pages and missing tables. */
  method LoadImage(vm: AddressSpace, ptr: nat, size: nat, ghost file: seq<nat>, ghost lo: nat, ghost hi: nat)
    returns (ok: bool, begin: nat, end: nat)
    requires vm.Owned() && Buffer(vm.Snap(), ptr, file) && size == |file| && ClearOfHeap(lo, hi)
    requires ValidElf(file) && WithinHull(file, lo, hi) && Idle(vm.Snap(), lo, hi, 0, 0, false)
    modifies vm`mem, vm`tables, vm`view, vm`leaves, vm.pmm`free, vm.pmm`freeFrames, vm.pmm.bitmap
    ensures vm.Owned()
    ensures ok ==> Loading(old(vm.Snap()), vm.Snap(), lo, hi, begin, end, true) && Buffer(vm.Snap(), ptr, file)
    ensures ok && NoSharedPages(file) ==> FirstLoaded(vm.Snap(), file, PhNum(file))
    ensures !ok ==> Loading(old(vm.Snap()), vm.Snap(), lo, hi, 0, 0, false)
    ensures ok <==> AllAcceptable(file) && |old(vm.pmm.free)| >= FramesNeeded(old(vm.Snap()), file)
    ensures ok ==> StackReady(vm.Snap()) && (begin, end) == HullOf(file, PhNum(file))
  {
    hide Whole, Le, ValidElf, PhdrAt, Loading, NoSharedPages, FirstLoaded, Idle, WithinHull, AllAcceptable;
    hide PagesFor, TablesFor, Paid, Unpaid, SegmentsPaid, SegmentPages, SegmentTables, FramesNeeded, ClearOfHeap;
    ghost var s0 := vm.Snap();
    ok, begin, end := LoadSegments(vm, ptr, size, file, lo, hi);
    ghost var s1 := vm.Snap();
    vm.SnapPartitioned();
    if !ok {
      if AllAcceptable(file) { SegmentsShort(s0, file); }
      UnmapHull(vm, begin, end, s0, lo, hi);
      return;
    }
    ok := MapStack(vm, begin, end, s0, lo, hi);
    if !ok {
      StackShort(s0, s1, file);
      UnmapHull(vm, begin, end, s0, lo, hi);
      return;
    }
    ImagePaid(s0, s1, vm.Snap(), file);
    vm.SnapPartitioned();
    StackMapped(s1, vm.Snap());
    StackBesideHeap();
    BufferAfterMap(s1, vm.Snap(), ptr, file, STACK_LO, STACK_HI);
    if NoSharedPages(file) { StackKeepsSegments(s1, vm.Snap(), file); }
  }
}
