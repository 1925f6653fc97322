/** Runs of calls to the frame allocator and the page tables by callers that hold frames across calls: what
    every run keeps. */
module VmmRuns {
  import opened Utils
  import opened Options
  import opened Entries
  import opened PageTables
  import opened TableEffects
  import opened TableKeys
  import opened PageRanges
  import opened Pmm
  import opened Vmm
  import opened UserRanges

  /** `pmm_alloc_frame`, `pmm_free_frame`, `vmm_map_page`, `vmm_unmap_page` and `mark_user_page`. */
  datatype Call =
    | Alloc
    | Free(f: nat)
    | Map(va: nat, f: nat, flags: nat)
    | Unmap(va: nat, freePhys: bool)
    | Mark(va: nat)

  // ---------- the frames the callers hold ----------

  /** Every frame of `held` is in use but neither a table nor shown by a page. */
  ghost predicate HeldSpare(s: Snapshot, held: set<nat>) {
    Whole(HeldSpareParts(s, held))
  }

  ghost predicate HeldSpareParts(s: Snapshot, held: set<nat>) {
    forall f :: f in held ==> IsSpare(f, s.leaves, s.tables, s.free, s.total, |s.mem|)
  }

  lemma SpareHeld(s: Snapshot, held: set<nat>, f: nat)
    requires HeldSpare(s, held) && f in held
    ensures IsSpare(f, s.leaves, s.tables, s.free, s.total, |s.mem|)
  {
  }

  /** No frame comes or goes: each is free, a table, shown by a page or held. */
  ghost predicate Accounts(s: Snapshot, held: set<nat>, s': Snapshot, held': set<nat>) {
    && s'.tables.Keys >= s.tables.Keys && |s'.mem| == |s.mem| && s'.total == s.total
    && Pool(s') + held' == Pool(s) + held
  }

  /** Page `p` shows the same frame with the same entry and contents. */
  ghost predicate PageKept(s: Snapshot, s': Snapshot, p: Page)
    requires p in s.view && p in s'.view
  {
    && Untouched(s.view[p], s'.view[p])
    && (s.view[p].Small? ==>
          var f := Frame(s.view[p].entry); f < |s.mem| && f < |s'.mem| && s'.mem[f] == s.mem[f])
  }

  /** Pages outside `ps` are kept and large pages anywhere stay. */
  ghost predicate ViewsKept(s: Snapshot, s': Snapshot, ps: set<Page>) {
    Whole(ViewsKeptParts(s, s', ps))
  }

  ghost predicate ViewsKeptParts(s: Snapshot, s': Snapshot, ps: set<Page>) {
    && (forall p :: p in s.view && p in s'.view)
    && (forall p :: p !in ps ==> PageKept(s, s', p))
    && (forall p :: s.view[p].Large? || s'.view[p].Large? ==> s'.view[p] == s.view[p])
  }

  ghost predicate Kept(s: Snapshot, held: set<nat>, s': Snapshot, held': set<nat>, ps: set<Page>) {
    Accounts(s, held, s', held') && HeldSpare(s', held') && ViewsKept(s, s', ps)
  }

  lemma KeptRefl(s: Snapshot, held: set<nat>)
    requires Partitioned(s) && HeldSpare(s, held)
    ensures Kept(s, held, s, held, {})
  {
  }

  lemma KeptTrans(s: Snapshot, held: set<nat>, s1: Snapshot, held1: set<nat>, s2: Snapshot, held2: set<nat>,
                  ps: set<Page>, qs: set<Page>)
    requires Kept(s, held, s1, held1, ps) && Kept(s1, held1, s2, held2, qs)
    ensures Kept(s, held, s2, held2, ps + qs)
  {
    hide Pool, HeldSpare;
    forall p | p !in ps + qs ensures PageKept(s, s2, p) {
      assert PageKept(s, s1, p) && PageKept(s1, s2, p);
    }
  }

  /** The 4 KiB pages a call may leave: those there were, but for the one it unmaps, and the one it maps. */
  ghost predicate SmallAfter(s: Snapshot, s': Snapshot, c: Call) {
    Whole(SmallAfterParts(s, s', c))
  }

  ghost predicate SmallAfterParts(s: Snapshot, s': Snapshot, c: Call) {
    forall p :: p in s'.view && s'.view[p].Small? ==>
                  || (c.Map? && p == PageOf(c.va))
                  || (p in s.view && s.view[p].Small? && !(c.Unmap? && p == PageOf(c.va)))
  }

  /** The frame page `p` showed, if none shows it any longer. */
  ghost function Overwritten(s: Snapshot, s': Snapshot, p: Page): set<nat> {
    if p in s.view && s.view[p].Small? && Frame(s.view[p].entry) !in s'.leaves then {Frame(s.view[p].entry)} else {}
  }

  /** A page cannot be mapped inside a large page, or with too few free frames for its tables. */
  ghost predicate CannotMap(s: Snapshot, p: Page) {
    p in s.view && (s.view[p].Large? || Short(s.tables, s.free, Prefixes(p)))
  }

  /** Which frames change hands: an allocation takes a free frame if there is one, a mapping that succeeds
      puts its frame into the page and leaves what the page showed with nobody, an unmapping takes the frame
      out of the page. A mapping succeeds unless it cannot. */
  ghost predicate Moved(s: Snapshot, held: set<nat>, s': Snapshot, held': set<nat>, c: Call) {
    Whole(MovedParts(s, held, s', held', c))
  }

  ghost predicate MovedParts(s: Snapshot, held: set<nat>, s': Snapshot, held': set<nat>, c: Call) {
    match c
    case Alloc =>
      if s.free == {} then held' == held && s'.free == {}
      else exists f :: f in s.free && held' == held + {f} && s'.free == s.free - {f}
    case Free(f) => held' == held - {f} && s'.free == s.free + {f}
    case Map(va, f, _) =>
      if f in s'.leaves then s'.leaves[f] == PageOf(va) && held' == held - {f} + Overwritten(s, s', PageOf(va))
      else held' == held && s'.leaves == s.leaves && Overwritten(s, s', PageOf(va)) == {} && CannotMap(s, PageOf(va))
    case Unmap(va, freePhys) =>
      if PageOf(va) in s.view && s.view[PageOf(va)].Small? then
        var f := Frame(s.view[PageOf(va)].entry);
        f !in s'.leaves && (if freePhys then held' == held && f in s'.free else held' == held + {f})
      else held' == held && s'.free == s.free
    case Mark(va) =>
      && held' == held && s'.free == s.free && PageOf(va) in s'.view
      && (s'.view[PageOf(va)].Small? ==> Accessible(s'.view[PageOf(va)]))
  }

  /** What one call does: the frames that change hands, and the pages that stay. */
  ghost predicate Stepped(s: Snapshot, held: set<nat>, s': Snapshot, held': set<nat>, c: Call) {
    Kept(s, held, s', held', Pages(c)) && SmallAfter(s, s', c) && Moved(s, held, s', held', c)
  }

  /** The page a call names. */
  ghost function Pages(c: Call): set<Page> {
    if c.Alloc? || c.Free? then {} else {PageOf(c.va)}
  }

  // ---------- single calls ----------

  lemma NoneAllocated(s: Snapshot, held: set<nat>)
    requires Partitioned(s) && HeldSpare(s, held)
    ensures s.free == {} ==> Stepped(s, held, s, held, Alloc)
  {
    hide Pool;
  }

  lemma Allocated(s: Snapshot, held: set<nat>, s': Snapshot, f: nat)
    requires Partitioned(s) && HeldSpare(s, held) && f in s.free && s' == s.(free := s.free - {f})
    requires IsSpare(f, s'.leaves, s'.tables, s'.free, s'.total, |s'.mem|)
    ensures Stepped(s, held, s', held + {f}, Alloc)
  {
  }

  lemma Freed(s: Snapshot, held: set<nat>, s': Snapshot, f: nat)
    requires Partitioned(s) && HeldSpare(s, held) && f in held && s' == s.(free := s.free + {f})
    ensures Stepped(s, held, s', held - {f}, Free(f))
  {
  }

  lemma MarkKeeps(s: Snapshot, held: set<nat>, s': Snapshot, va: nat)
    requires Partitioned(s) && HeldSpare(s, held) && s' == s.(mem := s'.mem, view := s'.view)
    requires Marks(s.mem, s.view, s'.mem, s'.view, s.tables, s.free)
    requires PageOf(va) in s'.view && (s'.view[PageOf(va)].Small? ==> Accessible(s'.view[PageOf(va)]))
    requires OthersUntouched(s.view, s'.view, PageOf(va))
    ensures Stepped(s, held, s', held, Mark(va))
  {
    hide PageOf;
    forall q ensures q in s.view && q in s'.view && SameTarget(s.view[q], s'.view[q]) {
    }
    forall q | q != PageOf(va) ensures PageKept(s, s', q) {
      if s.view[q].Small? { LeafRecorded(s.view, s.leaves, q); }
    }
  }

  lemma UnmapAccounts(s: Snapshot, held: set<nat>, s': Snapshot, p: Page, freePhys: bool, r: Option<nat>)
    requires Partitioned(s) && HeldSpare(s, held) && s'.tables == s.tables && s'.total == s.total
    requires UnmapResult(s.view, s.leaves, s.free, s'.view, s'.leaves, s'.free, p, freePhys, r)
    requires Extended(s.mem, s.tables, s.free, s'.mem, s.tables, s.free)
    ensures var held' := if !freePhys && r.Some? then held + {r.value} else held;
            Accounts(s, held, s', held') && HeldSpare(s', held')
  {
    if s.view[p].Small? { LeafRecorded(s.view, s.leaves, p); }
    var held' := if !freePhys && r.Some? then held + {r.value} else held;
    assert s'.free + s'.leaves.Keys + held' == s.free + s.leaves.Keys + held;
  }

  lemma UnmapViews(s: Snapshot, s': Snapshot, p: Page, freePhys: bool, r: Option<nat>)
    requires Partitioned(s) && s'.tables == s.tables
    requires UnmapResult(s.view, s.leaves, s.free, s'.view, s'.leaves, s'.free, p, freePhys, r)
    requires Extended(s.mem, s.tables, s.free, s'.mem, s.tables, s.free)
    ensures ViewsKept(s, s', {p})
  {
    forall q | q != p ensures q in s.view && q in s'.view && PageKept(s, s', q) {
      assert q in s.view;
      if s.view[q].Small? { LeafRecorded(s.view, s.leaves, q); }
    }
  }

  lemma Unmapped(s: Snapshot, held: set<nat>, s': Snapshot, va: nat, freePhys: bool, r: Option<nat>)
    requires Partitioned(s) && HeldSpare(s, held) && s'.tables == s.tables && s'.total == s.total
    requires UnmapResult(s.view, s.leaves, s.free, s'.view, s'.leaves, s'.free, PageOf(va), freePhys, r)
    requires Extended(s.mem, s.tables, s.free, s'.mem, s.tables, s.free)
    ensures Stepped(s, held, s', if !freePhys && r.Some? then held + {r.value} else held, Unmap(va, freePhys))
  {
    hide Partitioned, HeldSpare, Extended, Accounts, ViewsKept, PageOf;
    UnmapAccounts(s, held, s', PageOf(va), freePhys, r);
    UnmapViews(s, s', PageOf(va), freePhys, r);
  }

  /** New tables leave the frames of mapped pages alone. */
  lemma MapPool(s: Snapshot, s': Snapshot)
    requires Partitioned(s) && Extended(s.mem, s.tables, s.free, s'.mem, s'.tables, s'.free)
    ensures s'.free + s'.tables.Keys == s.free + s.tables.Keys && s'.tables.Keys >= s.tables.Keys
    ensures |s'.mem| == |s.mem|
    ensures forall d :: d in s.leaves ==> d < |s.mem| && s'.mem[d] == s.mem[d]
  {
    ExtendedApart(s.mem, s.tables, s.free, s'.mem, s'.tables, s'.free, s.leaves, s.total);
  }

  lemma MapViewsKept(s: Snapshot, s': Snapshot, p: Page, f: nat, flags: nat, ok: bool)
    requires Partitioned(s) && |s'.mem| == |s.mem|
    requires forall d :: d in s.leaves ==> d < |s.mem| && s'.mem[d] == s.mem[d]
    requires MapResult(s.view, s.leaves, s'.view, s'.leaves, p, f, flags, ok)
    ensures ViewsKept(s, s', {p})
  {
    forall q | q != p ensures q in s.view && q in s'.view && PageKept(s, s', q) {
      assert q in s.view;
      if s.view[q].Small? { LeafRecorded(s.view, s.leaves, q); }
    }
  }

  /** The frames after mapping: `f` is shown, and what the page showed before is held. */
  lemma MapLeafKeys(s: Snapshot, s': Snapshot, p: Page, f: nat, flags: nat, ok: bool)
    requires Partitioned(s) && f !in s.leaves
    requires MapResult(s.view, s.leaves, s'.view, s'.leaves, p, f, flags, ok)
    ensures Overwritten(s, s', p) <= s.leaves.Keys
    ensures s'.leaves.Keys == (if ok then s.leaves.Keys - Overwritten(s, s', p) + {f} else s.leaves.Keys)
    ensures !ok ==> Overwritten(s, s', p) == {}
    ensures Overwritten(s, s', p) == (if ok && s.view[p].Small? then {Frame(s.view[p].entry)} else {})
  {
    if s.view[p].Small? { LeafRecorded(s.view, s.leaves, p); }
  }

  ghost function HeldAfterMap(s: Snapshot, held: set<nat>, s': Snapshot, p: Page, f: nat, ok: bool): set<nat> {
    if ok then held - {f} + Overwritten(s, s', p) else held
  }

  lemma MapAccounts(s: Snapshot, held: set<nat>, s': Snapshot, p: Page, f: nat, flags: nat, ok: bool)
    requires Partitioned(s) && HeldSpare(s, held) && f in held && s'.total == s.total
    requires Extended(s.mem, s.tables, s.free, s'.mem, s'.tables, s'.free)
    requires MapResult(s.view, s.leaves, s'.view, s'.leaves, p, f, flags, ok)
    ensures Accounts(s, held, s', HeldAfterMap(s, held, s', p, f, ok))
  {
    SpareHeld(s, held, f);
    MapPool(s, s');
    MapLeafKeys(s, s', p, f, flags, ok);
    hide Partitioned, HeldSpare, Extended, MapResult, Overwritten;
  }

  lemma MapHeld(s: Snapshot, held: set<nat>, s': Snapshot, p: Page, f: nat, flags: nat, ok: bool)
    requires Partitioned(s) && HeldSpare(s, held) && f in held && s'.total == s.total
    requires Extended(s.mem, s.tables, s.free, s'.mem, s'.tables, s'.free)
    requires MapResult(s.view, s.leaves, s'.view, s'.leaves, p, f, flags, ok)
    ensures HeldSpare(s', HeldAfterMap(s, held, s', p, f, ok))
  {
    SpareHeld(s, held, f);
    MapLeafKeys(s, s', p, f, flags, ok);
    ExtendedApart(s.mem, s.tables, s.free, s'.mem, s'.tables, s'.free, s.leaves, s.total);
    hide Partitioned, Extended, MapResult, Overwritten;
  }

  lemma Mapped(s: Snapshot, held: set<nat>, s': Snapshot, va: nat, f: nat, flags: nat, ok: bool)
    requires Partitioned(s) && HeldSpare(s, held) && f in held && s'.total == s.total
    requires Extended(s.mem, s.tables, s.free, s'.mem, s'.tables, s'.free)
    requires MapResult(s.view, s.leaves, s'.view, s'.leaves, PageOf(va), f, flags, ok)
    requires !ok ==> CannotMap(s, PageOf(va))
    ensures Stepped(s, held, s', HeldAfterMap(s, held, s', PageOf(va), f, ok), Map(va, f, flags))
  {
    hide Partitioned, HeldSpare, Extended, PageOf, HeldAfterMap, Accounts, Pool, Moved;
    MapPool(s, s');
    MapViewsKept(s, s', PageOf(va), f, flags, ok);
    MapAccounts(s, held, s', PageOf(va), f, flags, ok);
    MapHeld(s, held, s', PageOf(va), f, flags, ok);
    hide ViewsKept;
    assert SmallAfter(s, s', Map(va, f, flags));
    MapMoved(s, held, s', va, f, flags, ok);
  }

  lemma MapMoved(s: Snapshot, held: set<nat>, s': Snapshot, va: nat, f: nat, flags: nat, ok: bool)
    requires Partitioned(s) && HeldSpare(s, held) && f in held
    requires MapResult(s.view, s.leaves, s'.view, s'.leaves, PageOf(va), f, flags, ok)
    requires !ok ==> CannotMap(s, PageOf(va))
    ensures Moved(s, held, s', HeldAfterMap(s, held, s', PageOf(va), f, ok), Map(va, f, flags))
  {
    hide PageOf, CannotMap;
    SpareHeld(s, held, f);
    MapLeafKeys(s, s', PageOf(va), f, flags, ok);
  }

  /** A look at the page before and after tells whether it was mapped, and what it showed. */
  lemma SeenByMapping(s: Snapshot, s': Snapshot, va: nat, f: nat, flags: nat, ok: bool)
    requires Partitioned(s) && 0 < f < FRAME_LIMIT && flags < 4096 && f !in s.leaves
    requires MapResult(s.view, s.leaves, s'.view, s'.leaves, PageOf(va), f, flags, ok)
    ensures var before, after := Mapping(s.view[PageOf(va)], va), Mapping(s'.view[PageOf(va)], va);
            && (ok <==> after == 4096 * f && before != 4096 * f)
            && Overwritten(s, s', PageOf(va)) == if !ok || before == 0 then {} else {before / 4096}
  {
    hide PageOf;
    var p := PageOf(va);
    PageEntryFields(f, flags);
    MapLeafKeys(s, s', p, f, flags, ok);
    if s.view[p].Small? {
      LeafRecorded(s.view, s.leaves, p);
      assert Frame(s.view[p].entry) > 0;
    }
  }

  method MapHeldFrame(vm: AddressSpace, held: set<nat>, va: nat, f: nat, flags: nat) returns (held': set<nat>)
    requires vm.Owned() && HeldSpare(vm.Snap(), held) && f in held && flags < 4096
    modifies vm`mem, vm`tables, vm`view, vm`leaves, vm.pmm`free, vm.pmm`freeFrames, vm.pmm.bitmap
    ensures vm.Owned() && Stepped(old(vm.Snap()), held, vm.Snap(), held', Map(va, f, flags))
  {
    hide Tree, Shows, Rows, LeavesOk, LeavesApart, Apart, Extended, MapResult, Partitioned, PageOf, Mapping;
    hide Stepped, HeldSpare, Overwritten, Made, Short, Prefixes;
    ghost var s := vm.Snap();
    vm.SnapPartitioned();
    SpareHeld(s, held, f);
    SpareIsFrame(s, f);
    var before := vm.GetMapping(va);
    assert 4096 * f / 4096 == f;
    ghost var ok := vm.MapSpare(va, 4096 * f, flags);
    var after := vm.GetMapping(va);
    SeenByMapping(s, vm.Snap(), va, f, flags, ok);
    FailedMap(s, vm.Snap(), PageOf(va), f, flags, ok);
    Mapped(s, held, vm.Snap(), va, f, flags, ok);
    held' := held;
    if after == 4096 * f && before != 4096 * f {
      held' := held - {f} + (if before == 0 then {} else {before / 4096});
    }
  }

  lemma FailedMap(s: Snapshot, s': Snapshot, p: Page, f: nat, flags: nat, ok: bool)
    requires MapResult(s.view, s.leaves, s'.view, s'.leaves, p, f, flags, ok)
    requires !ok ==> p in s'.view && (s'.view[p].Large? || Short(s.tables, s.free, Prefixes(p)))
    ensures !ok ==> CannotMap(s, p)
  {
    hide Short, Prefixes;
  }

  lemma SpareIsFrame(s: Snapshot, f: nat)
    requires Partitioned(s) && IsSpare(f, s.leaves, s.tables, s.free, s.total, |s.mem|)
    ensures 0 < f < FRAME_LIMIT && f !in s.leaves
  {
  }

  method UnmapHeld(vm: AddressSpace, held: set<nat>, va: nat, freePhys: bool) returns (held': set<nat>)
    requires vm.Owned() && HeldSpare(vm.Snap(), held)
    modifies vm`mem, vm`view, vm`leaves, vm.pmm`free, vm.pmm`freeFrames, vm.pmm.bitmap
    ensures vm.Owned() && Stepped(old(vm.Snap()), held, vm.Snap(), held', Unmap(va, freePhys))
  {
    hide Whole, PageOf, Stepped;
    ghost var s := vm.Snap();
    vm.SnapPartitioned();
    var r := vm.UnmapPage(va, freePhys);
    Unmapped(s, held, vm.Snap(), va, freePhys, if r == 0 then None else Some(r / 4096));
    held' := if !freePhys && r != 0 then held + {r / 4096} else held;
  }

  method AllocHeld(vm: AddressSpace, held: set<nat>) returns (held': set<nat>)
    requires vm.Owned() && HeldSpare(vm.Snap(), held)
    modifies vm.pmm`free, vm.pmm`freeFrames, vm.pmm.bitmap
    ensures vm.Owned() && Stepped(old(vm.Snap()), held, vm.Snap(), held', Alloc)
  {
    hide Whole, Stepped;
    ghost var s := vm.Snap();
    vm.SnapPartitioned();
    NoneAllocated(s, held);
    held' := held;
    var phys := vm.TakeFrame();
    if phys != 0 {
      held' := held + {phys / 4096};
      Allocated(s, held, vm.Snap(), phys / 4096);
    }
  }

  method FreeHeld(vm: AddressSpace, held: set<nat>, f: nat) returns (held': set<nat>)
    requires vm.Owned() && HeldSpare(vm.Snap(), held) && f in held
    modifies vm.pmm`free, vm.pmm`freeFrames, vm.pmm.bitmap
    ensures vm.Owned() && Stepped(old(vm.Snap()), held, vm.Snap(), held', Free(f))
  {
    hide Whole, Stepped;
    ghost var s := vm.Snap();
    vm.SnapPartitioned();
    SpareHeld(s, held, f);
    assert 4096 * f / 4096 == f && 4096 * f % 4096 == 0;
    vm.GiveBack(4096 * f);
    Freed(s, held, vm.Snap(), f);
    held' := held - {f};
  }

  method MarkHeld(vm: AddressSpace, held: set<nat>, va: nat)
    requires vm.Owned() && HeldSpare(vm.Snap(), held)
    modifies vm`mem, vm`view
    ensures vm.Owned() && Stepped(old(vm.Snap()), held, vm.Snap(), held, Mark(va))
  {
    hide Whole, PageOf, Stepped, Marks;
    ghost var s := vm.Snap();
    vm.SnapPartitioned();
    MarkPage(vm, va);
    MarkKeeps(s, held, vm.Snap(), va);
  }

  /** A call that uses a frame names one that is held; only then is it made. */
  predicate Lawful(c: Call, held: set<nat>) {
    (c.Free? ==> c.f in held) && (c.Map? ==> c.f in held && c.flags < 4096)
  }

  method Step(vm: AddressSpace, held: set<nat>, c: Call) returns (held': set<nat>)
    requires vm.Owned() && HeldSpare(vm.Snap(), held) && Lawful(c, held)
    modifies vm`mem, vm`tables, vm`view, vm`leaves, vm.pmm`free, vm.pmm`freeFrames, vm.pmm.bitmap
    ensures vm.Owned() && Stepped(old(vm.Snap()), held, vm.Snap(), held', c)
  {
    hide Whole, PageOf, Stepped, HeldSpare;
    held' := held;
    match c {
      case Alloc => held' := AllocHeld(vm, held);
      case Free(f) => held' := FreeHeld(vm, held, f);
      case Map(va, f, flags) => held' := MapHeldFrame(vm, held, va, f, flags);
      case Unmap(va, freePhys) => held' := UnmapHeld(vm, held, va, freePhys);
      case Mark(va) => MarkHeld(vm, held, va);
    }
  }

  // ---------- runs ----------

  ghost function Touched(calls: seq<Call>): set<Page> {
    if calls == [] then {} else Touched(calls[..|calls| - 1]) + Pages(calls[|calls| - 1])
  }

  /** Whether page `p` can be mapped after `calls`, going by the last call that maps or unmaps it. */
  ghost predicate MaybeSmall(s: Snapshot, calls: seq<Call>, p: Page) {
    if calls == [] then p in s.view && s.view[p].Small?
    else
      var c := calls[|calls| - 1];
      if c.Map? && PageOf(c.va) == p then true
      else if c.Unmap? && PageOf(c.va) == p then false
      else MaybeSmall(s, calls[..|calls| - 1], p)
  }

  /** No page is mapped that may be mapped already. */
  ghost predicate NeverRemaps(s: Snapshot, calls: seq<Call>) {
    forall k :: 0 <= k < |calls| && calls[k].Map? ==> !MaybeSmall(s, calls[..k], PageOf(calls[k].va))
  }

  ghost predicate SmallOnly(s: Snapshot, s': Snapshot, calls: seq<Call>) {
    forall p :: p in s'.view && s'.view[p].Small? ==> MaybeSmall(s, calls, p)
  }

  lemma SmallStep(s: Snapshot, s1: Snapshot, s2: Snapshot, calls: seq<Call>, k: nat)
    requires k < |calls| && SmallOnly(s, s1, calls[..k]) && SmallAfter(s1, s2, calls[k])
    ensures SmallOnly(s, s2, calls[..k + 1])
  {
    hide PageOf;
    assert calls[..k + 1][..k] == calls[..k];
    forall p | p in s2.view && s2.view[p].Small? ensures MaybeSmall(s, calls[..k + 1], p) {
    }
  }

  lemma TouchedSnoc(calls: seq<Call>, k: nat)
    requires k < |calls|
    ensures Touched(calls[..k]) + Pages(calls[k]) == Touched(calls[..k + 1])
  {
    assert calls[..k + 1][..k] == calls[..k];
  }

  /** The states `ss` of a run and the frames `hs` held in them; a call that uses a frame nobody holds is left
      out. */
  ghost predicate Trace(ss: seq<Snapshot>, hs: seq<set<nat>>, calls: seq<Call>) {
    && |ss| == |hs| == |calls| + 1 && Partitioned(ss[0]) && HeldSpare(ss[0], hs[0])
    && forall k :: 0 <= k < |calls| ==> TraceAt(ss[k], hs[k], ss[k + 1], hs[k + 1], calls[k])
  }

  ghost predicate TraceAt(s: Snapshot, held: set<nat>, s': Snapshot, held': set<nat>, c: Call) {
    if Lawful(c, held) then Stepped(s, held, s', held', c) else s' == s && held' == held
  }

  lemma LeftOut(s: Snapshot, held: set<nat>, s1: Snapshot, held1: set<nat>, ps: set<Page>, qs: set<Page>)
    requires Kept(s, held, s1, held1, ps)
    ensures Kept(s, held, s1, held1, ps + qs)
  {
    hide Pool, HeldSpare;
  }

  lemma LeftOutSmall(s: Snapshot, s': Snapshot, calls: seq<Call>, k: nat)
    requires k < |calls| && SmallOnly(s, s', calls[..k]) && !calls[k].Unmap?
    ensures SmallOnly(s, s', calls[..k + 1])
  {
    hide PageOf;
    assert calls[..k + 1][..k] == calls[..k];
  }

  /** Step `k` of a run, made or left out. */
  lemma RunStep(s: Snapshot, held: set<nat>, s1: Snapshot, held1: set<nat>, s2: Snapshot, held2: set<nat>,
                calls: seq<Call>, k: nat)
    requires k < |calls| && Kept(s, held, s1, held1, Touched(calls[..k])) && SmallOnly(s, s1, calls[..k])
    requires TraceAt(s1, held1, s2, held2, calls[k])
    ensures Kept(s, held, s2, held2, Touched(calls[..k + 1])) && SmallOnly(s, s2, calls[..k + 1])
  {
    hide Kept, SmallOnly, Touched, SmallAfter, Pages, Moved;
    TouchedSnoc(calls, k);
    if Lawful(calls[k], held1) {
      KeptTrans(s, held, s1, held1, s2, held2, Touched(calls[..k]), Pages(calls[k]));
      SmallStep(s, s1, s2, calls, k);
    } else {
      LeftOut(s, held, s1, held1, Touched(calls[..k]), Pages(calls[k]));
      LeftOutSmall(s, s1, calls, k);
    }
  }

  lemma RunStart(s: Snapshot, held: set<nat>)
    requires Partitioned(s) && HeldSpare(s, held)
    ensures Kept(s, held, s, held, Touched([])) && SmallOnly(s, s, [])
  {
    KeptRefl(s, held);
  }

  /** Over any run every frame stays accounted for, the frames held stay apart from tables and pages, pages that
      no call names keep their frame and its contents, and large pages stay. */
  lemma {:induction false} RunKeeps(ss: seq<Snapshot>, hs: seq<set<nat>>, calls: seq<Call>, k: nat)
    requires Trace(ss, hs, calls) && k <= |calls|
    ensures Kept(ss[0], hs[0], ss[k], hs[k], Touched(calls[..k])) && SmallOnly(ss[0], ss[k], calls[..k])
    decreases k
  {
    hide Kept, SmallOnly, Touched, TraceAt, Partitioned, HeldSpare;
    if k == 0 {
      RunStart(ss[0], hs[0]);
      assert calls[..0] == [];
    } else {
      RunKeeps(ss, hs, calls, k - 1);
      RunStep(ss[0], hs[0], ss[k - 1], hs[k - 1], ss[k], hs[k], calls, k - 1);
    }
  }

  /** The frames held after `k` calls because a mapping replaced them: no caller was told of them. */
  ghost function Dropped(ss: seq<Snapshot>, hs: seq<set<nat>>, calls: seq<Call>, k: nat): set<nat>
    requires k <= |calls| && |ss| == |hs| == |calls| + 1
  {
    if k == 0 then {}
    else Dropped(ss, hs, calls, k - 1) * hs[k] + Replaced(ss[k - 1], hs[k - 1], ss[k], calls[k - 1])
  }

  ghost function Replaced(s: Snapshot, held: set<nat>, s': Snapshot, c: Call): set<nat> {
    if c.Map? && Lawful(c, held) then Overwritten(s, s', PageOf(c.va)) else {}
  }

  /** What is dropped is held: it is neither free nor a table nor shown by a page. */
  lemma {:induction false} DroppedHeld(ss: seq<Snapshot>, hs: seq<set<nat>>, calls: seq<Call>, k: nat)
    requires Trace(ss, hs, calls) && k <= |calls|
    ensures Dropped(ss, hs, calls, k) <= hs[k]
    decreases k
  {
    if k > 0 {
      assert TraceAt(ss[k - 1], hs[k - 1], ss[k], hs[k], calls[k - 1]);
      hide Trace, Kept, SmallAfter, PageOf, Overwritten;
      DroppedHeld(ss, hs, calls, k - 1);
      ReplacedHeld(ss[k - 1], hs[k - 1], ss[k], hs[k], calls[k - 1]);
    }
  }

  lemma ReplacedHeld(s: Snapshot, held: set<nat>, s': Snapshot, held': set<nat>, c: Call)
    requires TraceAt(s, held, s', held', c)
    ensures Replaced(s, held, s', c) <= held'
  {
    hide Accounts, HeldSpare, SmallAfter, PageOf, Overwritten;
  }

  /** In a run that never maps a page twice nothing is dropped. */
  lemma {:induction false} NothingDropped(ss: seq<Snapshot>, hs: seq<set<nat>>, calls: seq<Call>, k: nat)
    requires Trace(ss, hs, calls) && k <= |calls| && NeverRemaps(ss[0], calls)
    ensures Dropped(ss, hs, calls, k) == {}
    decreases k
  {
    hide Kept, Touched, TraceAt, Partitioned, HeldSpare, MaybeSmall, PageOf;
    if k > 0 {
      NothingDropped(ss, hs, calls, k - 1);
      RunKeeps(ss, hs, calls, k - 1);
      NotMapped(ss[0], ss[k - 1], calls, k - 1);
    }
  }

  lemma NotMapped(s: Snapshot, s1: Snapshot, calls: seq<Call>, k: nat)
    requires k < |calls| && SmallOnly(s, s1, calls[..k]) && NeverRemaps(s, calls)
    ensures calls[k].Map? && PageOf(calls[k].va) in s1.view ==> !s1.view[PageOf(calls[k].va)].Small?
  {
    hide MaybeSmall, PageOf;
  }

  lemma TraceSnoc(ss: seq<Snapshot>, hs: seq<set<nat>>, calls: seq<Call>, k: nat, s: Snapshot, held: set<nat>)
    requires k < |calls| && Trace(ss, hs, calls[..k]) && TraceAt(ss[k], hs[k], s, held, calls[k])
    ensures Trace(ss + [s], hs + [held], calls[..k + 1])
  {
    hide TraceAt, Partitioned, HeldSpare;
    var ts, gs := ss + [s], hs + [held];
    forall i | 0 <= i <= k ensures TraceAt(ts[i], gs[i], ts[i + 1], gs[i + 1], calls[..k + 1][i]) {
      if i < k { assert TraceAt(ss[i], hs[i], ss[i + 1], hs[i + 1], calls[..k][i]); }
    }
  }

  /** Any run of calls by callers that hold the frames `held`: the tables stay a tree of frames in use, apart
      from the frames of pages and from those held, and the run is one of those that `RunKeeps` is about. */
  method Run(vm: AddressSpace, held: set<nat>, calls: seq<Call>)
    returns (held': set<nat>, ghost ss: seq<Snapshot>, ghost hs: seq<set<nat>>)
    requires vm.Owned() && HeldSpare(vm.Snap(), held)
    modifies vm`mem, vm`tables, vm`view, vm`leaves, vm.pmm`free, vm.pmm`freeFrames, vm.pmm.bitmap
    ensures vm.Owned() && Trace(ss, hs, calls)
    ensures ss[0] == old(vm.Snap()) && hs[0] == held && ss[|calls|] == vm.Snap() && hs[|calls|] == held'
    ensures Kept(old(vm.Snap()), held, vm.Snap(), held', Touched(calls))
    ensures NeverRemaps(old(vm.Snap()), calls) ==> Dropped(ss, hs, calls, |calls|) == {}
  {
    hide Whole, PageOf, Kept, Touched, SmallOnly, MaybeSmall, NeverRemaps, HeldSpare, Stepped, Dropped;
    vm.SnapPartitioned();
    held', ss, hs := held, [vm.Snap()], [held];
    var k := 0;
    while k < |calls|
      invariant k <= |calls| && vm.Owned() && HeldSpare(vm.Snap(), held')
      invariant Trace(ss, hs, calls[..k]) && ss[0] == old(vm.Snap()) && hs[0] == held
      invariant ss[k] == vm.Snap() && hs[k] == held'
    {
      if Lawful(calls[k], held') { held' := Step(vm, held', calls[k]); }
      TraceSnoc(ss, hs, calls, k, vm.Snap(), held');
      ss, hs := ss + [vm.Snap()], hs + [held'];
      k := k + 1;
      RunKeeps(ss, hs, calls[..k], k);
      StillSpare(ss[0], hs[0], vm.Snap(), held', Touched(calls[..k][..k]));
    }
    assert calls[..k] == calls;
    RunKeeps(ss, hs, calls, k);
    if NeverRemaps(ss[0], calls) { NothingDropped(ss, hs, calls, k); }
  }

  lemma StillSpare(s: Snapshot, held: set<nat>, s': Snapshot, held': set<nat>, ps: set<Page>)
    requires Kept(s, held, s', held', ps)
    ensures HeldSpare(s', held')
  {
  }

  /** The identity mapping of the first GiB outlives every run. */
  lemma IdentityKept(s: Snapshot, s': Snapshot, ps: set<Page>, va: nat)
    requires ViewsKept(s, s', ps) && PageOf(va) in s.view && s.view[PageOf(va)] == IdentityView(va)
    ensures PageOf(va) in s'.view && Mapping(s'.view[PageOf(va)], va) == va - va % 4096
  {
    IdentityMapping(va);
    assert PageOf(va) in s.view && PageOf(va) in s'.view;
  }
}
