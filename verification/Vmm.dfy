/** kernel/vmm.c: mapping and unmapping pages in the live page tables, with frames from the allocator. */
module Vmm {
  import opened Utils
  import opened Entries
  import opened PageTables
  import opened TableEffects
  import opened TableKeys
  import opened ByteMemory
  import opened PageRanges
  import opened Options
  import opened Pmm

  class AddressSpace {
    var mem: Mem
    const root: nat
    const pmm: FrameAllocator
    ghost var view: imap<Page, View>
    ghost var tables: map<nat, Place>
    ghost var leaves: map<nat, Page>

    /** The tables form a tree that shows `view`, and none of them can be handed out again. */
    ghost predicate Valid()
      reads this`mem, this`view, this`tables, pmm, pmm.bitmap
    {
      && pmm.Valid() && pmm.ready
      && |mem| <= MAX_FRAMES && Rows(mem)
      && Tree(mem, root, tables) && Shows(mem, root, view)
      && Apart(tables, pmm.free, |mem|)
    }

    /** Moreover every mapped frame is recorded once, is in use and is not a table. */
    ghost predicate Owned()
      reads this, pmm, pmm.bitmap
    {
      Whole(Accounted())
    }

    ghost predicate Accounted()
      reads this, pmm, pmm.bitmap
    {
      && Valid() && LeavesOk(view, leaves)
      && LeavesApart(leaves, tables, pmm.free, pmm.totalFrames, |mem|)
    }

    /** A frame that is in use but neither a table nor a mapped page, as `pmm_alloc_frame` returns. */
    ghost predicate Spare(f: nat)
      reads this`mem, this`tables, this`leaves, pmm
    {
      IsSpare(f, leaves, tables, pmm.free, pmm.totalFrames, |mem|)
    }

    ghost function Snap(): Snapshot
      reads this`mem, this`tables, this`view, this`leaves, pmm
    {
      Snapshot(mem, tables, view, leaves, pmm.free, pmm.totalFrames)
    }

    lemma SnapPartitioned()
      requires Owned()
      ensures Partitioned(Snap())
    {
    }

    /** arch/x86_64/boot.asm: three tables in the kernel image map the first GiB to itself with 2 MiB
        pages. */
    constructor Boot(pmm: FrameAllocator, memory: Mem, p4: nat, p3: nat, p2: nat)
      requires pmm.Valid() && pmm.ready
      requires |memory| <= MAX_FRAMES && Rows(memory) && 0 < p4 < |memory| && 0 < p3 < |memory| && 0 < p2 < |memory|
      requires p4 != p3 && p4 != p2 && p3 != p2
      requires forall f :: f in pmm.free ==> 0 < f < |memory| && f != p4 && f != p3 && f != p2
      ensures Owned() && this.pmm == pmm && root == p4 && leaves == map[]
      ensures tables == BootPlaces(p4, p3, p2) && |mem| == |memory|
      ensures forall p: Page :: p.i4 != 0 || p.i3 != 0 ==> p in view && view[p].Unmapped?
      ensures forall va: nat :: va < IDENTITY_LIMIT ==> PageOf(va) in view && view[PageOf(va)] == IdentityView(va)
    {
      var m := BootMemory(memory, p4, p3, p2);
      this.pmm, root, mem := pmm, p4, m;
      tables := BootPlaces(p4, p3, p2);
      view := ViewOf(m, p4);
      leaves := map[];
      new;
      BootTree(mem, p4, p3, p2);
      BootView(mem, p4, p3, p2);
      forall va: nat | va < IDENTITY_LIMIT
        ensures PageOf(va) in view && view[PageOf(va)] == IdentityView(va)
      {
        BootIdentity(mem, p4, p3, p2, va);
      }
      forall p: Page | p.i4 != 0 || p.i3 != 0 ensures p in view && view[p].Unmapped? {
        BootUnmapped(mem, p4, p3, p2, p);
      }
    }

    method GetMapping(va: nat) returns (r: nat)
      requires Valid()
      ensures PageOf(va) in view && r == Mapping(view[PageOf(va)], va)
    {
      var p := PageOf(va);
      ShowsWalk(mem, root, view, p);
      var e4 := Ent(mem, root, p.i4);
      if !Present(e4) { return 0; }
      var e3 := Ent(mem, Frame(e4), p.i3);
      if !Present(e3) { return 0; }
      if Huge(e3) { return 4096 * Frame(e3) + (va - va % 4096) % 0x4000_0000; }
      var e2 := Ent(mem, Frame(e3), p.i2);
      if !Present(e2) { return 0; }
      if Huge(e2) { return 4096 * Frame(e2) + (va - va % 4096) % 0x20_0000; }
      var e1 := Ent(mem, Frame(e2), p.i1);
      if !Present(e1) { return 0; }
      return 4096 * Frame(e1);
    }

    /** Whether the processor finds a 4 KiB page at `va`. */
    method IsSmall(va: nat) returns (r: bool)
      requires Owned()
      ensures PageOf(va) in view && r == view[PageOf(va)].Small?
    {
      var p := PageOf(va);
      ShowsWalk(mem, root, view, p);
      r := Walk(mem, root, p).Small?;
    }

    /** Takes a frame for a table below entry `i` of `t`, which leads nowhere yet. */
    method CreateTable(t: nat, i: nat) returns (r: Option<nat>)
      requires Valid() && t in tables && tables[t].level < 3 && i < ENTRIES && !Present(Ent(mem, t, i))
      modifies this`mem, this`tables, pmm`free, pmm`freeFrames, pmm.bitmap
      ensures Valid()
      ensures r == Next(mem, Some(t), i)
      ensures r.Some? ==> Grown(old(mem), old(tables), old(pmm.free), mem, tables, pmm.free)
      ensures r.Some? ==> r.value in tables && tables[r.value] == Place(tables[t].level + 1, t, i)
      ensures r.None? ==> mem == old(mem) && tables == old(tables) && pmm.free == old(pmm.free) == {}
      ensures r.None? ==> ShortBelow(old(tables), old(pmm.free), t, i)
      ensures r.Some? ==> MadeBelow(old(tables), old(pmm.free), tables, pmm.free, t, i, r.value)
      ensures t in tables && tables[t] == old(tables)[t]
    {
      hide MadeBelow, ShortBelow, Shows, Grown, Tree, Rows, Apart, WithTable;
      ghost var tb, free := tables, pmm.free;
      var f := TakeForTable();
      if f.None? {
        NoneLeft(mem, root, tb, t, i);
        return None;
      }
      NewTable(root, mem, tb, view, free, t, i, f.value);
      mem := WithTable(mem, t, i, f.value);
      tables := tables[f.value := Place(tables[t].level + 1, t, i)];
      return f;
    }

    /** A frame to make a table of. */
    method TakeForTable() returns (f: Option<nat>)
      requires Valid()
      modifies pmm`free, pmm`freeFrames, pmm.bitmap
      ensures pmm.Valid() && pmm.ready && (f.None? <==> old(pmm.free) == {}) && (f.None? ==> pmm.free == {})
      ensures f.Some? ==> f.value in old(pmm.free) && pmm.free == old(pmm.free) - {f.value}
    {
      ApartTable(tables, pmm.free, |mem|);
      hide Tree, Shows, Rows, Apart;
      var phys := pmm.AllocFrame();
      if phys == 0 { return None; }
      return Some(phys / PAGE_SIZE);
    }

    method GetOrCreateNextTable(t: nat, i: nat) returns (r: Option<nat>)
      requires Valid() && t in tables && tables[t].level < 3 && i < ENTRIES
      modifies this`mem, this`tables, pmm`free, pmm`freeFrames, pmm.bitmap
      ensures Valid()
      ensures Grown(old(mem), old(tables), old(pmm.free), mem, tables, pmm.free)
      ensures r == Next(mem, Some(t), i)
      ensures r.Some? ==> r.value in tables && tables[r.value] == Place(tables[t].level + 1, t, i)
      ensures r.None? ==> Present(Ent(mem, t, i)) || (pmm.free == {} && ShortBelow(old(tables), old(pmm.free), t, i))
      ensures r.Some? ==> MadeBelow(old(tables), old(pmm.free), tables, pmm.free, t, i, r.value)
      ensures t in tables && tables[t] == old(tables)[t]
    {
      KeyThere(mem, root, tables, pmm.free, t, i);
      hide MadeBelow, ShortBelow;
      var entry := mem[t][i];
      GrownRefl(mem, tables, pmm.free);
      if Present(entry) {
        NextInTree(mem, root, tables, t, i);
        if Huge(entry) { return None; }
        return Some(Frame(entry));
      }
      r := CreateTable(t, i);
    }

    /** The second-level table of page `p`, created if missing. */
    method ReachPdpt(p: Page) returns (r: Option<nat>)
      requires Valid() && p.i4 < ENTRIES
      modifies this`mem, this`tables, pmm`free, pmm`freeFrames, pmm.bitmap
      ensures Valid()
      ensures Grown(old(mem), old(tables), old(pmm.free), mem, tables, pmm.free)
      ensures r == PdptOf(mem, root, p)
      ensures r.Some? ==> r.value in tables && tables[r.value].level == 1
      ensures r.None? ==> pmm.free == {} && Short(old(tables), old(pmm.free), {Key1(p)})
      ensures r.Some? ==> Made(old(tables), old(pmm.free), tables, pmm.free, {Key1(p)})
      ensures r.Some? ==> KeyOf(tables, r.value) == Key1(p)
    {
      hide Made, Short, Tree, Shows, Rows, Apart, Grown, KeyOf, MadeBelow, ShortBelow, Key1, Present, Ent;
      RootKey(mem, root, tables);
      RootEntry(mem, root, tables, p.i4);
      ghost var tb, free := tables, pmm.free;
      r := GetOrCreateNextTable(root, p.i4);
      RootEntry(mem, root, tables, p.i4);
      FirstMade(tb, free, tables, pmm.free, root, p, if r.Some? then r.value else 0);
    }

    /** The third-level table of page `p`, with what is missing above it. */
    method ReachPd(p: Page) returns (r: Option<nat>)
      requires Valid() && p.i4 < ENTRIES && p.i3 < ENTRIES
      modifies this`mem, this`tables, pmm`free, pmm`freeFrames, pmm.bitmap
      ensures Valid()
      ensures Grown(old(mem), old(tables), old(pmm.free), mem, tables, pmm.free)
      ensures r == PdOf(mem, root, p)
      ensures r.Some? ==> r.value in tables && tables[r.value].level == 2
      ensures r.None? ==> p in view &&
                          (view[p].Large? || (pmm.free == {} && Short(old(tables), old(pmm.free), {Key1(p), Key2(p)})))
      ensures r.Some? ==> Made(old(tables), old(pmm.free), tables, pmm.free, {Key1(p), Key2(p)})
      ensures r.Some? ==> KeyOf(tables, r.value) == Key2(p)
    {
      hide Made, Short, KeyOf, MadeBelow, ShortBelow, Tree, Shows, Rows, Apart, Grown, Key1, Key2;
      ShowsWalk(mem, root, view, p);
      ghost var tb, free := tables, pmm.free;
      var pdpt := ReachPdpt(p);
      if pdpt.None? {
        ShortMore(tb, free, {Key1(p)}, {Key1(p), Key2(p)});
        return None;
      }
      ghost var m1, tb1, free1 := mem, tables, pmm.free;
      r := GetOrCreateNextTable(pdpt.value, p.i3);
      SecondMade(tb, free, tb1, free1, tables, pmm.free, pdpt.value, p, if r.Some? then r.value else 0);
      GrownTrans(old(mem), old(tables), old(pmm.free), m1, tb1, free1, mem, tables, pmm.free);
      GrownPdpt(root, view, m1, tb1, free1, mem, tables, pmm.free, p);
    }

    /** The last-level table of page `p`, with what is missing above it. */
    method ReachTable(p: Page) returns (r: Option<nat>)
      requires Valid() && p.i4 < ENTRIES && p.i3 < ENTRIES && p.i2 < ENTRIES
      modifies this`mem, this`tables, pmm`free, pmm`freeFrames, pmm.bitmap
      ensures Valid()
      ensures Grown(old(mem), old(tables), old(pmm.free), mem, tables, pmm.free)
      ensures r == Slot(mem, root, p)
      ensures r.Some? ==> r.value in tables && tables[r.value].level == 3
      ensures r.None? ==> p in view
      ensures r.None? ==> view[p].Large? || (pmm.free == {} && Short(old(tables), old(pmm.free), Prefixes(p)))
      ensures r.Some? ==> Made(old(tables), old(pmm.free), tables, pmm.free, Prefixes(p))
    {
      hide Made, Short, KeyOf, MadeBelow, ShortBelow, Tree, Shows, Rows, Apart, Grown;
      ghost var tb, free := tables, pmm.free;
      var pd := ReachPd(p);
      if pd.None? {
        if !view[p].Large? { ShortMore(tb, free, {Key1(p), Key2(p)}, Prefixes(p)); }
        return None;
      }
      ghost var m1, tb1, free1 := mem, tables, pmm.free;
      r := GetOrCreateNextTable(pd.value, p.i2);
      ThirdMade(tb, free, tb1, free1, tables, pmm.free, pd.value, p, if r.Some? then r.value else 0);
      GrownTrans(old(mem), old(tables), old(pmm.free), m1, tb1, free1, mem, tables, pmm.free);
      GrownPd(root, view, m1, tb1, free1, mem, tables, pmm.free, p);
    }

    /** Stores the last-level entry of page `p`, in table `t`. */
    method WriteLeaf(t: nat, p: Page, e: nat)
      requires Valid() && Slot(mem, root, p) == Some(t) && p.i1 < ENTRIES
      modifies this`mem, this`view
      ensures Valid()
      ensures view == old(view)[p := EntryView(e, UserPath(old(mem), root, p))]
      ensures p in old(view) && !old(view)[p].Large?
      ensures Extended(old(mem), tables, pmm.free, mem, tables, pmm.free)
    {
      hide Tree, Shows, Rows, Apart, Extended, Grown, UserPath, Slot;
      LeafUpdate(root, mem, tables, view, t, p, e);
      SlotView(root, mem, tables, view, p);
      GrownRefl(mem, tables, pmm.free);
      PutExtended(mem, tables, pmm.free, mem, tables, pmm.free, t, p.i1, e);
      view := view[p := EntryView(e, UserPath(mem, root, p))];
      mem := Put(mem, t, p.i1, e);
    }

    /** Stores `e` as the last-level entry of page `p`, creating tables on the way. */
    method MapEntry(p: Page, e: nat) returns (ghost ok: bool, ghost user: bool)
      requires Valid()
      requires p.i4 < ENTRIES && p.i3 < ENTRIES && p.i2 < ENTRIES && p.i1 < ENTRIES
      modifies this`mem, this`tables, this`view, pmm`free, pmm`freeFrames, pmm.bitmap
      ensures Valid()
      ensures Extended(old(mem), old(tables), old(pmm.free), mem, tables, pmm.free)
      ensures view == if ok then old(view)[p := EntryView(e, user)] else old(view)
      ensures ok ==> p in old(view) && !old(view)[p].Large?
      ensures !ok ==> p in view
      ensures !ok ==> view[p].Large? || (pmm.free == {} && Short(old(tables), old(pmm.free), Prefixes(p)))
      ensures ok ==> Made(old(tables), old(pmm.free), tables, pmm.free, Prefixes(p))
    {
      hide Tree, Shows, Rows, Apart, Made, Short, Prefixes;
      var pt := ReachTable(p);
      if pt.None? { return false, false; }
      ghost var m1 := mem;
      user := UserPath(mem, root, p);
      WriteLeaf(pt.value, p, e);
      ExtendedTrans(old(mem), old(tables), old(pmm.free), m1, tables, pmm.free, mem, tables, pmm.free);
      return true, user;
    }

    /** Maps page `p` to frame `f`; `ok` tells whether that worked. */
    method MapFrame(p: Page, f: nat, flags: nat) returns (ghost ok: bool)
      requires Valid() && f < FRAME_LIMIT && flags < 4096
      requires p.i4 < ENTRIES && p.i3 < ENTRIES && p.i2 < ENTRIES && p.i1 < ENTRIES
      modifies this`mem, this`tables, this`view, this`leaves, pmm`free, pmm`freeFrames, pmm.bitmap
      ensures Valid()
      ensures Extended(old(mem), old(tables), old(pmm.free), mem, tables, pmm.free)
      ensures MapResult(old(view), old(leaves), view, leaves, p, f, flags, ok)
      ensures !ok ==> p in view
      ensures !ok ==> view[p].Large? || (pmm.free == {} && Short(old(tables), old(pmm.free), Prefixes(p)))
      ensures ok ==> Made(old(tables), old(pmm.free), tables, pmm.free, Prefixes(p))
    {
      hide Tree, Rows, Apart, Extended, Made, Short, Prefixes;
      ShowsWalk(mem, root, view, p);
      ghost var user;
      ok, user := MapEntry(p, PageEntry(f, flags));
      MapOutcome(old(view), leaves, view, p, f, flags, ok, user);
      if ok { leaves := Without(leaves, old(view)[p])[f := p]; }
    }

    /** The source returns nothing; `ok` tells whether the page was mapped. */
    method MapPage(va: nat, phys: nat, flags: nat) returns (ghost ok: bool)
      requires Valid() && phys / 4096 < FRAME_LIMIT && flags < 4096
      modifies this`mem, this`tables, this`view, this`leaves, pmm`free, pmm`freeFrames, pmm.bitmap
      ensures Valid()
      ensures Extended(old(mem), old(tables), old(pmm.free), mem, tables, pmm.free)
      ensures MapResult(old(view), old(leaves), view, leaves, PageOf(va), phys / 4096, flags, ok)
      ensures !ok ==> PageOf(va) in view
      ensures !ok ==> view[PageOf(va)].Large? ||
                      (pmm.free == {} && Short(old(tables), old(pmm.free), Prefixes(PageOf(va))))
      ensures ok ==> Made(old(tables), old(pmm.free), tables, pmm.free, Prefixes(PageOf(va)))
    {
      ok := MapFrame(PageOf(va), phys / 4096, flags);
    }

    /** The table that holds the last-level entry of page `p`. */
    method GetPtePtr(p: Page) returns (r: Option<nat>)
      requires Valid()
      ensures r == Slot(mem, root, p)
    {
      var e4 := Ent(mem, root, p.i4);
      if !Present(e4) { return None; }
      if Huge(e4) { return None; }
      var e3 := Ent(mem, Frame(e4), p.i3);
      if !Present(e3) { return None; }
      if Huge(e3) { return None; }
      var e2 := Ent(mem, Frame(e3), p.i2);
      if !Present(e2) { return None; }
      if Huge(e2) { return None; }
      return Some(Frame(e2));
    }

    /** Clears the last-level entry of page `p` if there is one; returns the frame it named. */
    method ClearLeaf(p: Page) returns (r: Option<nat>)
      requires Owned() && p.i1 < ENTRIES
      modifies this`mem, this`view, this`leaves
      ensures Owned()
      ensures Extended(old(mem), tables, pmm.free, mem, tables, pmm.free)
      ensures UnmapResult(old(view), old(leaves), pmm.free, view, leaves, pmm.free, p, false, r)
    {
      hide Tree, Shows, Rows;
      SlotView(root, mem, tables, view, p);
      GrownRefl(mem, tables, pmm.free);
      UnmapOutcome(view, leaves, pmm.free, p);
      var pt := GetPtePtr(p);
      if pt.None? { return None; }
      var e := Ent(mem, pt.value, p.i1);
      if !Present(e) { return None; }
      UnmapLeaves(view, leaves, tables, pmm.free, pmm.totalFrames, |mem|, p);
      leaves := Without(leaves, view[p]);
      WriteLeaf(pt.value, p, 0);
      return Some(Frame(e));
    }

    /** Returns a frame that is neither a table nor mapped to the allocator. */
    method GiveBack(phys: nat)
      requires Owned() && phys % 4096 == 0 && Spare(phys / 4096)
      modifies pmm`free, pmm`freeFrames, pmm.bitmap
      ensures Owned() && pmm.free == old(pmm.free) + {phys / 4096}
    {
      pmm.FreeFrame(phys);
    }

    /** Clears page `p` and, if asked, gives its frame back. */
    method UnmapFrame(p: Page, freePhys: bool) returns (r: Option<nat>)
      requires Owned() && p.i1 < ENTRIES
      modifies this`mem, this`view, this`leaves, pmm`free, pmm`freeFrames, pmm.bitmap
      ensures Owned()
      ensures UnmapResult(old(view), old(leaves), old(pmm.free), view, leaves, pmm.free, p, freePhys, r)
      ensures r.Some? ==> 0 < r.value
      ensures Extended(old(mem), tables, old(pmm.free), mem, tables, old(pmm.free))
    {
      hide Tree, Shows, Rows;
      r := ClearLeaf(p);
      UnmapThenFree(old(view), old(leaves), old(pmm.free), view, leaves, tables, pmm.totalFrames, |mem|,
                    p, freePhys, r);
      if r.None? { return; }
      if freePhys && r.value != 0 {
        assert (4096 * r.value) / 4096 == r.value;
        GiveBack(4096 * r.value);
      }
    }

    method UnmapPage(va: nat, freePhys: bool) returns (r: nat)
      requires Owned()
      modifies this`mem, this`view, this`leaves, pmm`free, pmm`freeFrames, pmm.bitmap
      ensures Owned()
      ensures UnmapResult(old(view), old(leaves), old(pmm.free), view, leaves, pmm.free, PageOf(va), freePhys,
                          if r == 0 then None else Some(r / 4096))
      ensures r % 4096 == 0
      ensures Extended(old(mem), tables, old(pmm.free), mem, tables, old(pmm.free))
    {
      var f := UnmapFrame(PageOf(va), freePhys);
      if f.None? { return 0; }
      r := 4096 * f.value;
      assert r / 4096 == f.value;
    }

    /** Makes one live entry user-accessible and writable. */
    method MarkEntry(t: nat, i: nat, ghost p: Page)
      requires Valid() && t in tables && i < ENTRIES
      requires tables[t].level < 3 || (KeyOf(tables, t) == Key3(p) && i == p.i1)
      modifies this`mem, this`view
      ensures Valid() && Marks(old(mem), old(view), mem, view, tables, pmm.free)
      ensures User(Ent(mem, t, i)) && LeafOnly(old(mem), mem, tables, p)
    {
      hide KeyOf, Tree, Shows, Rows, LeafOnly, Extended, Grown;
      MarkEffect(root, mem, tables, view, t, i);
      LeafOnlyPut(mem, tables, t, i, UserEntry(mem[t][i]), p);
      GrownRefl(mem, tables, pmm.free);
      PutExtended(mem, tables, pmm.free, mem, tables, pmm.free, t, i, UserEntry(mem[t][i]));
      mem := Put(mem, t, i, UserEntry(mem[t][i]));
      view := ViewOf(mem, root);
    }

    method MarkPt(pt: nat, p: Page)
      requires Valid() && pt in tables && p.i1 < ENTRIES && KeyOf(tables, pt) == Key3(p)
      modifies this`mem, this`view
      ensures Valid() && Marks(old(mem), old(view), mem, view, tables, pmm.free)
      ensures PtMarked(mem, pt, p) && LeafOnly(old(mem), mem, tables, p)
    {
      hide KeyOf, Tree, Shows, Rows, LeafOnly, Elevated, Extended, Grown;
      MarksRefl(root, mem, view, tables, pmm.free);
      LeafOnlyRefl(mem, tables, p);
      if !Present(Ent(mem, pt, p.i1)) { return; }
      MarkEntry(pt, p.i1, p);
    }

    method MarkPd(pd: nat, p: Page)
      requires Valid() && pd in tables && tables[pd].level == 2 && p.i2 < ENTRIES && p.i1 < ENTRIES
      requires KeyOf(tables, pd) == Key2(p)
      modifies this`mem, this`view
      ensures Valid() && Marks(old(mem), old(view), mem, view, tables, pmm.free)
      ensures PdMarked(mem, pd, p) && LeafOnly(old(mem), mem, tables, p)
    {
      hide KeyOf, Tree, Shows, Rows, LeafOnly, Elevated, Extended, Grown;
      MarksRefl(root, mem, view, tables, pmm.free);
      LeafOnlyRefl(mem, tables, p);
      if !Present(Ent(mem, pd, p.i2)) { return; }
      MarkEntry(pd, p.i2, p);
      ElevatedEntry(old(mem), mem, pd, p.i2);
      if Huge(Ent(mem, pd, p.i2)) { return; }
      ghost var m1, view1 := mem, view;
      NextInTree(mem, root, tables, pd, p.i2);
      ChildKey(tables, pd, Frame(Ent(mem, pd, p.i2)), p.i2);
      assert Key2(p) + [p.i2] == Key3(p);
      MarkPt(Frame(Ent(mem, pd, p.i2)), p);
      LeafOnlyTrans(old(mem), m1, mem, tables, p);
      ElevatedEntry(m1, mem, pd, p.i2);
      MarksTrans(tables, pmm.free, old(mem), old(view), m1, view1, mem, view);
    }

    method MarkPdpt(pdpt: nat, p: Page)
      requires Valid() && pdpt in tables && tables[pdpt].level == 1
      requires p.i3 < ENTRIES && p.i2 < ENTRIES && p.i1 < ENTRIES && KeyOf(tables, pdpt) == Key1(p)
      modifies this`mem, this`view
      ensures Valid() && Marks(old(mem), old(view), mem, view, tables, pmm.free)
      ensures PdptMarked(mem, pdpt, p) && LeafOnly(old(mem), mem, tables, p)
    {
      hide KeyOf, Tree, Shows, Rows, LeafOnly, Elevated, Extended, Grown;
      MarksRefl(root, mem, view, tables, pmm.free);
      LeafOnlyRefl(mem, tables, p);
      if !Present(Ent(mem, pdpt, p.i3)) { return; }
      MarkEntry(pdpt, p.i3, p);
      ElevatedEntry(old(mem), mem, pdpt, p.i3);
      if Huge(Ent(mem, pdpt, p.i3)) { return; }
      ghost var m1, view1 := mem, view;
      NextInTree(mem, root, tables, pdpt, p.i3);
      ChildKey(tables, pdpt, Frame(Ent(mem, pdpt, p.i3)), p.i3);
      assert Key1(p) + [p.i3] == Key2(p);
      MarkPd(Frame(Ent(mem, pdpt, p.i3)), p);
      LeafOnlyTrans(old(mem), m1, mem, tables, p);
      ElevatedEntry(m1, mem, pdpt, p.i3);
      MarksTrans(tables, pmm.free, old(mem), old(view), m1, view1, mem, view);
    }

    /** arch/x86_64/user_mode.c: user access for one page at every level that exists. */
    method MarkPath(p: Page)
      requires Valid() && p.i4 < ENTRIES && p.i3 < ENTRIES && p.i2 < ENTRIES && p.i1 < ENTRIES
      modifies this`mem, this`view
      ensures Valid() && Marks(old(mem), old(view), mem, view, tables, pmm.free)
      ensures PathMarked(mem, root, p) && LeafOnly(old(mem), mem, tables, p)
    {
      hide KeyOf;
      RootKey(mem, root, tables);
      MarksRefl(root, mem, view, tables, pmm.free);
      LeafOnlyRefl(mem, tables, p);
      if !Present(Ent(mem, root, p.i4)) { return; }
      MarkEntry(root, p.i4, p);
      ghost var m1, view1 := mem, view;
      NextInTree(mem, root, tables, root, p.i4);
      ChildKey(tables, root, Frame(Ent(mem, root, p.i4)), p.i4);
      assert [] + [p.i4] == Key1(p);
      MarkPdpt(Frame(Ent(mem, root, p.i4)), p);
      LeafOnlyTrans(old(mem), m1, mem, tables, p);
      ElevatedEntry(m1, mem, root, p.i4);
      MarksTrans(tables, pmm.free, old(mem), old(view), m1, view1, mem, view);
    }

    method MarkUserPage(va: nat)
      requires Valid()
      modifies this`mem, this`view
      ensures Valid() && Marks(old(mem), old(view), mem, view, tables, pmm.free)
      ensures PageOf(va) in view && (view[PageOf(va)].Small? ==> Accessible(view[PageOf(va)]))
      ensures OthersUntouched(old(view), view, PageOf(va))
    {
      hide LeafOnly;
      MarkPath(PageOf(va));
      MarkedOthers(old(mem), mem, root, tables, old(view), view, PageOf(va));
      PathAccess(mem, root, view, PageOf(va));
    }

    /** Whether user code may reach the page at `va`, as the processor sees it. */
    method IsOpen(va: nat) returns (r: bool)
      requires Owned()
      ensures PageOf(va) in view && r == Accessible(view[PageOf(va)])
    {
      var p := PageOf(va);
      ShowsWalk(mem, root, view, p);
      r := Accessible(Walk(mem, root, p));
    }

    // ---------- data in mapped pages ----------

    /** A frame from the allocator; 0 when there is none. */
    method TakeFrame() returns (phys: nat)
      requires Owned()
      modifies pmm`free, pmm`freeFrames, pmm.bitmap
      ensures Owned() && phys % 4096 == 0
      ensures phys == 0 <==> old(pmm.free) == {}
      ensures phys == 0 ==> pmm.free == old(pmm.free)
      ensures phys != 0 ==> Spare(phys / 4096) && phys / 4096 in old(pmm.free)
      ensures phys != 0 ==> pmm.free == old(pmm.free) - {phys / 4096}
    {
      phys := pmm.AllocFrame();
    }

    /** Mapping a frame just taken from the allocator keeps every frame accounted for. */
    method MapSpare(va: nat, phys: nat, flags: nat) returns (ghost ok: bool)
      requires Owned() && Spare(phys / 4096) && flags < 4096
      modifies this`mem, this`tables, this`view, this`leaves, pmm`free, pmm`freeFrames, pmm.bitmap
      ensures Owned()
      ensures Extended(old(mem), old(tables), old(pmm.free), mem, tables, pmm.free)
      ensures MapResult(old(view), old(leaves), view, leaves, PageOf(va), phys / 4096, flags, ok)
      ensures !ok ==> Spare(phys / 4096) && PageOf(va) in view
      ensures !ok ==> view[PageOf(va)].Large? ||
                      (pmm.free == {} && Short(old(tables), old(pmm.free), Prefixes(PageOf(va))))
      ensures ok ==> Made(old(tables), old(pmm.free), tables, pmm.free, Prefixes(PageOf(va)))
    {
      ghost var f := phys / 4096;
      ok := MapPage(va, phys, flags);
      ExtendedApart(old(mem), old(tables), old(pmm.free), mem, tables, pmm.free, old(leaves), pmm.totalFrames);
      MapKeepsLeaves(old(view), old(leaves), view, leaves, PageOf(va), f, flags, ok);
      SpareBecomesLeaf(f, old(leaves), tables, pmm.free, pmm.totalFrames, |mem|, leaves);
      if !ok { assert leaves == old(leaves); }
    }

    /** Changes one frame that is not a table. */
    method WriteFrame(f: nat, row: seq<nat>)
      requires Owned() && f < |mem| && f !in tables && |row| == ENTRIES
      modifies this`mem
      ensures Owned() && mem == old(mem)[f := row]
    {
      DataWriteShows(root, mem, mem[f := row], tables, view, f);
      mem := mem[f := row];
    }

    /** Changes one word of a frame that is not a table. */
    method WriteWord(f: nat, i: nat, w: nat)
      requires Owned() && f < |mem| && f !in tables && i < ENTRIES
      modifies this`mem
      ensures Owned() && f < |old(mem)| && |old(mem)[f]| == ENTRIES && mem == Put(old(mem), f, i, w)
    {
      WriteFrame(f, mem[f][i := w]);
    }
  }

  /** The tables that arch/x86_64/boot.asm fills in before paging is on. */
  method BootMemory(memory: Mem, p4: nat, p3: nat, p2: nat) returns (m: Mem)
    requires |memory| <= MAX_FRAMES && Rows(memory) && 0 < p4 < |memory| && 0 < p3 < |memory| && 0 < p2 < |memory|
    requires p4 != p3 && p4 != p2 && p3 != p2
    ensures |m| == |memory| && Rows(m) && BootShape(m, p4, p3, p2)
  {
    var row: seq<nat> := [];
    while |row| < ENTRIES
      invariant |row| <= ENTRIES
      invariant forall i :: 0 <= i < |row| ==> row[i] == LargeEntry(i)
    {
      row := row + [LargeEntry(|row|)];
    }
    m := Zeroed(Zeroed(memory, p4), p3);
    m := Put(m, p4, 0, TableEntry(p3));
    m := Put(m, p3, 0, TableEntry(p2));
    m := m[p2 := row];
  }

  /** Marking the path of page `p` leaves the entries of all other pages alone. */
  lemma MarkedOthers(m: Mem, m': Mem, root: nat, tb: map<nat, Place>, view: imap<Page, View>,
                     view': imap<Page, View>, p: Page)
    requires Tree(m, root, tb) && Tree(m', root, tb) && Shows(m, root, view) && Shows(m', root, view')
    requires SameTargets(view, view') && Elevated(m, m') && LeafOnly(m, m', tb, p)
    ensures OthersUntouched(view, view', p)
  {
    forall q | q in view && q in view' && q != p ensures Untouched(view[q], view'[q]) {
      ShowsWalk(m, root, view, q);
      ShowsWalk(m', root, view', q);
      if view[q].Small? {
        SameSlot(m, m', root, q);
        LeafOnlyEntries(m, m', root, tb, p, q);
      }
    }
  }

  lemma SameSlot(m: Mem, m': Mem, root: nat, q: Page)
    requires Elevated(m, m')
    ensures Slot(m', root, q) == Slot(m, root, q)
  {
  }


  /** Everything about linking in a new table. */
  lemma NewTable(root: nat, m: Mem, tb: map<nat, Place>, view: imap<Page, View>, free: set<nat>, t: nat, i: nat, f: nat)
    requires Tree(m, root, tb) && Shows(m, root, view) && Rows(m) && Apart(tb, free, |m|) && |m| <= MAX_FRAMES
    requires t in tb && tb[t].level < 3 && i < ENTRIES && !Present(Ent(m, t, i)) && f in free
    ensures t < |m| && |m[t]| == ENTRIES && f < |m|
    ensures var m' := WithTable(m, t, i, f);
            var tb' := tb[f := Place(tb[t].level + 1, t, i)];
            && |m'| == |m| && Rows(m') && Tree(m', root, tb') && Shows(m', root, view)
            && Next(m', Some(t), i) == Some(f)
            && Apart(tb', free - {f}, |m|) && tb'[t] == tb[t]
            && Grown(m, tb, free, m', tb', free - {f})
            && MadeBelow(tb, free, tb', free - {f}, t, i, f)
  {
    TableRoom(m, root, tb, free, t);
    OneMade(m, root, tb, free, t, i, f);
    AddTableGrown(root, m, tb, view, free, t, i, f);
  }

  lemma TableRoom(m: Mem, root: nat, tb: map<nat, Place>, free: set<nat>, t: nat)
    requires Tree(m, root, tb) && t in tb
    ensures t < |m| && |m[t]| == ENTRIES
  {
    assert TableOk(m, root, tb, t);
  }

  lemma ApartTable(tb: map<nat, Place>, free: set<nat>, n: nat)
    requires Apart(tb, free, n)
    ensures forall f :: f in free ==> 0 < f < n && f !in tb
  {
  }
}
