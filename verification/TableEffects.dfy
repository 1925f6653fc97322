/** What the operations of kernel/vmm.c do to memory, the table tree, the translations and the frames in
    use, as relations between values. */
module TableEffects {
  import opened Bits
  import opened Utils
  import opened Entries
  import opened PageTables
  import opened Options

  /** Frames of the identity-mapped first GiB. */
  const MAX_FRAMES: nat := 0x40000

  const IDENTITY_LIMIT: nat := 0x4000_0000

  function PageOf(va: nat): Page {
    Page(va / 0x80_0000_0000 % 512, va / 0x4000_0000 % 512, va / 0x20_0000 % 512, va / 0x1000 % 512)
  }

  lemma IndexMasks(va: nat)
    ensures And(va / 0x80_0000_0000, 0x1FF) == PageOf(va).i4
    ensures And(va / 0x4000_0000, 0x1FF) == PageOf(va).i3
    ensures And(va / 0x20_0000, 0x1FF) == PageOf(va).i2
    ensures And(va / 0x1000, 0x1FF) == PageOf(va).i1
  {
    Pow2Values();
    AndLow(va / 0x80_0000_0000, 9);
    AndLow(va / 0x4000_0000, 9);
    AndLow(va / 0x20_0000, 9);
    AndLow(va / 0x1000, 9);
  }

  /** The address `vmm_get_mapping` returns for the page at `va`: 0 when nothing is mapped. */
  function Mapping(v: View, va: nat): nat {
    match v
    case Unmapped => 0
    case Small(e, _) => 4096 * Frame(e)
    case Large(level, f) =>
      var page := va - va % 4096;
      4096 * f + (if level == 3 then page % 0x4000_0000 else page % 0x20_0000)
  }

  // ---------- the boot tables ----------

  /** The walk result that maps an address below 1 GiB to itself. */
  function IdentityView(va: nat): View { Large(2, va / 0x20_0000 * 512) }

  lemma IdentityMapping(va: nat)
    ensures Mapping(IdentityView(va), va) == va - va % 4096
  {
    var n := va / 4096;
    assert va - va % 4096 == 4096 * n;
    assert va / 0x20_0000 == n / 512;
    assert (4096 * n) % 0x20_0000 == 4096 * (n % 512);
  }

  function LargeEntry(i: nat): nat { 0x20_0000 * i + 0x83 }

  lemma LargeEntryFields(i: nat)
    requires i < ENTRIES
    ensures Present(LargeEntry(i)) && Huge(LargeEntry(i)) && Frame(LargeEntry(i)) == 512 * i
  {
  }

  function BootPlaces(p4: nat, p3: nat, p2: nat): map<nat, Place> {
    map[p4 := Place(0, 0, 0), p3 := Place(1, p4, 0), p2 := Place(2, p3, 0)]
  }

  ghost predicate BootShape(m: Mem, p4: nat, p3: nat, p2: nat) {
    && 0 < p4 < |m| && 0 < p3 < |m| && 0 < p2 < |m| && |m| <= MAX_FRAMES
    && p4 != p3 && p4 != p2 && p3 != p2
    && |m[p4]| == ENTRIES && |m[p3]| == ENTRIES && |m[p2]| == ENTRIES
    && m[p4][0] == TableEntry(p3) && m[p3][0] == TableEntry(p2)
    && (forall i :: 0 < i < ENTRIES ==> m[p4][i] == 0 && m[p3][i] == 0)
    && (forall i :: 0 <= i < ENTRIES ==> m[p2][i] == LargeEntry(i))
  }

  ghost function ViewOf(m: Mem, root: nat): imap<Page, View> {
    imap p: Page | true :: Walk(m, root, p)
  }

  lemma BootEntries(m: Mem, p4: nat, p3: nat, p2: nat)
    requires BootShape(m, p4, p3, p2)
    ensures Points(m[p4][0]) && Frame(m[p4][0]) == p3 && Points(m[p3][0]) && Frame(m[p3][0]) == p2
    ensures forall i :: 0 <= i < ENTRIES ==> Present(m[p2][i]) && Huge(m[p2][i])
  {
    TableEntryFields(p3);
    TableEntryFields(p2);
    forall i: nat | i < ENTRIES
      ensures Present(m[p2][i]) && Huge(m[p2][i])
    {
      LargeEntryFields(i);
    }
  }

  lemma BootTree(m: Mem, p4: nat, p3: nat, p2: nat)
    requires BootShape(m, p4, p3, p2)
    ensures Tree(m, p4, BootPlaces(p4, p3, p2))
  {
    BootEntries(m, p4, p3, p2);
    var tb := BootPlaces(p4, p3, p2);
    assert tb.Keys == {p4, p3, p2};
    forall t | t in tb ensures TableOk(m, p4, tb, t) {}
    forall t, i: nat | t in tb && tb[t].level < 3 && i < ENTRIES ensures ChildOk(m, tb, t, i) {
      BootChild(m, p4, p3, p2, t, i);
    }
    assert ParentOk(m, tb, p3) && ParentOk(m, tb, p2);
  }

  lemma BootChild(m: Mem, p4: nat, p3: nat, p2: nat, t: nat, i: nat)
    requires BootShape(m, p4, p3, p2) && (t == p4 || t == p3 || t == p2) && i < ENTRIES
    ensures ChildOk(m, BootPlaces(p4, p3, p2), t, i)
  {
    BootEntries(m, p4, p3, p2);
  }

  lemma BootView(m: Mem, p4: nat, p3: nat, p2: nat)
    requires BootShape(m, p4, p3, p2)
    ensures Shows(m, p4, ViewOf(m, p4)) && LeavesOk(ViewOf(m, p4), map[])
  {
    BootEntries(m, p4, p3, p2);
    forall p
      ensures !Walk(m, p4, p).Small?
    {
      assert p.i4 != 0 ==> Ent(m, p4, p.i4) == 0;
      assert p.i3 != 0 ==> Ent(m, p3, p.i3) == 0;
    }
  }

  lemma LowPage(va: nat)
    requires va < IDENTITY_LIMIT
    ensures PageOf(va).i4 == 0 && PageOf(va).i3 == 0 && PageOf(va).i2 == va / 0x20_0000 < ENTRIES
  {
  }

  lemma BootIdentity(m: Mem, p4: nat, p3: nat, p2: nat, va: nat)
    requires BootShape(m, p4, p3, p2) && va < IDENTITY_LIMIT
    ensures Walk(m, p4, PageOf(va)) == IdentityView(va)
  {
    TableEntryFields(p3);
    TableEntryFields(p2);
    LargeEntryFields(va / 0x20_0000);
    LowPage(va);
  }

  /** Above the first GiB nothing is mapped. */
  lemma BootUnmapped(m: Mem, p4: nat, p3: nat, p2: nat, p: Page)
    requires BootShape(m, p4, p3, p2) && (p.i4 != 0 || p.i3 != 0)
    ensures Walk(m, p4, p) == Unmapped
  {
    BootEntries(m, p4, p3, p2);
    assert p.i4 != 0 ==> Ent(m, p4, p.i4) == 0;
    assert p.i3 != 0 ==> Ent(m, p3, p.i3) == 0;
  }

  // ---------- translations ----------

  ghost predicate Rows(m: Mem) {
    forall f :: 0 <= f < |m| ==> |m[f]| == ENTRIES
  }

  /** `view` is what walks of the tables in `m` find. */
  ghost predicate Shows(m: Mem, root: nat, view: imap<Page, View>) {
    Whole(ShowsParts(m, root, view))
  }

  ghost predicate ShowsParts(m: Mem, root: nat, view: imap<Page, View>) {
    forall p {:trigger Walk(m, root, p)} {:trigger p in view} :: p in view && view[p] == Walk(m, root, p)
  }

  lemma ShowsWalk(m: Mem, root: nat, view: imap<Page, View>, p: Page)
    requires Shows(m, root, view)
    ensures p in view && view[p] == Walk(m, root, p)
  {
  }

  /** Every 4 KiB page has a frame of its own, recorded in `lv`. */
  ghost predicate LeavesOk(view: imap<Page, View>, lv: map<nat, Page>) {
    Whole(LeavesParts(view, lv))
  }

  ghost predicate LeavesParts(view: imap<Page, View>, lv: map<nat, Page>) {
    && (forall p :: p in view && view[p].Small? ==> Frame(view[p].entry) in lv && lv[Frame(view[p].entry)] == p)
    && (forall d :: d in lv ==> lv[d] in view && view[lv[d]].Small? && Frame(view[lv[d]].entry) == d)
  }

  /** Tables are not free, and free frames are memory. */
  ghost predicate Apart(tb: map<nat, Place>, free: set<nat>, n: nat) {
    Whole(ApartParts(tb, free, n))
  }

  ghost predicate ApartParts(tb: map<nat, Place>, free: set<nat>, n: nat) {
    0 !in tb && forall f :: f in free ==> 0 < f < n && f !in tb
  }

  ghost predicate LeavesApart(lv: map<nat, Page>, tb: map<nat, Place>, free: set<nat>, total: nat, n: nat) {
    Whole(LeavesApartParts(lv, tb, free, total, n))
  }

  ghost predicate LeavesApartParts(lv: map<nat, Page>, tb: map<nat, Place>, free: set<nat>, total: nat, n: nat) {
    forall d :: d in lv ==> 0 < d < total && d < n && d !in free && d !in tb
  }

  /** A frame that is in use but neither a table nor a mapped page. */
  ghost predicate IsSpare(f: nat, lv: map<nat, Page>, tb: map<nat, Place>, free: set<nat>, total: nat, n: nat) {
    Whole(SpareParts(f, lv, tb, free, total, n))
  }

  ghost predicate SpareParts(f: nat, lv: map<nat, Page>, tb: map<nat, Place>, free: set<nat>, total: nat, n: nat) {
    0 < f < n && f < total && f !in free && f !in tb && f !in lv
  }

  // ---------- creating tables ----------

  /** What creating missing tables may do: live entries stay, frames that are not tables keep their
      contents, and exactly the new tables were taken from the free frames. */
  ghost predicate Grown(m: Mem, tb: map<nat, Place>, free: set<nat>,
                        m': Mem, tb': map<nat, Place>, free': set<nat>) {
    Extended(m, tb, free, m', tb', free') && Whole(EntriesKept(m, tb, m'))
  }

  ghost predicate EntriesKept(m: Mem, tb: map<nat, Place>, m': Mem) {
    forall t: nat, i: nat :: t in tb && Present(Ent(m, t, i)) ==> Ent(m', t, i) == Ent(m, t, i)
  }

  /** Tables were added from free frames, and only frames that are tables changed. */
  ghost predicate Extended(m: Mem, tb: map<nat, Place>, free: set<nat>,
                           m': Mem, tb': map<nat, Place>, free': set<nat>) {
    Whole(ExtendedParts(m, tb, free, m', tb', free'))
  }

  ghost predicate ExtendedParts(m: Mem, tb: map<nat, Place>, free: set<nat>,
                                m': Mem, tb': map<nat, Place>, free': set<nat>) {
    && |m'| == |m|
    && (forall t :: t in tb ==> t in tb' && tb'[t] == tb[t])
    && (forall f :: 0 <= f < |m| && f !in tb' ==> m'[f] == m[f])
    && free' == free - (tb'.Keys - tb.Keys)
    && tb'.Keys - tb.Keys <= free
  }

  lemma AddTableGrown(root: nat, m: Mem, tb: map<nat, Place>, view: imap<Page, View>, free: set<nat>,
                      t: nat, i: nat, f: nat)
    requires FreeSpot(m, root, tb, t, i, f) && f in free && Shows(m, root, view) && Rows(m)
    ensures Rows(WithTable(m, t, i, f))
    ensures var m' := WithTable(m, t, i, f);
            var tb' := tb[f := Place(tb[t].level + 1, t, i)];
            && Tree(m', root, tb') && Shows(m', root, view) && Next(m', Some(t), i) == Some(f)
            && Grown(m, tb, free, m', tb', free - {f})
  {
    var m' := WithTable(m, t, i, f);
    var tb' := tb[f := Place(tb[t].level + 1, t, i)];
    AddTableTree(m, root, tb, t, i, f);
    forall q
      ensures q in view && view[q] == Walk(m', root, q)
    {
      ShowsWalk(m, root, view, q);
      AddTableWalk(m, root, tb, t, i, f, q);
    }
    WithTableEnt(m, t, i, f);
    TableEntryFields(f);
    assert tb'.Keys - tb.Keys == {f};
  }

  lemma GrownRefl(m: Mem, tb: map<nat, Place>, free: set<nat>)
    ensures Grown(m, tb, free, m, tb, free)
  {
  }

  lemma GrownTrans(m: Mem, tb: map<nat, Place>, free: set<nat>,
                   m1: Mem, tb1: map<nat, Place>, free1: set<nat>,
                   m2: Mem, tb2: map<nat, Place>, free2: set<nat>)
    requires Grown(m, tb, free, m1, tb1, free1)
    requires Grown(m1, tb1, free1, m2, tb2, free2)
    ensures Grown(m, tb, free, m2, tb2, free2)
  {
    ExtendedTrans(m, tb, free, m1, tb1, free1, m2, tb2, free2);
  }

  lemma ExtendedTrans(m: Mem, tb: map<nat, Place>, free: set<nat>,
                      m1: Mem, tb1: map<nat, Place>, free1: set<nat>,
                      m2: Mem, tb2: map<nat, Place>, free2: set<nat>)
    requires Extended(m, tb, free, m1, tb1, free1)
    requires Extended(m1, tb1, free1, m2, tb2, free2)
    ensures Extended(m, tb, free, m2, tb2, free2)
  {
    assert tb2.Keys - tb.Keys == (tb2.Keys - tb1.Keys) + (tb1.Keys - tb.Keys);
    forall f | 0 <= f < |m| && f !in tb2
      ensures m2[f] == m[f]
    {
      assert f !in tb1;
    }
  }

  lemma GrownPdpt(root: nat, view: imap<Page, View>, m: Mem, tb: map<nat, Place>, free: set<nat>,
                  m': Mem, tb': map<nat, Place>, free': set<nat>, p: Page)
    requires Tree(m, root, tb) && Grown(m, tb, free, m', tb', free') && PdptOf(m, root, p).Some?
    requires Shows(m', root, view)
    ensures PdptOf(m', root, p) == PdptOf(m, root, p) && p in view
    ensures Present(Ent(m', PdptOf(m', root, p).value, p.i3)) && PdOf(m', root, p).None? ==> view[p].Large?
  {
    ShowsWalk(m', root, view, p);
  }

  lemma GrownPd(root: nat, view: imap<Page, View>, m: Mem, tb: map<nat, Place>, free: set<nat>,
                m': Mem, tb': map<nat, Place>, free': set<nat>, p: Page)
    requires Tree(m, root, tb) && Grown(m, tb, free, m', tb', free') && PdOf(m, root, p).Some?
    requires Shows(m', root, view)
    ensures PdOf(m', root, p) == PdOf(m, root, p) && p in view
    ensures Present(Ent(m', PdOf(m', root, p).value, p.i2)) && Slot(m', root, p).None? ==> view[p].Large?
  {
    GrownPdpt(root, view, m, tb, free, m', tb', free', p);
    NextInTree(m, root, tb, root, p.i4);
    ShowsWalk(m', root, view, p);
  }

  // ---------- writing a last-level entry ----------

  /** What the last-level entry `e` makes of a page. */
  function EntryView(e: nat, user: bool): View {
    if Present(e) then Small(e, user) else Unmapped
  }

  lemma LeafUpdate(root: nat, m: Mem, tb: map<nat, Place>, view: imap<Page, View>, t: nat, p: Page, e: nat)
    requires Tree(m, root, tb) && Shows(m, root, view) && Slot(m, root, p) == Some(t) && p.i1 < ENTRIES && Rows(m)
    ensures t in tb && t < |m| && |m[t]| == ENTRIES && Rows(Put(m, t, p.i1, e))
    ensures Tree(Put(m, t, p.i1, e), root, tb)
    ensures Shows(Put(m, t, p.i1, e), root, view[p := EntryView(e, UserPath(m, root, p))])
  {
    SlotInTree(m, root, tb, p);
    assert LeafTable(m, root, tb, t, p.i1);
    WriteLeafTree(m, root, tb, t, p.i1, e);
    var view' := view[p := EntryView(e, UserPath(m, root, p))];
    forall q
      ensures q in view' && view'[q] == Walk(Put(m, t, p.i1, e), root, q)
    {
      ShowsWalk(m, root, view, q);
      WriteLeafWalk(m, root, tb, t, p.i1, e, q);
      if Slot(m, root, q) == Some(t) { SlotUnique(m, root, tb, p, q); }
    }
  }

  /** A page with a last-level table shows the entry there. */
  lemma SlotView(root: nat, m: Mem, tb: map<nat, Place>, view: imap<Page, View>, p: Page)
    requires Tree(m, root, tb) && Shows(m, root, view)
    ensures p in view
    ensures Slot(m, root, p).Some? ==>
              view[p] == EntryView(Ent(m, Slot(m, root, p).value, p.i1), UserPath(m, root, p))
    ensures Slot(m, root, p).None? ==> !view[p].Small?
  {
    ShowsWalk(m, root, view, p);
    if Slot(m, root, p).Some? {
      WalkAtSlot(m, root, p);
    } else if view[p].Small? {
      SmallHasSlot(m, root, tb, p);
    }
  }

  lemma PutExtended(m: Mem, tb: map<nat, Place>, free: set<nat>,
                    m1: Mem, tb1: map<nat, Place>, free1: set<nat>, t: nat, i: nat, e: nat)
    requires Extended(m, tb, free, m1, tb1, free1) && t in tb1 && t < |m1| && i < |m1[t]|
    ensures Extended(m, tb, free, Put(m1, t, i, e), tb1, free1)
  {
  }

  // ---------- frames of mapped pages ----------

  /** The frames of mapped pages after the page that showed `v` is taken out. */
  function Without(lv: map<nat, Page>, v: View): map<nat, Page> {
    if v.Small? then lv - {Frame(v.entry)} else lv
  }

  lemma UnmapLeaves(view: imap<Page, View>, lv: map<nat, Page>, tb: map<nat, Place>, free: set<nat>,
                    total: nat, n: nat, p: Page)
    requires LeavesOk(view, lv) && p in view && LeavesApart(lv, tb, free, total, n)
    ensures LeavesOk(view[p := Unmapped], Without(lv, view[p]))
    ensures LeavesApart(Without(lv, view[p]), tb, free, total, n)
  {
    var lv', view' := Without(lv, view[p]), view[p := Unmapped];
    forall d | d in lv'
      ensures lv'[d] in view' && view'[lv'[d]].Small? && Frame(view'[lv'[d]].entry) == d
    {
      assert d in lv && lv[d] != p;
    }
  }

  lemma MapLeaves(view: imap<Page, View>, lv: map<nat, Page>, p: Page, v: View)
    requires LeavesOk(view, lv) && p in view && v.Small? && Frame(v.entry) !in lv
    ensures LeavesOk(view[p := v], Without(lv, view[p])[Frame(v.entry) := p])
  {
  }

  /** The outcome of mapping frame `f` at page `p`: on success that page alone changes, to `f`. */
  ghost predicate MapResult(view: imap<Page, View>, lv: map<nat, Page>, view': imap<Page, View>, lv': map<nat, Page>,
                            p: Page, f: nat, flags: nat, ok: bool) {
    Whole(MapResultParts(view, lv, view', lv', p, f, flags, ok))
  }

  ghost predicate MapResultParts(view: imap<Page, View>, lv: map<nat, Page>,
                                 view': imap<Page, View>, lv': map<nat, Page>,
                                 p: Page, f: nat, flags: nat, ok: bool) {
    && p in view && p in view'
    && (ok ==>
          && !view[p].Large? && view'[p].Small? && view'[p].entry == PageEntry(f, flags)
          && view' == view[p := view'[p]] && lv' == Without(lv, view[p])[f := p])
    && (!ok ==> view' == view && lv' == lv)
  }

  lemma MapOutcome(view: imap<Page, View>, lv: map<nat, Page>, view': imap<Page, View>,
                   p: Page, f: nat, flags: nat, ok: bool, user: bool)
    requires p in view && f < FRAME_LIMIT && flags < 4096
    requires view' == if ok then view[p := EntryView(PageEntry(f, flags), user)] else view
    requires ok ==> !view[p].Large?
    ensures MapResult(view, lv, view', if ok then Without(lv, view[p])[f := p] else lv, p, f, flags, ok)
  {
  }

  /** New tables come from free frames, so they never meet the frames of mapped pages. */
  lemma ExtendedApart(m: Mem, tb: map<nat, Place>, free: set<nat>, m': Mem, tb': map<nat, Place>, free': set<nat>,
                      lv: map<nat, Page>, total: nat)
    requires Extended(m, tb, free, m', tb', free') && LeavesApart(lv, tb, free, total, |m|)
    ensures LeavesApart(lv, tb', free', total, |m'|)
    ensures forall f :: IsSpare(f, lv, tb, free, total, |m|) ==> IsSpare(f, lv, tb', free', total, |m'|)
  {
  }

  lemma SpareBecomesLeaf(f: nat, lv: map<nat, Page>, tb: map<nat, Place>, free: set<nat>, total: nat, n: nat,
                         lv': map<nat, Page>)
    requires LeavesApart(lv, tb, free, total, n) && IsSpare(f, lv, tb, free, total, n)
    requires forall d :: d in lv' ==> d in lv || d == f
    ensures LeavesApart(lv', tb, free, total, n)
  {
  }

  lemma MapKeepsLeaves(view: imap<Page, View>, lv: map<nat, Page>, view': imap<Page, View>, lv': map<nat, Page>,
                       p: Page, f: nat, flags: nat, ok: bool)
    requires LeavesOk(view, lv) && f !in lv && f < FRAME_LIMIT && flags < 4096
    requires MapResult(view, lv, view', lv', p, f, flags, ok)
    ensures LeavesOk(view', lv')
    ensures forall d :: d in lv' ==> d in lv || d == f
    ensures ok && !view[p].Small? ==> lv'.Keys == lv.Keys + {f}
  {
    PageEntryFields(f, flags);
    if ok { MapLeaves(view, lv, p, view'[p]); }
  }

  /** The outcome of unmapping page `p`: a 4 KiB page disappears and its frame `r` is recorded no longer;
      the frame is free again if that was asked for. Other pages stay. */
  ghost predicate UnmapResult(view: imap<Page, View>, lv: map<nat, Page>, free: set<nat>,
                              view': imap<Page, View>, lv': map<nat, Page>, free': set<nat>,
                              p: Page, freePhys: bool, r: Option<nat>) {
    Whole(UnmapResultParts(view, lv, free, view', lv', free', p, freePhys, r))
  }

  ghost predicate UnmapResultParts(view: imap<Page, View>, lv: map<nat, Page>, free: set<nat>,
                                   view': imap<Page, View>, lv': map<nat, Page>, free': set<nat>,
                                   p: Page, freePhys: bool, r: Option<nat>) {
    && p in view
    && r == (if view[p].Small? then Some(Frame(view[p].entry)) else None)
    && view' == (if r.Some? then view[p := Unmapped] else view)
    && lv' == Without(lv, view[p])
    && free' == (if freePhys && r.Some? then free + {r.value} else free)
  }

  lemma UnmapOutcome(view: imap<Page, View>, lv: map<nat, Page>, free: set<nat>, p: Page)
    requires p in view
    ensures view[p].Small? ==> UnmapResult(view, lv, free, view[p := Unmapped], Without(lv, view[p]), free, p, false,
                                           Some(Frame(view[p].entry)))
    ensures !view[p].Small? ==> UnmapResult(view, lv, free, view, lv, free, p, false, None)
  {
  }

  /** After an unmapping the frame is spare, and may be given back. */
  lemma UnmapThenFree(view: imap<Page, View>, lv: map<nat, Page>, free: set<nat>,
                      view': imap<Page, View>, lv': map<nat, Page>, tb: map<nat, Place>, total: nat, n: nat,
                      p: Page, freePhys: bool, r: Option<nat>)
    requires LeavesOk(view, lv) && LeavesApart(lv, tb, free, total, n)
    requires UnmapResult(view, lv, free, view', lv', free, p, false, r)
    ensures UnmapResult(view, lv, free, view', lv', if freePhys && r.Some? then free + {r.value} else free,
                        p, freePhys, r)
    ensures r.Some? ==> 0 < r.value && IsSpare(r.value, lv', tb, free, total, n)
  {
  }

  lemma LeafRecorded(view: imap<Page, View>, lv: map<nat, Page>, p: Page)
    requires LeavesOk(view, lv) && p in view && view[p].Small?
    ensures Frame(view[p].entry) in lv
  {
  }

  // ---------- marking entries user-accessible ----------

  /** Some entries of `m` became user-accessible in `m'`; nothing else changed. */
  ghost predicate Elevated(m: Mem, m': Mem) {
    Whole(ElevatedParts(m, m'))
  }

  ghost predicate ElevatedParts(m: Mem, m': Mem) {
    forall t: nat, i: nat :: Ent(m', t, i) == Ent(m, t, i) || Elevates(Ent(m, t, i), Ent(m', t, i))
  }

  /** Every page is found where it was, with at least the same access. */
  ghost predicate SameTargets(view: imap<Page, View>, view': imap<Page, View>) {
    Whole(SameTargetsParts(view, view'))
  }

  ghost predicate SameTargetsParts(view: imap<Page, View>, view': imap<Page, View>) {
    forall p :: p in view && p in view' && SameTarget(view[p], view'[p])
  }

  lemma MarkEffect(root: nat, m: Mem, tb: map<nat, Place>, view: imap<Page, View>, t: nat, i: nat)
    requires Tree(m, root, tb) && Shows(m, root, view) && t in tb && i < ENTRIES && Rows(m)
    ensures t < |m| && |m[t]| == ENTRIES && Rows(Put(m, t, i, UserEntry(m[t][i])))
    ensures var m' := Put(m, t, i, UserEntry(m[t][i]));
            && Tree(m', root, tb) && Shows(m', root, ViewOf(m', root))
            && SameTargets(view, ViewOf(m', root))
            && Elevated(m, m') && User(Ent(m', t, i))
  {
    assert TableOk(m, root, tb, t);
    var u := UserEntry(m[t][i]);
    UserEntryElevates(m[t][i]);
    var m' := Put(m, t, i, u);
    MarkTree(m, root, tb, t, i, u);
    PutEnt(m, t, i, u);
    forall q
      ensures q in view && SameTarget(view[q], Walk(m', root, q))
    {
      ShowsWalk(m, root, view, q);
      MarkWalk(m, root, t, i, u, q);
    }
  }

  lemma SameTargetsTrans(a: imap<Page, View>, b: imap<Page, View>, c: imap<Page, View>)
    requires SameTargets(a, b) && SameTargets(b, c)
    ensures SameTargets(a, c)
  {
  }

  lemma SameTargetsLeaves(view: imap<Page, View>, view': imap<Page, View>, lv: map<nat, Page>)
    requires SameTargets(view, view') && LeavesOk(view, lv)
    ensures LeavesOk(view', lv)
  {
  }

  /** The same page is found and its own entry is as it was; levels above may have gained access. */
  predicate Untouched(v: View, w: View) {
    SameTarget(v, w) && (v.Small? ==> w.entry == v.entry)
  }

  /** Every 4 KiB page but `p` has the entry it had. */
  ghost predicate OthersUntouched(view: imap<Page, View>, view': imap<Page, View>, p: Page) {
    Whole(OthersUntouchedParts(view, view', p))
  }

  ghost predicate OthersUntouchedParts(view: imap<Page, View>, view': imap<Page, View>, p: Page) {
    forall q :: q in view && q in view' && q != p ==> Untouched(view[q], view'[q])
  }

  /** A 4 KiB page that user code may reach. */
  predicate Accessible(v: View) {
    v.Small? && v.userPath && User(v.entry)
  }

  /** Marking entries: tables gain access bits, translations stay, no other frame changes. */
  ghost predicate Marks(m: Mem, view: imap<Page, View>, m': Mem, view': imap<Page, View>,
                        tb: map<nat, Place>, free: set<nat>) {
    Elevated(m, m') && SameTargets(view, view') && Extended(m, tb, free, m', tb, free)
  }

  lemma MarksRefl(root: nat, m: Mem, view: imap<Page, View>, tb: map<nat, Place>, free: set<nat>)
    requires Shows(m, root, view)
    ensures Marks(m, view, m, view, tb, free)
  {
  }

  lemma MarksTrans(tb: map<nat, Place>, free: set<nat>, m: Mem, view: imap<Page, View>,
                   m1: Mem, view1: imap<Page, View>, m2: Mem, view2: imap<Page, View>)
    requires Marks(m, view, m1, view1, tb, free) && Marks(m1, view1, m2, view2, tb, free)
    ensures Marks(m, view, m2, view2, tb, free)
  {
  }

  predicate PtMarked(m: Mem, pt: nat, p: Page) {
    Present(Ent(m, pt, p.i1)) ==> User(Ent(m, pt, p.i1))
  }

  predicate PdMarked(m: Mem, pd: nat, p: Page) {
    var e := Ent(m, pd, p.i2);
    Present(e) ==> User(e) && (!Huge(e) ==> PtMarked(m, Frame(e), p))
  }

  predicate PdptMarked(m: Mem, pdpt: nat, p: Page) {
    var e := Ent(m, pdpt, p.i3);
    Present(e) ==> User(e) && (!Huge(e) ==> PdMarked(m, Frame(e), p))
  }

  predicate PathMarked(m: Mem, root: nat, p: Page) {
    var e := Ent(m, root, p.i4);
    Present(e) ==> User(e) && PdptMarked(m, Frame(e), p)
  }

  lemma PathAccess(m: Mem, root: nat, view: imap<Page, View>, p: Page)
    requires Shows(m, root, view) && PathMarked(m, root, p)
    ensures p in view && (view[p].Small? ==> Accessible(view[p]))
  {
  }

  /** Marking more entries keeps an entry's target and access. */
  lemma ElevatedEntry(m: Mem, m': Mem, t: nat, i: nat)
    requires Elevated(m, m')
    ensures var e, e' := Ent(m, t, i), Ent(m', t, i);
            && Present(e') == Present(e) && Huge(e') == Huge(e) && Frame(e') == Frame(e) && (User(e) ==> User(e'))
  {
  }
}
