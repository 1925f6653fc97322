/** Four-level page tables in physical memory (section 4.5 of the Intel SDM, Volume 3A) as pure values:
    the walk, the shape of the table tree, and what single entry writes do to every translation. */
module PageTables {
  import opened Entries
  import opened Options
  import opened Utils

  /** Physical memory: frames of 512 words of 64 bits. */
  type Mem = seq<seq<nat>>

  const ENTRIES: nat := 512

  /** A virtual page by its index at each level, top level first. */
  datatype Page = Page(i4: nat, i3: nat, i2: nat, i1: nat)

  /** Word `i` of frame `t`; memory that does not exist reads as 0. */
  function Ent(m: Mem, t: nat, i: nat): nat {
    if t < |m| && i < |m[t]| then m[t][i] else 0
  }

  function Put(m: Mem, t: nat, i: nat, e: nat): Mem
    requires t < |m| && i < |m[t]|
  {
    var row: seq<nat> := m[t][i := e];
    m[t := row]
  }

  function Zeroed(m: Mem, f: nat): Mem
    requires f < |m|
  {
    var row: seq<nat> := seq(ENTRIES, _ => 0);
    m[f := row]
  }

  lemma PutEnt(m: Mem, t: nat, i: nat, e: nat)
    requires t < |m| && i < |m[t]|
    ensures forall t': nat, i': nat :: Ent(Put(m, t, i, e), t', i') == if t' == t && i' == i then e else Ent(m, t', i')
  {
  }

  /** What a walk finds for a page: nothing, a 4 KiB page (its entry, and whether every upper level is
      user-accessible), or a large page. */
  datatype View = Unmapped | Small(entry: nat, userPath: bool) | Large(level: nat, frame: nat)

  function WalkPt(m: Mem, pt: nat, p: Page, user: bool): View {
    var e := Ent(m, pt, p.i1);
    if !Present(e) then Unmapped else Small(e, user)
  }

  function WalkPd(m: Mem, pd: nat, p: Page, user: bool): View {
    var e := Ent(m, pd, p.i2);
    if !Present(e) then Unmapped
    else if Huge(e) then Large(2, Frame(e))
    else WalkPt(m, Frame(e), p, user && User(e))
  }

  function WalkPdpt(m: Mem, pdpt: nat, p: Page, user: bool): View {
    var e := Ent(m, pdpt, p.i3);
    if !Present(e) then Unmapped
    else if Huge(e) then Large(3, Frame(e))
    else WalkPd(m, Frame(e), p, user && User(e))
  }

  /** The walk of `vmm_get_mapping`, which does not look for large pages at the top level. */
  function Walk(m: Mem, root: nat, p: Page): View {
    var e := Ent(m, root, p.i4);
    if !Present(e) then Unmapped else WalkPdpt(m, Frame(e), p, User(e))
  }

  /** The table one level down, when the entry leads to one. */
  function Next(m: Mem, t: Option<nat>, i: nat): Option<nat> {
    if t.Some? && Points(Ent(m, t.value, i)) then Some(Frame(Ent(m, t.value, i))) else None
  }

  function PdptOf(m: Mem, root: nat, p: Page): Option<nat> {
    Next(m, Some(root), p.i4)
  }

  function PdOf(m: Mem, root: nat, p: Page): Option<nat> {
    Next(m, PdptOf(m, root, p), p.i3)
  }

  /** The last-level table that `vmm_get_pte_ptr` reaches. */
  function Slot(m: Mem, root: nat, p: Page): Option<nat> {
    Next(m, PdOf(m, root, p), p.i2)
  }

  /** Where a table hangs: its level (0 is the root) and the one entry that refers to it. */
  datatype Place = Place(level: nat, parent: nat, index: nat)

  ghost predicate TableOk(m: Mem, root: nat, tb: map<nat, Place>, t: nat)
    requires t in tb
  {
    && t < |m| && |m[t]| == ENTRIES
    && tb[t].level <= 3
    && (tb[t].level == 0 <==> t == root)
  }

  ghost predicate ChildOk(m: Mem, tb: map<nat, Place>, t: nat, i: nat)
    requires t in tb
  {
    Points(Ent(m, t, i)) ==>
      && Frame(Ent(m, t, i)) in tb
      && tb[Frame(Ent(m, t, i))] == Place(tb[t].level + 1, t, i)
  }

  ghost predicate ParentOk(m: Mem, tb: map<nat, Place>, c: nat)
    requires c in tb
  {
    var pl := tb[c];
    && pl.parent in tb && tb[pl.parent].level + 1 == pl.level && pl.index < ENTRIES
    && Points(Ent(m, pl.parent, pl.index)) && Frame(Ent(m, pl.parent, pl.index)) == c
  }

  /** The live tables form a tree: every entry above the last level that leads to a table leads to one
      whose place is that entry, and every table but the root is referred to from its place. */
  ghost predicate Tree(m: Mem, root: nat, tb: map<nat, Place>) {
    Whole(TreeParts(m, root, tb))
  }

  ghost predicate TreeParts(m: Mem, root: nat, tb: map<nat, Place>) {
      && root in tb
      && (forall t :: t in tb ==> TableOk(m, root, tb, t))
      && (forall t, i: nat {:trigger ChildOk(m, tb, t, i)} ::
            t in tb && tb[t].level < 3 && i < ENTRIES ==> ChildOk(m, tb, t, i))
      && (forall c {:trigger ParentOk(m, tb, c)} :: c in tb && c != root ==> ParentOk(m, tb, c))
      && (forall i :: 0 <= i < ENTRIES && Present(Ent(m, root, i)) ==> !Huge(Ent(m, root, i)))
  }

  /** Two entries never refer to the same table. */
  lemma OneParent(m: Mem, root: nat, tb: map<nat, Place>, t: nat, i: nat, t': nat, i': nat)
    requires Tree(m, root, tb)
    requires t in tb && tb[t].level < 3 && i < ENTRIES && Points(Ent(m, t, i))
    requires t' in tb && tb[t'].level < 3 && i' < ENTRIES && Points(Ent(m, t', i'))
    requires Frame(Ent(m, t, i)) == Frame(Ent(m, t', i'))
    ensures t == t' && i == i'
  {
    assert ChildOk(m, tb, t, i) && ChildOk(m, tb, t', i');
  }

  /** The tables a walk passes are in the tree at the indices of the page. */
  lemma NextInTree(m: Mem, root: nat, tb: map<nat, Place>, t: nat, i: nat)
    requires Tree(m, root, tb) && t in tb && tb[t].level < 3
    ensures Next(m, Some(t), i).Some? ==>
              var c := Next(m, Some(t), i).value;
              c in tb && tb[c] == Place(tb[t].level + 1, t, i) && i < ENTRIES
  {
    if i < ENTRIES {
      assert ChildOk(m, tb, t, i);
    } else {
      assert Ent(m, t, i) == 0;
    }
  }

  lemma SlotInTree(m: Mem, root: nat, tb: map<nat, Place>, p: Page)
    requires Tree(m, root, tb) && Slot(m, root, p).Some?
    ensures var t := Slot(m, root, p).value;
            && t in tb && tb[t].level == 3 && tb[t].index == p.i2
            && tb[t].parent in tb && tb[tb[t].parent].index == p.i3
            && tb[tb[t].parent].parent in tb && tb[tb[tb[t].parent].parent].index == p.i4
  {
    NextInTree(m, root, tb, root, p.i4);
    var t1 := Next(m, Some(root), p.i4).value;
    NextInTree(m, root, tb, t1, p.i3);
    var t2 := Next(m, Some(t1), p.i3).value;
    NextInTree(m, root, tb, t2, p.i2);
  }

  /** Pages that share a last-level table differ only in the last index. */
  lemma SlotUnique(m: Mem, root: nat, tb: map<nat, Place>, p: Page, q: Page)
    requires Tree(m, root, tb)
    requires Slot(m, root, p).Some? && Slot(m, root, p) == Slot(m, root, q)
    ensures p.i4 == q.i4 && p.i3 == q.i3 && p.i2 == q.i2
  {
    SlotInTree(m, root, tb, p);
    SlotInTree(m, root, tb, q);
  }

  // ---------- writing an entry of a last-level table ----------

  /** Whether every level above the last lets user code through to page `p`. */
  function UserPath(m: Mem, root: nat, p: Page): bool {
    var e4 := Ent(m, root, p.i4);
    var e3 := Ent(m, Frame(e4), p.i3);
    var e2 := Ent(m, Frame(e3), p.i2);
    User(e4) && User(e3) && User(e2)
  }

  /** A walk that ends in a last-level table shows the entry there. */
  lemma WalkAtSlot(m: Mem, root: nat, p: Page)
    requires Slot(m, root, p).Some?
    ensures Walk(m, root, p) == WalkPt(m, Slot(m, root, p).value, p, UserPath(m, root, p))
  {
  }

  /** A 4 KiB page is found in the table that `Slot` names. */
  lemma SmallHasSlot(m: Mem, root: nat, tb: map<nat, Place>, p: Page)
    requires Tree(m, root, tb) && Walk(m, root, p).Small?
    ensures Slot(m, root, p).Some?
    ensures Walk(m, root, p) == WalkPt(m, Slot(m, root, p).value, p, UserPath(m, root, p))
  {
    assert p.i4 < ENTRIES;
    assert !Huge(Ent(m, root, p.i4));
  }

  ghost predicate LeafTable(m: Mem, root: nat, tb: map<nat, Place>, t: nat, i: nat) {
    Tree(m, root, tb) && t in tb && tb[t].level == 3 && i < ENTRIES
  }

  lemma WriteLeafTree(m: Mem, root: nat, tb: map<nat, Place>, t: nat, i: nat, e: nat)
    requires LeafTable(m, root, tb, t, i)
    ensures Tree(Put(m, t, i, e), root, tb)
  {
    var m' := Put(m, t, i, e);
    PutEnt(m, t, i, e);
    forall a, b: nat | a in tb && tb[a].level < 3 && b < ENTRIES
      ensures ChildOk(m', tb, a, b)
    {
      assert ChildOk(m, tb, a, b);
    }
    forall c | c in tb && c != root
      ensures ParentOk(m', tb, c)
    {
      assert ParentOk(m, tb, c);
    }
  }

  lemma WriteLeafUpper(m: Mem, root: nat, tb: map<nat, Place>, t: nat, i: nat, e: nat, q: Page)
    requires LeafTable(m, root, tb, t, i)
    ensures Slot(Put(m, t, i, e), root, q) == Slot(m, root, q)
    ensures Slot(m, root, q).Some? ==> UserPath(Put(m, t, i, e), root, q) == UserPath(m, root, q)
    ensures Slot(m, root, q).None? ==> Walk(Put(m, t, i, e), root, q) == Walk(m, root, q)
  {
    PutEnt(m, t, i, e);
    NextInTree(m, root, tb, root, q.i4);
    var n1 := Next(m, Some(root), q.i4);
    if n1.Some? {
      NextInTree(m, root, tb, n1.value, q.i3);
      var n2 := Next(m, n1, q.i3);
      if n2.Some? {
        NextInTree(m, root, tb, n2.value, q.i2);
      }
    }
  }

  /** Writing one last-level entry changes the translation of the one page that uses it. */
  lemma WriteLeafWalk(m: Mem, root: nat, tb: map<nat, Place>, t: nat, i: nat, e: nat, q: Page)
    requires LeafTable(m, root, tb, t, i)
    ensures Walk(Put(m, t, i, e), root, q) ==
            if Slot(m, root, q) == Some(t) && q.i1 == i
            then (if Present(e) then Small(e, UserPath(m, root, q)) else Unmapped)
            else Walk(m, root, q)
  {
    var m' := Put(m, t, i, e);
    PutEnt(m, t, i, e);
    WriteLeafUpper(m, root, tb, t, i, e, q);
    if Slot(m, root, q).Some? {
      WalkAtSlot(m, root, q);
      WalkAtSlot(m', root, q);
    }
  }

  // ---------- adding an empty table ----------

  ghost predicate FreeSpot(m: Mem, root: nat, tb: map<nat, Place>, t: nat, i: nat, f: nat) {
    && Tree(m, root, tb) && t in tb && tb[t].level < 3 && i < ENTRIES && !Present(Ent(m, t, i))
    && f !in tb && f < |m| && f < FRAME_LIMIT
  }

  function WithTable(m: Mem, t: nat, i: nat, f: nat): Mem
    requires t < |m| && |m[t]| == ENTRIES && i < ENTRIES && f < |m|
  {
    Put(Zeroed(m, f), t, i, TableEntry(f))
  }

  lemma WithTableEnt(m: Mem, t: nat, i: nat, f: nat)
    requires t < |m| && |m[t]| == ENTRIES && i < ENTRIES && f < |m| && f != t
    ensures forall a: nat, b: nat :: Ent(WithTable(m, t, i, f), a, b) ==
              if a == t && b == i then TableEntry(f) else if a == f then 0 else Ent(m, a, b)
  {
  }

  lemma AddTableTree(m: Mem, root: nat, tb: map<nat, Place>, t: nat, i: nat, f: nat)
    requires FreeSpot(m, root, tb, t, i, f)
    ensures Tree(WithTable(m, t, i, f), root, tb[f := Place(tb[t].level + 1, t, i)])
  {
    var m' := WithTable(m, t, i, f);
    var tb' := tb[f := Place(tb[t].level + 1, t, i)];
    WithTableEnt(m, t, i, f);
    TableEntryFields(f);
    forall a, b: nat | a in tb' && tb'[a].level < 3 && b < ENTRIES
      ensures ChildOk(m', tb', a, b)
    {
      if a != f { assert ChildOk(m, tb, a, b); }
    }
    forall c | c in tb' && c != root
      ensures ParentOk(m', tb', c)
    {
      if c != f { assert ParentOk(m, tb, c); }
    }
  }

  /** A new empty table gives no page a translation and takes none away. */
  lemma AddTableWalk(m: Mem, root: nat, tb: map<nat, Place>, t: nat, i: nat, f: nat, q: Page)
    requires FreeSpot(m, root, tb, t, i, f)
    ensures Walk(WithTable(m, t, i, f), root, q) == Walk(m, root, q)
  {
    WithTableEnt(m, t, i, f);
    TableEntryFields(f);
    NextInTree(m, root, tb, root, q.i4);
    var n1 := Next(m, Some(root), q.i4);
    if n1.Some? {
      NextInTree(m, root, tb, n1.value, q.i3);
      var n2 := Next(m, n1, q.i3);
      if n2.Some? {
        NextInTree(m, root, tb, n2.value, q.i2);
      }
    }
  }

  // ---------- marking an entry user-accessible ----------

  /** `u` is entry `e` made user-accessible. */
  predicate Elevates(e: nat, u: nat) {
    User(u) && Present(u) == Present(e) && Huge(u) == Huge(e) && Frame(u) == Frame(e)
  }

  lemma UserEntryElevates(e: nat)
    ensures Elevates(e, UserEntry(e))
  {
    UserEntryFields(e);
  }

  lemma MarkTree(m: Mem, root: nat, tb: map<nat, Place>, t: nat, i: nat, u: nat)
    requires Tree(m, root, tb) && t in tb && i < ENTRIES && Elevates(Ent(m, t, i), u)
    ensures Tree(Put(m, t, i, u), root, tb)
  {
    var m' := Put(m, t, i, u);
    PutEnt(m, t, i, u);
    forall a, b: nat | a in tb && tb[a].level < 3 && b < ENTRIES
      ensures ChildOk(m', tb, a, b)
    {
      assert ChildOk(m, tb, a, b);
    }
    forall c | c in tb && c != root
      ensures ParentOk(m', tb, c)
    {
      assert ParentOk(m, tb, c);
    }
  }

  /** The same page is found, with at least the same access. */
  predicate SameTarget(v: View, w: View) {
    match v
    case Unmapped => w.Unmapped?
    case Large(_, _) => w == v
    case Small(e, u) => w.Small? && Frame(w.entry) == Frame(e) && (User(e) ==> User(w.entry)) && (u ==> w.userPath)
  }

  lemma MarkPt(m: Mem, t: nat, i: nat, u: nat, pt: nat, q: Page, c: bool, d: bool)
    requires t < |m| && i < |m[t]| && Elevates(Ent(m, t, i), u) && (c ==> d)
    ensures SameTarget(WalkPt(m, pt, q, c), WalkPt(Put(m, t, i, u), pt, q, d))
  {
  }

  lemma MarkPd(m: Mem, t: nat, i: nat, u: nat, pd: nat, q: Page, c: bool, d: bool)
    requires t < |m| && i < |m[t]| && Elevates(Ent(m, t, i), u) && (c ==> d)
    ensures SameTarget(WalkPd(m, pd, q, c), WalkPd(Put(m, t, i, u), pd, q, d))
  {
    PutEnt(m, t, i, u);
    var e, e' := Ent(m, pd, q.i2), Ent(Put(m, t, i, u), pd, q.i2);
    assert e' == e || Elevates(e, e');
    MarkPt(m, t, i, u, Frame(e), q, c && User(e), d && User(e'));
  }

  lemma MarkPdpt(m: Mem, t: nat, i: nat, u: nat, pdpt: nat, q: Page, c: bool, d: bool)
    requires t < |m| && i < |m[t]| && Elevates(Ent(m, t, i), u) && (c ==> d)
    ensures SameTarget(WalkPdpt(m, pdpt, q, c), WalkPdpt(Put(m, t, i, u), pdpt, q, d))
  {
    PutEnt(m, t, i, u);
    var e, e' := Ent(m, pdpt, q.i3), Ent(Put(m, t, i, u), pdpt, q.i3);
    assert e' == e || Elevates(e, e');
    MarkPd(m, t, i, u, Frame(e), q, c && User(e), d && User(e'));
  }

  /** Marking any present entry leaves every page where it was and never takes access away. */
  lemma MarkWalk(m: Mem, root: nat, t: nat, i: nat, u: nat, q: Page)
    requires t < |m| && i < |m[t]| && Elevates(Ent(m, t, i), u)
    ensures SameTarget(Walk(m, root, q), Walk(Put(m, t, i, u), root, q))
  {
    PutEnt(m, t, i, u);
    var e, e' := Ent(m, root, q.i4), Ent(Put(m, t, i, u), root, q.i4);
    assert e' == e || Elevates(e, e');
    MarkPdpt(m, t, i, u, Frame(e), q, User(e), User(e'));
  }
}
