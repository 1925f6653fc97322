/** Which tables exist, named by the indices that lead to them: what a page still lacks, and how many frames
    mapping it takes. */
module TableKeys {
  import opened Options
  import opened Utils
  import opened Entries
  import opened PageTables

  type Key = seq<nat>

  /** The indices that lead from the root to table `t`. */
  ghost function KeyOf(tb: map<nat, Place>, t: nat): Key
    requires t in tb
    decreases tb[t].level
  {
    var pl := tb[t];
    if pl.level == 0 || pl.parent !in tb || tb[pl.parent].level >= pl.level then []
    else KeyOf(tb, pl.parent) + [pl.index]
  }

  ghost function Keys(tb: map<nat, Place>): set<Key> {
    set t | t in tb :: KeyOf(tb, t)
  }

  lemma {:induction false} KeyLength(m: Mem, root: nat, tb: map<nat, Place>, t: nat)
    requires Tree(m, root, tb) && t in tb
    ensures |KeyOf(tb, t)| == tb[t].level
    ensures t != root ==> tb[t].parent in tb && tb[tb[t].parent].level + 1 == tb[t].level
    ensures t != root ==> KeyOf(tb, t) == KeyOf(tb, tb[t].parent) + [tb[t].index]
    decreases tb[t].level
  {
    assert TableOk(m, root, tb, t);
    if t != root {
      assert ParentOk(m, tb, t);
      KeyLength(m, root, tb, tb[t].parent);
    }
  }

  /** No two tables stand at the same place. */
  lemma {:induction false} KeyUnique(m: Mem, root: nat, tb: map<nat, Place>, x: nat, y: nat)
    requires Tree(m, root, tb) && x in tb && y in tb && KeyOf(tb, x) == KeyOf(tb, y)
    ensures x == y
    decreases tb[x].level
  {
    KeyLength(m, root, tb, x);
    KeyLength(m, root, tb, y);
    assert TableOk(m, root, tb, x) && TableOk(m, root, tb, y);
    if x != root {
      var kx, ky := KeyOf(tb, tb[x].parent), KeyOf(tb, tb[y].parent);
      assert kx == (kx + [tb[x].index])[..|kx|] && ky == (ky + [tb[y].index])[..|ky|];
      KeyUnique(m, root, tb, tb[x].parent, tb[y].parent);
      assert ParentOk(m, tb, x) && ParentOk(m, tb, y);
    }
  }

  /** An entry leads to a table if and only if there is a table of that name. */
  lemma KeyPoints(m: Mem, root: nat, tb: map<nat, Place>, t: nat, i: nat)
    requires Tree(m, root, tb) && t in tb && tb[t].level < 3 && i < ENTRIES
    ensures KeyOf(tb, t) + [i] in Keys(tb) <==> Points(Ent(m, t, i))
  {
    var k := KeyOf(tb, t) + [i];
    if Points(Ent(m, t, i)) {
      assert ChildOk(m, tb, t, i);
      var c := Frame(Ent(m, t, i));
      assert KeyOf(tb, c) == k;
    }
    if k in Keys(tb) {
      var x :| x in tb && KeyOf(tb, x) == k;
      KeyLength(m, root, tb, x);
      var kx := KeyOf(tb, tb[x].parent);
      assert kx == (kx + [tb[x].index])[..|kx|] && KeyOf(tb, t) == k[..|k| - 1];
      KeyUnique(m, root, tb, tb[x].parent, t);
      assert k[|k| - 1] == i == tb[x].index;
      assert ParentOk(m, tb, x);
    }
  }

  lemma {:induction false} KeyStays(m: Mem, root: nat, tb: map<nat, Place>, f: nat, pl: Place, t: nat)
    requires Tree(m, root, tb) && t in tb && f !in tb
    ensures KeyOf(tb[f := pl], t) == KeyOf(tb, t)
    decreases tb[t].level
  {
    assert TableOk(m, root, tb, t);
    if t != root {
      assert ParentOk(m, tb, t);
      KeyStays(m, root, tb, f, pl, tb[t].parent);
    }
  }

  /** A new table adds its name and no other. */
  lemma KeysMore(m: Mem, root: nat, tb: map<nat, Place>, t: nat, i: nat, f: nat)
    requires Tree(m, root, tb) && t in tb && f !in tb
    ensures Keys(tb[f := Place(tb[t].level + 1, t, i)]) == Keys(tb) + {KeyOf(tb, t) + [i]}
  {
    var tb' := tb[f := Place(tb[t].level + 1, t, i)];
    forall x | x in tb ensures KeyOf(tb', x) == KeyOf(tb, x) {
      KeyStays(m, root, tb, f, tb'[f], x);
    }
    assert KeyOf(tb', f) == KeyOf(tb, t) + [i];
    forall k ensures k in Keys(tb') <==> k in Keys(tb) + {KeyOf(tb, t) + [i]} {
      if k in Keys(tb) {
        var x :| x in tb && KeyOf(tb, x) == k;
        assert KeyOf(tb', x) == k;
      }
    }
  }

  // ---------- the tables of a page ----------

  function Key1(p: Page): Key { [p.i4] }

  function Key2(p: Page): Key { [p.i4, p.i3] }

  function Key3(p: Page): Key { [p.i4, p.i3, p.i2] }

  /** The names of the tables below the root that a page needs. */
  function Prefixes(p: Page): set<Key> {
    {Key1(p), Key2(p), Key3(p)}
  }

  /** The last-level table of a page stands at the place its indices name. */
  lemma SlotKey(m: Mem, root: nat, tb: map<nat, Place>, p: Page)
    requires Tree(m, root, tb) && Slot(m, root, p).Some?
    ensures var t := Slot(m, root, p).value;
            t in tb && tb[t].level == 3 && KeyOf(tb, t) == Key3(p)
  {
    RootKey(m, root, tb);
    assert TableOk(m, root, tb, root);
    NextInTree(m, root, tb, root, p.i4);
    var t1 := PdptOf(m, root, p).value;
    ChildKey(tb, root, t1, p.i4);
    NextInTree(m, root, tb, t1, p.i3);
    var t2 := PdOf(m, root, p).value;
    ChildKey(tb, t1, t2, p.i3);
    NextInTree(m, root, tb, t2, p.i2);
    ChildKey(tb, t2, Slot(m, root, p).value, p.i2);
    assert [] + [p.i4] + [p.i3] + [p.i2] == Key3(p);
  }

  lemma ChildKey(tb: map<nat, Place>, t: nat, c: nat, i: nat)
    requires t in tb && c in tb && tb[c] == Place(tb[t].level + 1, t, i)
    ensures KeyOf(tb, c) == KeyOf(tb, t) + [i]
  {
  }

  // ---------- marking the path of a page ----------

  /** Among the entries of last-level tables only that of page `p` may have changed. */
  ghost predicate LeafOnly(m: Mem, m': Mem, tb: map<nat, Place>, p: Page) {
    Whole(LeafOnlyParts(m, m', tb, p))
  }

  ghost predicate LeafOnlyParts(m: Mem, m': Mem, tb: map<nat, Place>, p: Page) {
    forall t: nat, k: nat :: t in tb && tb[t].level == 3 && !(KeyOf(tb, t) == Key3(p) && k == p.i1) ==>
                               Ent(m', t, k) == Ent(m, t, k)
  }

  lemma LeafOnlyRefl(m: Mem, tb: map<nat, Place>, p: Page)
    ensures LeafOnly(m, m, tb, p)
  {
  }

  lemma LeafOnlyTrans(m: Mem, m1: Mem, m2: Mem, tb: map<nat, Place>, p: Page)
    requires LeafOnly(m, m1, tb, p) && LeafOnly(m1, m2, tb, p)
    ensures LeafOnly(m, m2, tb, p)
  {
    hide KeyOf;
  }

  /** Changing one entry, above the last level or that of the page. */
  lemma LeafOnlyPut(m: Mem, tb: map<nat, Place>, t: nat, i: nat, u: nat, p: Page)
    requires t < |m| && i < |m[t]| && t in tb && (tb[t].level < 3 || (KeyOf(tb, t) == Key3(p) && i == p.i1))
    ensures LeafOnly(m, Put(m, t, i, u), tb, p)
  {
    hide KeyOf;
    PutEnt(m, t, i, u);
  }

  /** Then every other page has the entry it had. */
  lemma LeafOnlyEntries(m: Mem, m': Mem, root: nat, tb: map<nat, Place>, p: Page, q: Page)
    requires Tree(m, root, tb) && Tree(m', root, tb) && LeafOnly(m, m', tb, p) && q != p
    requires Walk(m, root, q).Small? && Walk(m', root, q).Small? && Slot(m', root, q) == Slot(m, root, q)
    ensures Walk(m', root, q).entry == Walk(m, root, q).entry
  {
    SmallHasSlot(m, root, tb, q);
    SlotKey(m, root, tb, q);
    WalkAtSlot(m, root, q);
    WalkAtSlot(m', root, q);
    assert Key3(q) == Key3(p) ==> q.i4 == p.i4 && q.i3 == p.i3 && q.i2 == p.i2 by {
      if Key3(q) == Key3(p) { assert Key3(q)[0] == Key3(p)[0] && Key3(q)[1] == Key3(p)[1] && Key3(q)[2] == Key3(p)[2]; }
    }
  }

  // ---------- what a page lacks ----------

  lemma SubsetCount(a: set<Key>, b: set<Key>)
    requires a <= b
    ensures |a| <= |b|
  {
    assert b == a + (b - a);
  }

  /** Creating the tables `ks` and then `more` takes as many frames as both together lack. */
  lemma LackingTwice(keys: set<Key>, ks: set<Key>, more: set<Key>)
    ensures |(ks + more) - keys| == |ks - keys| + |more - (keys + ks)|
  {
    assert (ks + more) - keys == (ks - keys) + (more - (keys + ks));
  }

  /** The tables `ks` exist now, and every one that did not exist before took a frame. */
  ghost predicate Made(tb: map<nat, Place>, free: set<nat>, tb': map<nat, Place>, free': set<nat>, ks: set<Key>) {
    Whole(MadeParts(tb, free, tb', free', ks))
  }

  ghost predicate MadeParts(tb: map<nat, Place>, free: set<nat>, tb': map<nat, Place>, free': set<nat>, ks: set<Key>) {
    Keys(tb') == Keys(tb) + ks && |free'| + |ks - Keys(tb)| == |free|
  }

  /** There are fewer free frames than tables to create. */
  ghost predicate Short(tb: map<nat, Place>, free: set<nat>, ks: set<Key>) {
    Whole(ShortParts(tb, free, ks))
  }

  ghost predicate ShortParts(tb: map<nat, Place>, free: set<nat>, ks: set<Key>) {
    |free| < |ks - Keys(tb)|
  }

  /** Table `f` stands below entry `i` of `t` now. */
  ghost predicate MadeBelow(tb: map<nat, Place>, free: set<nat>, tb': map<nat, Place>, free': set<nat>,
                            t: nat, i: nat, f: nat) {
    && t in tb && f in tb'
    && Made(tb, free, tb', free', {KeyOf(tb, t) + [i]}) && KeyOf(tb', f) == KeyOf(tb, t) + [i]
  }

  ghost predicate ShortBelow(tb: map<nat, Place>, free: set<nat>, t: nat, i: nat) {
    t in tb && Short(tb, free, {KeyOf(tb, t) + [i]})
  }

  lemma NothingMade(tb: map<nat, Place>, free: set<nat>, ks: set<Key>)
    requires ks <= Keys(tb)
    ensures Made(tb, free, tb, free, ks)
  {
    hide Keys;
    assert ks - Keys(tb) == {};
  }

  lemma OneMade(m: Mem, root: nat, tb: map<nat, Place>, free: set<nat>, t: nat, i: nat, f: nat)
    requires Tree(m, root, tb) && t in tb && tb[t].level < 3 && i < ENTRIES && !Present(Ent(m, t, i))
    requires f in free && f !in tb
    ensures var tb' := tb[f := Place(tb[t].level + 1, t, i)];
            MadeBelow(tb, free, tb', free - {f}, t, i, f)
  {
    KeysMore(m, root, tb, t, i, f);
    KeyPoints(m, root, tb, t, i);
    KeyStays(m, root, tb, f, Place(tb[t].level + 1, t, i), t);
    hide Keys;
    assert {KeyOf(tb, t) + [i]} - Keys(tb) == {KeyOf(tb, t) + [i]};
  }

  lemma NoneLeft(m: Mem, root: nat, tb: map<nat, Place>, t: nat, i: nat)
    requires Tree(m, root, tb) && t in tb && tb[t].level < 3 && i < ENTRIES && !Present(Ent(m, t, i))
    ensures ShortBelow(tb, {}, t, i)
  {
    KeyPoints(m, root, tb, t, i);
    hide Keys;
    assert {KeyOf(tb, t) + [i]} - Keys(tb) == {KeyOf(tb, t) + [i]};
  }

  lemma MadeTwice(tb: map<nat, Place>, free: set<nat>, tb1: map<nat, Place>, free1: set<nat>,
                  tb2: map<nat, Place>, free2: set<nat>, ks: set<Key>, more: set<Key>)
    requires Made(tb, free, tb1, free1, ks) && Made(tb1, free1, tb2, free2, more)
    ensures Made(tb, free, tb2, free2, ks + more)
  {
    hide Keys;
    LackingTwice(Keys(tb), ks, more);
  }

  lemma ShortLater(tb: map<nat, Place>, free: set<nat>, tb1: map<nat, Place>, free1: set<nat>, ks: set<Key>,
                   more: set<Key>)
    requires Made(tb, free, tb1, free1, ks) && Short(tb1, free1, more)
    ensures Short(tb, free, ks + more)
  {
    hide Keys;
    LackingTwice(Keys(tb), ks, more);
  }

  lemma ShortMore(tb: map<nat, Place>, free: set<nat>, ks: set<Key>, more: set<Key>)
    requires Short(tb, free, ks) && ks <= more
    ensures Short(tb, free, more)
  {
    hide Keys;
    SubsetCount(ks - Keys(tb), more - Keys(tb));
  }

  /** Entries of the root are never huge. */
  lemma RootEntry(m: Mem, root: nat, tb: map<nat, Place>, i: nat)
    requires Tree(m, root, tb) && i < ENTRIES
    ensures root in tb && tb[root].level == 0 && (Present(Ent(m, root, i)) ==> Next(m, Some(root), i).Some?)
  {
    assert TableOk(m, root, tb, root);
  }

  lemma RootKey(m: Mem, root: nat, tb: map<nat, Place>)
    requires Tree(m, root, tb)
    ensures KeyOf(tb, root) == []
  {
    KeyLength(m, root, tb, root);
  }

  /** A table that is there already. */
  lemma KeyThere(m: Mem, root: nat, tb: map<nat, Place>, free: set<nat>, t: nat, i: nat)
    requires Tree(m, root, tb) && t in tb && tb[t].level < 3 && i < ENTRIES
    ensures Points(Ent(m, t, i)) ==>
              MadeBelow(tb, free, tb, free, t, i, Frame(Ent(m, t, i)))
  {
    if Points(Ent(m, t, i)) {
      KeyPoints(m, root, tb, t, i);
      NothingMade(tb, free, {KeyOf(tb, t) + [i]});
      assert ChildOk(m, tb, t, i);
    }
  }

  lemma FirstMade(tb: map<nat, Place>, free: set<nat>, tb': map<nat, Place>, free': set<nat>, root: nat, p: Page,
                  f: nat)
    requires root in tb && KeyOf(tb, root) == []
    ensures MadeBelow(tb, free, tb', free', root, p.i4, f) ==>
              Made(tb, free, tb', free', {Key1(p)}) && f in tb' && KeyOf(tb', f) == Key1(p)
    ensures ShortBelow(tb, free, root, p.i4) ==> Short(tb, free, {Key1(p)})
  {
    assert [] + [p.i4] == Key1(p);
  }

  lemma SecondMade(tb: map<nat, Place>, free: set<nat>, tb1: map<nat, Place>, free1: set<nat>, tb': map<nat, Place>,
                   free': set<nat>, t: nat, p: Page, f: nat)
    requires Made(tb, free, tb1, free1, {Key1(p)}) && t in tb1 && KeyOf(tb1, t) == Key1(p)
    ensures MadeBelow(tb1, free1, tb', free', t, p.i3, f) ==>
              Made(tb, free, tb', free', {Key1(p), Key2(p)}) && f in tb' && KeyOf(tb', f) == Key2(p)
    ensures ShortBelow(tb1, free1, t, p.i3) ==> Short(tb, free, {Key1(p), Key2(p)})
  {
    hide Made, Short;
    assert Key1(p) + [p.i3] == Key2(p) && {Key1(p)} + {Key2(p)} == {Key1(p), Key2(p)};
    if MadeBelow(tb1, free1, tb', free', t, p.i3, f) {
      MadeTwice(tb, free, tb1, free1, tb', free', {Key1(p)}, {Key2(p)});
    }
    if ShortBelow(tb1, free1, t, p.i3) { ShortLater(tb, free, tb1, free1, {Key1(p)}, {Key2(p)}); }
  }

  lemma ThirdMade(tb: map<nat, Place>, free: set<nat>, tb1: map<nat, Place>, free1: set<nat>, tb': map<nat, Place>,
                  free': set<nat>, t: nat, p: Page, f: nat)
    requires Made(tb, free, tb1, free1, {Key1(p), Key2(p)}) && t in tb1 && KeyOf(tb1, t) == Key2(p)
    ensures MadeBelow(tb1, free1, tb', free', t, p.i2, f) ==> Made(tb, free, tb', free', Prefixes(p))
    ensures ShortBelow(tb1, free1, t, p.i2) ==> Short(tb, free, Prefixes(p))
  {
    hide Made, Short;
    assert Key2(p) + [p.i2] == Key3(p) && {Key1(p), Key2(p)} + {Key3(p)} == Prefixes(p);
    if MadeBelow(tb1, free1, tb', free', t, p.i2, f) {
      MadeTwice(tb, free, tb1, free1, tb', free', {Key1(p), Key2(p)}, {Key3(p)});
    }
    if ShortBelow(tb1, free1, t, p.i2) { ShortLater(tb, free, tb1, free1, {Key1(p), Key2(p)}, {Key3(p)}); }
  }
}
