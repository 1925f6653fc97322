/** How many frames mapping pages takes: one for every page that has none and one for every table that is
    missing. */
module FrameCounts {
  import opened Utils
  import opened Options
  import opened Entries
  import opened PageTables
  import opened TableEffects
  import opened TableKeys
  import opened PageRanges

  /** The pages that have a frame. */
  ghost function Pages(s: Snapshot): set<Page> {
    set d | d in s.leaves :: s.leaves[d]
  }

  lemma PageMapped(s: Snapshot, p: Page)
    requires Partitioned(s)
    ensures p in Pages(s) <==> p in s.view && s.view[p].Small?
  {
    if p in s.view && s.view[p].Small? {
      LeafRecorded(s.view, s.leaves, p);
      assert s.leaves[Frame(s.view[p].entry)] == p;
    }
  }

  /** The frames that mapping the pages `ps` takes, when they need the tables `ks`. */
  ghost function FramesIn(s: Snapshot, ps: set<Page>, ks: set<Key>): nat {
    |ps - Pages(s)| + |ks - Keys(s.tables)|
  }

  /** The pages `ps` and the tables `ks` are there, and took as many frames as were missing. */
  ghost predicate Paid(s: Snapshot, s': Snapshot, ps: set<Page>, ks: set<Key>) {
    Whole(PaidParts(s, s', ps, ks))
  }

  ghost predicate PaidParts(s: Snapshot, s': Snapshot, ps: set<Page>, ks: set<Key>) {
    && Pages(s') == Pages(s) + ps && Keys(s'.tables) == Keys(s.tables) + ks
    && |s'.free| + FramesIn(s, ps, ks) == |s.free|
  }

  /** There are too few free frames. */
  ghost predicate Unpaid(s: Snapshot, ps: set<Page>, ks: set<Key>) {
    Whole(UnpaidParts(s, ps, ks))
  }

  ghost predicate UnpaidParts(s: Snapshot, ps: set<Page>, ks: set<Key>) {
    |s.free| < FramesIn(s, ps, ks)
  }

  lemma PaidNone(s: Snapshot)
    ensures Paid(s, s, {}, {})
  {
    hide Pages, Keys;
    assert {} - Pages(s) == {} && {} - Keys(s.tables) == {};
  }

  lemma MissingTwice(have: set<Page>, ps: set<Page>, qs: set<Page>)
    ensures |(ps + qs) - have| == |ps - have| + |qs - (have + ps)|
  {
    assert (ps + qs) - have == (ps - have) + (qs - (have + ps));
  }

  lemma PaidTwice(s: Snapshot, s1: Snapshot, s2: Snapshot, ps: set<Page>, ks: set<Key>, qs: set<Page>, ls: set<Key>)
    requires Paid(s, s1, ps, ks) && Paid(s1, s2, qs, ls)
    ensures Paid(s, s2, ps + qs, ks + ls)
  {
    hide Pages, Keys;
    MissingTwice(Pages(s), ps, qs);
    LackingTwice(Keys(s.tables), ks, ls);
  }

  lemma UnpaidLater(s: Snapshot, s1: Snapshot, ps: set<Page>, ks: set<Key>, qs: set<Page>, ls: set<Key>)
    requires Paid(s, s1, ps, ks) && Unpaid(s1, qs, ls)
    ensures Unpaid(s, ps + qs, ks + ls)
  {
    hide Pages, Keys;
    MissingTwice(Pages(s), ps, qs);
    LackingTwice(Keys(s.tables), ks, ls);
  }

  lemma UnpaidMore(s: Snapshot, ps: set<Page>, ks: set<Key>, qs: set<Page>, ls: set<Key>)
    requires Unpaid(s, ps, ks) && ps <= qs && ks <= ls
    ensures Unpaid(s, qs, ls)
  {
    hide Pages, Keys;
    SubsetCount(ks - Keys(s.tables), ls - Keys(s.tables));
    assert qs - Pages(s) == (ps - Pages(s)) + ((qs - ps) - Pages(s));
  }

  lemma PaidIsEnough(s: Snapshot, s': Snapshot, ps: set<Page>, ks: set<Key>)
    requires Paid(s, s', ps, ks)
    ensures !Unpaid(s, ps, ks)
  {
    hide Pages, Keys;
  }

  // ---------- one page ----------

  lemma AddedPage(s: Snapshot, s': Snapshot, p: Page, f: nat)
    requires f !in s.leaves && s'.leaves == s.leaves[f := p]
    ensures Pages(s') == Pages(s) + {p}
  {
    forall q ensures q in Pages(s') <==> q in Pages(s) + {p} {
      if q in Pages(s) {
        var d :| d in s.leaves && s.leaves[d] == q;
        assert s'.leaves[d] == q;
      }
      if q == p { assert s'.leaves[f] == p; }
    }
  }

  /** Page `p`, which had no frame, got frame `f` and its tables. */
  lemma PageAdded(s: Snapshot, s': Snapshot, p: Page, f: nat)
    requires Partitioned(s) && p in s.view && s.view[p].Unmapped? && f in s.free && f !in s.leaves
    requires s'.leaves == s.leaves[f := p] && Made(s.tables, s.free - {f}, s'.tables, s'.free, Prefixes(p))
    ensures Paid(s, s', {p}, Prefixes(p))
  {
    hide Pages, Keys, Prefixes, Partitioned;
    AddedPage(s, s', p, f);
    PageMapped(s, p);
    assert {p} - Pages(s) == {p};
  }

  lemma PageNotAdded(s: Snapshot, p: Page, f: nat)
    requires Partitioned(s) && p in s.view && s.view[p].Unmapped? && f in s.free
    requires Short(s.tables, s.free - {f}, Prefixes(p))
    ensures Unpaid(s, {p}, Prefixes(p))
  {
    hide Pages, Keys, Prefixes, Partitioned;
    PageMapped(s, p);
    assert {p} - Pages(s) == {p};
  }

  lemma NoFrame(s: Snapshot, p: Page)
    requires Partitioned(s) && p in s.view && s.view[p].Unmapped? && s.free == {}
    ensures Unpaid(s, {p}, Prefixes(p))
  {
    PageMapped(s, p);
    hide Pages, Keys, Prefixes, Partitioned;
    assert {p} - Pages(s) == {p};
  }

  lemma ClearedFree(s: Snapshot, s1: Snapshot, p: Page)
    requires Partitioned(s) && Partitioned(s1) && PageCleared(s, s1, p) && s1.tables == s.tables
    ensures if s.view[p].Small? then Frame(s.view[p].entry) !in s.free && s1.free == s.free + {Frame(s.view[p].entry)}
            else s1.free == s.free
  {
    if s.view[p].Small? { LeafRecorded(s.view, s.leaves, p); }
    assert Pool(s1) == Pool(s);
    assert s1.free !! s1.leaves.Keys && s1.free !! s1.tables.Keys && s.free !! s.leaves.Keys && s.free !! s.tables.Keys
      by { hide Pool, PageCleared; }
    hide Partitioned, PageCleared;
  }

  lemma ClearedView(s: Snapshot, s1: Snapshot, p: Page, q: Page)
    requires Partitioned(s) && Partitioned(s1) && PageCleared(s, s1, p)
    ensures s1.view[q].Small? <==> s.view[q].Small? && q != p
  {
    hide Pool;
    assert q in s.view && q in s1.view;
  }

  lemma ClearedPages(s: Snapshot, s1: Snapshot, p: Page)
    requires Partitioned(s) && Partitioned(s1) && PageCleared(s, s1, p)
    ensures Pages(s1) == Pages(s) - {p}
  {
    hide Partitioned, PageCleared, Pages;
    forall q ensures q in Pages(s1) <==> q in Pages(s) - {p} {
      PageMapped(s, q);
      PageMapped(s1, q);
      AllShown(s, s1, q);
      ClearedView(s, s1, p, q);
    }
  }

  /** Clearing page `p` first gives its frame back, if it had one. */
  lemma ClearedCount(s: Snapshot, s1: Snapshot, p: Page)
    requires Partitioned(s) && Partitioned(s1) && PageCleared(s, s1, p) && s1.tables == s.tables
    ensures Pages(s1) == Pages(s) - {p}
    ensures |s1.free| == |s.free| + if p in Pages(s) then 1 else 0
  {
    hide Partitioned, PageCleared, Pages;
    ClearedPages(s, s1, p);
    AllShown(s, s1, p);
    PageMapped(s, p);
    ClearedFree(s, s1, p);
  }

  lemma AllShown(s: Snapshot, s1: Snapshot, q: Page)
    requires Partitioned(s) && Partitioned(s1)
    ensures q in s.view && q in s1.view
  {
  }

  lemma ClearThenPaid(s: Snapshot, s1: Snapshot, s2: Snapshot, p: Page)
    requires Partitioned(s) && Partitioned(s1) && PageCleared(s, s1, p) && s1.tables == s.tables
    ensures Paid(s1, s2, {p}, Prefixes(p)) ==> Paid(s, s2, {p}, Prefixes(p))
    ensures Unpaid(s1, {p}, Prefixes(p)) ==> Unpaid(s, {p}, Prefixes(p))
  {
    hide Pages, Keys, Prefixes, Partitioned, PageCleared;
    ClearedCount(s, s1, p);
    RefilledCount(s, s1, s2, p);
  }

  lemma RefilledCount(s: Snapshot, s1: Snapshot, s2: Snapshot, p: Page)
    requires Pages(s1) == Pages(s) - {p} && s1.tables == s.tables
    requires |s1.free| == |s.free| + if p in Pages(s) then 1 else 0
    ensures Paid(s1, s2, {p}, Prefixes(p)) ==> Paid(s, s2, {p}, Prefixes(p))
    ensures Unpaid(s1, {p}, Prefixes(p)) ==> Unpaid(s, {p}, Prefixes(p))
  {
    hide Pages, Keys, Prefixes;
    assert {p} - Pages(s1) == {p};
    assert {p} - Pages(s) == if p in Pages(s) then {} else {p};
    assert Pages(s1) + {p} == Pages(s) + {p};
  }

  // ---------- ranges ----------

  /** The pages numbered `lo` up to `hi`. */
  ghost function PagesFor(lo: nat, hi: nat): set<Page> {
    if hi <= lo then {} else PagesFor(lo, hi - 1) + {PageOf(4096 * (hi - 1))}
  }

  /** The names of the tables below the root that the pages `lo` up to `hi` need. */
  ghost function TablesFor(lo: nat, hi: nat): set<Key> {
    if hi <= lo then {} else TablesFor(lo, hi - 1) + Prefixes(PageOf(4096 * (hi - 1)))
  }

  /** One frame for every page and one for every table that is missing. */
  ghost function FramesFor(tb: map<nat, Place>, lo: nat, hi: nat): nat
    requires lo <= hi
  {
    hi - lo + |TablesFor(lo, hi) - Keys(tb)|
  }

  lemma RangeStep(lo: nat, n: nat)
    requires lo <= n
    ensures PagesFor(lo, n + 1) == PagesFor(lo, n) + {PageOf(4096 * n)}
    ensures TablesFor(lo, n + 1) == TablesFor(lo, n) + Prefixes(PageOf(4096 * n))
  {
  }

  lemma {:induction false} RangeMore(lo: nat, n: nat, hi: nat)
    requires lo <= n <= hi
    ensures PagesFor(lo, n) <= PagesFor(lo, hi) && TablesFor(lo, n) <= TablesFor(lo, hi)
    decreases hi
  {
    hide PageOf, Prefixes;
    if n < hi { RangeMore(lo, n, hi - 1); }
  }

  lemma {:induction false} PagesForAre(lo: nat, hi: nat)
    requires lo <= hi <= PAGE_LIMIT
    ensures |PagesFor(lo, hi)| == hi - lo
    ensures forall p :: p in PagesFor(lo, hi) <==> InRange(p, lo, hi)
    decreases hi
  {
    hide PageOf;
    if lo < hi {
      PagesForAre(lo, hi - 1);
      NumOfNumber(hi - 1);
      RangeSnoc(lo, hi - 1, PageOf(4096 * (hi - 1)));
    }
  }

  /** A range without mapped pages takes a frame for each of them. */
  lemma UnmappedFrames(s: Snapshot, lo: nat, hi: nat)
    requires Partitioned(s) && lo <= hi <= PAGE_LIMIT
    requires forall p :: InRange(p, lo, hi) && p in s.view ==> s.view[p].Unmapped?
    ensures FramesIn(s, PagesFor(lo, hi), TablesFor(lo, hi)) == FramesFor(s.tables, lo, hi)
    ensures Unpaid(s, PagesFor(lo, hi), TablesFor(lo, hi)) <==> |s.free| < FramesFor(s.tables, lo, hi)
  {
    PagesForAre(lo, hi);
    forall p | p in PagesFor(lo, hi) ensures p !in Pages(s) { PageMapped(s, p); }
    hide Pages, Keys, PagesFor, TablesFor;
    assert PagesFor(lo, hi) - Pages(s) == PagesFor(lo, hi);
  }
}
