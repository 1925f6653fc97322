/** The pages a user program may occupy, and everything else: no step of loading, running or unloading a
    program reaches beyond its own pages. */
module ImagePages {
  import opened Utils
  import opened Options
  import opened Entries
  import opened PageTables
  import opened TableEffects
  import opened PageRanges
  import opened UserRanges
  import opened UserMemory
  import opened HeapPages

  const STACK_LO: nat := 0x6FFFC
  const STACK_HI: nat := 0x70000

  /** The pages numbered `lo` up to `hi` and those of the user stack. */
  predicate InImage(p: Page, lo: nat, hi: nat) {
    InRange(p, lo, hi) || InRange(p, STACK_LO, STACK_HI)
  }

  predicate Inside(a: nat, b: nat, lo: nat, hi: nat) {
    (lo <= a && b <= hi) || (STACK_LO <= a && b <= STACK_HI)
  }

  /** Only pages of the image changed, and no frame was lost or gained by the pool. */
  ghost predicate Confined(s: Snapshot, s': Snapshot, lo: nat, hi: nat) {
    && Conserves(s, s') && s'.total == s.total
    && ViewsConfined(s, s', lo, hi) && LeavesConfined(s, s', lo, hi)
  }

  ghost predicate ViewsConfined(s: Snapshot, s': Snapshot, lo: nat, hi: nat) {
    Whole(ViewsConfinedParts(s, s', lo, hi))
  }

  ghost predicate ViewsConfinedParts(s: Snapshot, s': Snapshot, lo: nat, hi: nat) {
    forall p :: p in s.view && p in s'.view ==>
      if InImage(p, lo, hi) then !s'.view[p].Large? else Untouched(s.view[p], s'.view[p])
  }

  ghost predicate LeavesConfined(s: Snapshot, s': Snapshot, lo: nat, hi: nat) {
    Whole(LeavesConfinedParts(s, s', lo, hi))
  }

  ghost predicate LeavesConfinedParts(s: Snapshot, s': Snapshot, lo: nat, hi: nat) {
    && |s'.mem| == |s.mem|
    && (forall d :: d in s'.leaves && !InImage(s'.leaves[d], lo, hi) ==>
                    d in s.leaves && s.leaves[d] == s'.leaves[d] && (d < |s.mem| ==> s'.mem[d] == s.mem[d]))
    && (forall d :: d in s.leaves && !InImage(s.leaves[d], lo, hi) ==> d in s'.leaves && s'.leaves[d] == s.leaves[d])
  }

  /** Image pages outside `a` up to `b`, and outside the stack if `stack`, are not mapped. */
  ghost predicate Idle(s: Snapshot, lo: nat, hi: nat, a: nat, b: nat, stack: bool) {
    Whole(IdleParts(s, lo, hi, a, b, stack))
  }

  ghost predicate IdleParts(s: Snapshot, lo: nat, hi: nat, a: nat, b: nat, stack: bool) {
    forall p :: p in s.view && InImage(p, lo, hi) && !InRange(p, a, b) && !(stack && InRange(p, STACK_LO, STACK_HI)) ==>
      s.view[p].Unmapped?
  }

  lemma ConfinedRefl(s: Snapshot, lo: nat, hi: nat)
    requires Idle(s, lo, hi, 0, 0, false)
    ensures Confined(s, s, lo, hi)
  {
  }

  lemma OutsideKeptLeaves(s: Snapshot, s1: Snapshot, s2: Snapshot, lo: nat, hi: nat, a: nat, b: nat)
    requires LeavesConfined(s, s1, lo, hi) && OutsideKept(s1, s2, a, b) && Inside(a, b, lo, hi)
    ensures LeavesConfined(s, s2, lo, hi)
  {
    forall p | InRange(p, a, b) ensures InImage(p, lo, hi) {}
  }

  lemma MapViews(s: Snapshot, s1: Snapshot, s2: Snapshot, lo: nat, hi: nat, a: nat, b: nat)
    requires Partitioned(s) && Partitioned(s1) && Partitioned(s2)
    requires ViewsConfined(s, s1, lo, hi) && RangeMapped(s1, s2, a, b) && Inside(a, b, lo, hi)
    ensures ViewsConfined(s, s2, lo, hi)
  {
    forall p | p in s.view && p in s2.view
      ensures if InImage(p, lo, hi) then !s2.view[p].Large? else Untouched(s.view[p], s2.view[p])
    {
      assert p in s1.view;
      if InRange(p, a, b) {
        assert FreshPage(s2, p);
      } else {
        assert Untouched(s1.view[p], s2.view[p]);
      }
    }
  }

  lemma ConfinedMap(s: Snapshot, s1: Snapshot, s2: Snapshot, lo: nat, hi: nat, a: nat, b: nat)
    requires Partitioned(s) && Partitioned(s1) && Partitioned(s2)
    requires Confined(s, s1, lo, hi) && RangeMapped(s1, s2, a, b) && Inside(a, b, lo, hi)
    ensures Confined(s, s2, lo, hi)
  {
    hide Partitioned, Pool;
    OutsideKeptLeaves(s, s1, s2, lo, hi, a, b);
    MapViews(s, s1, s2, lo, hi, a, b);
  }

  lemma ConfinedDrop(s: Snapshot, s1: Snapshot, s2: Snapshot, lo: nat, hi: nat, a: nat, b: nat)
    requires Partitioned(s) && Partitioned(s1) && Partitioned(s2)
    requires Confined(s, s1, lo, hi) && RangeDropped(s1, s2, a, b) && Inside(a, b, lo, hi)
    ensures Confined(s, s2, lo, hi)
  {
    hide Pool;
    OutsideKeptLeaves(s, s1, s2, lo, hi, a, b);
    forall p | p in s.view && p in s2.view
      ensures if InImage(p, lo, hi) then !s2.view[p].Large? else Untouched(s.view[p], s2.view[p])
    {
      assert p in s1.view;
    }
  }

  lemma ClearedIsDropped(s1: Snapshot, s2: Snapshot, a: nat, b: nat)
    requires RangeCleared(s1, s2, a, b)
    ensures RangeDropped(s1, s2, a, b)
  {
    hide Pool;
  }

  lemma ConfinedData(s: Snapshot, s1: Snapshot, s2: Snapshot, lo: nat, hi: nat, a: nat, b: nat)
    requires Confined(s, s1, lo, hi) && OnlyDataIn(s1, s2, a, b) && Inside(a, b, lo, hi)
    ensures Confined(s, s2, lo, hi)
  {
    forall p | InRange(p, a, b) ensures InImage(p, lo, hi) {}
  }

  lemma NoLargeInside(s: Snapshot, s1: Snapshot, lo: nat, hi: nat, a: nat, b: nat)
    requires Partitioned(s) && Confined(s, s1, lo, hi) && Inside(a, b, lo, hi)
    ensures NoLarge(s1, a, b)
  {
    forall p | InRange(p, a, b) && p in s1.view ensures !s1.view[p].Large? {
      assert p in s.view && InImage(p, lo, hi);
    }
  }

  // ---------- which image pages are mapped ----------

  lemma IdleMap(s1: Snapshot, s2: Snapshot, lo: nat, hi: nat, a: nat, b: nat, x: nat, y: nat, a': nat, b': nat,
                stack: bool)
    requires Partitioned(s1) && Idle(s1, lo, hi, a, b, false) && RangeMapped(s1, s2, x, y)
    requires forall p :: InRange(p, a, b) ==> InRange(p, a', b')
    requires forall p :: InRange(p, x, y) ==> InRange(p, a', b') || (stack && InRange(p, STACK_LO, STACK_HI))
    ensures Idle(s2, lo, hi, a', b', stack)
  {
    forall p | p in s2.view && InImage(p, lo, hi) && !InRange(p, a', b') && !(stack && InRange(p, STACK_LO, STACK_HI))
      ensures s2.view[p].Unmapped?
    {
      assert p in s1.view && !InRange(p, a, b) && !InRange(p, x, y);
      assert Untouched(s1.view[p], s2.view[p]);
    }
  }

  lemma IdleDrop(s1: Snapshot, s2: Snapshot, lo: nat, hi: nat, a: nat, b: nat, x: nat, y: nat, stack: bool)
    requires Partitioned(s1) && Idle(s1, lo, hi, a, b, stack) && RangeDropped(s1, s2, x, y)
    ensures Idle(s2, lo, hi, a, b, stack)
  {
  }

  lemma IdleSame(s1: Snapshot, s2: Snapshot, lo: nat, hi: nat, a: nat, b: nat, stack: bool)
    requires Idle(s1, lo, hi, a, b, stack) && s2.view == s1.view
    ensures Idle(s2, lo, hi, a, b, stack)
  {
  }

  lemma ClearedUnmapped(s: Snapshot, s1: Snapshot, s2: Snapshot, lo: nat, hi: nat, a: nat, b: nat, p: Page)
    requires Partitioned(s) && Partitioned(s1) && Partitioned(s2)
    requires Confined(s, s1, lo, hi) && RangeCleared(s1, s2, a, b)
    requires InImage(p, lo, hi) && InRange(p, a, b)
    ensures p in s2.view && s2.view[p].Unmapped?
  {
    assert p in s.view && p in s1.view && !s1.view[p].Large?;
  }

  /** Unmapping the stack. */
  lemma StackCleared(s: Snapshot, s1: Snapshot, s2: Snapshot, lo: nat, hi: nat, a: nat, b: nat)
    requires Partitioned(s) && Partitioned(s1) && Partitioned(s2)
    requires Confined(s, s1, lo, hi) && RangeCleared(s1, s2, STACK_LO, STACK_HI)
    requires Idle(s1, lo, hi, a, b, true)
    ensures Idle(s2, lo, hi, a, b, false)
  {
    forall p | p in s2.view && InImage(p, lo, hi) && !InRange(p, a, b)
      ensures s2.view[p].Unmapped?
    {
      if InRange(p, STACK_LO, STACK_HI) {
        ClearedUnmapped(s, s1, s2, lo, hi, STACK_LO, STACK_HI, p);
      } else {
        assert p in s1.view;
      }
    }
  }

  /** Unmapping the hull of the segments. */
  lemma HullCleared(s: Snapshot, s1: Snapshot, s2: Snapshot, lo: nat, hi: nat, a: nat, b: nat)
    requires Partitioned(s) && Partitioned(s1) && Partitioned(s2)
    requires Confined(s, s1, lo, hi) && RangeCleared(s1, s2, a, b)
    requires Idle(s1, lo, hi, a, b, false)
    ensures Idle(s2, lo, hi, 0, 0, false)
  {
    forall p | p in s2.view && InImage(p, lo, hi)
      ensures s2.view[p].Unmapped?
    {
      if InRange(p, a, b) {
        ClearedUnmapped(s, s1, s2, lo, hi, a, b, p);
      } else {
        assert p in s1.view;
      }
    }
  }

  /** A program whose pages are unmapped before and after has given back every frame but those of new
      tables. */
  lemma Restored(s: Snapshot, s': Snapshot, lo: nat, hi: nat)
    requires Partitioned(s) && Partitioned(s') && Confined(s, s', lo, hi)
    requires Idle(s, lo, hi, 0, 0, false) && Idle(s', lo, hi, 0, 0, false)
    ensures s'.leaves == s.leaves
    ensures s'.free == s.free - (s'.tables.Keys - s.tables.Keys)
  {
    LeavesRestored(s, s', lo, hi);
    assert s'.leaves == s.leaves;
    PoolRestored(s, s');
  }

  lemma LeavesRestored(s: Snapshot, s': Snapshot, lo: nat, hi: nat)
    requires Partitioned(s) && Partitioned(s') && LeavesConfined(s, s', lo, hi)
    requires Idle(s, lo, hi, 0, 0, false) && Idle(s', lo, hi, 0, 0, false)
    ensures forall d :: d in s'.leaves <==> d in s.leaves
    ensures forall d :: d in s'.leaves ==> s'.leaves[d] == s.leaves[d]
  {
    forall d | d in s'.leaves ensures d in s.leaves && s'.leaves[d] == s.leaves[d] {
      assert s'.leaves[d] in s'.view;
    }
    forall d | d in s.leaves ensures d in s'.leaves {
      assert s.leaves[d] in s.view;
    }
  }

  lemma PoolRestored(s: Snapshot, s': Snapshot)
    requires Partitioned(s) && Partitioned(s') && Conserves(s, s') && s'.leaves == s.leaves
    ensures s'.free == s.free - (s'.tables.Keys - s.tables.Keys)
  {
  }
}
