/** Bytes as user code reads them: virtual addresses through the page tables, and copying into them. */
module UserMemory {
  import opened Utils
  import opened Options
  import opened Entries
  import opened PageTables
  import opened TableEffects
  import opened ByteMemory
  import opened PageRanges
  import opened Pmm
  import opened Vmm

  /** The byte at virtual address `a`, when a 4 KiB page is mapped there. */
  ghost function VaByte(s: Snapshot, a: nat): Option<nat> {
    if PageOf(a) in s.view && s.view[PageOf(a)].Small?
    then Some(ReadByte(s.mem, Frame(s.view[PageOf(a)].entry), a % 4096))
    else None
  }

  /** Only the contents of memory changed, and only in frames of the pages `lo` up to `hi`. */
  ghost predicate OnlyDataIn(s: Snapshot, s': Snapshot, lo: nat, hi: nat) {
    Whole(OnlyDataInParts(s, s', lo, hi))
  }

  ghost predicate OnlyDataInParts(s: Snapshot, s': Snapshot, lo: nat, hi: nat) {
    && s' == s.(mem := s'.mem) && |s'.mem| == |s.mem|
    && (forall d :: d in s.leaves && d < |s.mem| && !InRange(s.leaves[d], lo, hi) ==> s'.mem[d] == s.mem[d])
  }

  /** The first `k` of `bytes` were stored at `va`; every other address reads as before. */
  ghost predicate Copied(s: Snapshot, s': Snapshot, va: nat, bytes: seq<nat>, k: nat) {
    Whole(CopiedParts(s, s', va, bytes, k))
  }

  ghost predicate CopiedParts(s: Snapshot, s': Snapshot, va: nat, bytes: seq<nat>, k: nat) {
    k <= |bytes| &&
    forall a {:trigger VaByte(s', a)} :: 0 <= a < VA_LIMIT ==>
      VaByte(s', a) == if va <= a < va + k then Some(bytes[a - va]) else VaByte(s, a)
  }

  /** Different pages have different frames. */
  lemma FramesDiffer(s: Snapshot, p: Page, q: Page)
    requires Partitioned(s) && p in s.view && q in s.view && s.view[p].Small? && s.view[q].Small?
    requires Frame(s.view[p].entry) == Frame(s.view[q].entry)
    ensures p == q
  {
  }

  lemma StoreEffect(s: Snapshot, m': Mem, f: nat, va: nat, b: nat, a: nat)
    requires Partitioned(s) && va < VA_LIMIT && a < VA_LIMIT && b < 256
    requires s.view[PageOf(va)].Small? && f == Frame(s.view[PageOf(va)].entry)
    requires f < |s.mem| && |s.mem[f]| == ENTRIES && m' == WriteByte(s.mem, f, va % 4096, b)
    ensures VaByte(s.(mem := m'), a) == if a == va then Some(b) else VaByte(s, a)
  {
    if PageOf(a) in s.view && s.view[PageOf(a)].Small? {
      var g := Frame(s.view[PageOf(a)].entry);
      ReadWrite(s.mem, f, va % 4096, b, g, a % 4096);
      if g == f && a % 4096 == va % 4096 {
        FramesDiffer(s, PageOf(a), PageOf(va));
        SamePage(a, va);
        assert a == 4096 * (a / 4096) + a % 4096;
      }
    }
  }

  lemma StoreKeeps(s: Snapshot, m': Mem, f: nat, va: nat, b: nat, lo: nat, hi: nat)
    requires Partitioned(s) && va < VA_LIMIT && lo <= va / 4096 < hi
    requires s.view[PageOf(va)].Small? && f == Frame(s.view[PageOf(va)].entry)
    requires f < |s.mem| && |s.mem[f]| == ENTRIES && m' == WriteByte(s.mem, f, va % 4096, b)
    ensures OnlyDataIn(s, s.(mem := m'), lo, hi)
  {
    NumOfPageOf(va);
    OtherLeaves(s.view, s.leaves, PageOf(va));
  }

  lemma CopyStep(s: Snapshot, s1: Snapshot, s2: Snapshot, va: nat, bytes: seq<nat>, k: nat)
    requires Copied(s, s1, va, bytes, k) && k < |bytes| && va + k < VA_LIMIT
    requires forall a {:trigger VaByte(s2, a)} :: 0 <= a < VA_LIMIT ==>
               VaByte(s2, a) == if a == va + k then Some(bytes[k]) else VaByte(s1, a)
    ensures Copied(s, s2, va, bytes, k + 1)
  {
  }

  lemma OnlyDataTrans(s: Snapshot, s1: Snapshot, s2: Snapshot, lo: nat, hi: nat)
    requires OnlyDataIn(s, s1, lo, hi) && OnlyDataIn(s1, s2, lo, hi)
    ensures OnlyDataIn(s, s2, lo, hi)
  {
  }

  lemma CopiedNone(s: Snapshot, va: nat, bytes: seq<nat>, lo: nat, hi: nat)
    ensures Copied(s, s, va, bytes, 0) && OnlyDataIn(s, s, lo, hi)
  {
  }

  /** A store through the page tables. */
  method StoreByte(vm: AddressSpace, va: nat, b: nat, ghost lo: nat, ghost hi: nat)
    requires vm.Owned() && va < VA_LIMIT && b < 256 && lo <= va / 4096 < hi
    requires PageOf(va) in vm.view && vm.view[PageOf(va)].Small?
    modifies vm`mem
    ensures vm.Owned() && OnlyDataIn(old(vm.Snap()), vm.Snap(), lo, hi)
    ensures forall a {:trigger VaByte(vm.Snap(), a)} :: 0 <= a < VA_LIMIT ==>
              VaByte(vm.Snap(), a) == if a == va then Some(b) else VaByte(old(vm.Snap()), a)
  {
    hide Tree, Shows, LeavesOk, LeavesApart, Apart, Partitioned;
    vm.SnapPartitioned();
    LeafRecorded(vm.view, vm.leaves, PageOf(va));
    var phys := vm.GetMapping(va);
    var f := phys / 4096;
    ghost var s := vm.Snap();
    LeafFrame(s, PageOf(va));
    var o := va % 4096;
    vm.WriteWord(f, o / 8, WithByte(vm.mem[f][o / 8], o % 8, b));
    StoreKeeps(s, vm.mem, f, va, b, lo, hi);
    forall a: nat | a < VA_LIMIT
      ensures VaByte(vm.Snap(), a) == if a == va then Some(b) else VaByte(s, a)
    {
      StoreEffect(s, vm.mem, f, va, b, a);
    }
  }

  lemma LeafFrame(s: Snapshot, p: Page)
    requires Partitioned(s) && p in s.view && s.view[p].Small?
    ensures Frame(s.view[p].entry) < |s.mem| && Frame(s.view[p].entry) !in s.tables
  {
  }

  /** The bytes [va, va + n) lie on mapped 4 KiB pages among those numbered `lo` up to `hi`. */
  ghost predicate Writable(s: Snapshot, va: nat, n: nat, lo: nat, hi: nat) {
    va + n <= VA_LIMIT &&
    forall a {:trigger PageOf(a)} :: va <= a < va + n ==>
      lo <= a / 4096 < hi && PageOf(a) in s.view && s.view[PageOf(a)].Small?
  }

  lemma StillWritable(s: Snapshot, s': Snapshot, va: nat, n: nat, lo: nat, hi: nat)
    requires Writable(s, va, n, lo, hi) && s'.view == s.view
    ensures Writable(s', va, n, lo, hi)
  {
    forall a | va <= a < va + n
      ensures lo <= a / 4096 < hi && PageOf(a) in s'.view && s'.view[PageOf(a)].Small?
    {
      assert PageOf(a) in s.view;
    }
  }

  lemma OnlyDataView(s: Snapshot, s': Snapshot, lo: nat, hi: nat)
    requires OnlyDataIn(s, s', lo, hi)
    ensures s'.view == s.view
  {
  }

  /** A load through the page tables. */
  method LoadByte(vm: AddressSpace, va: nat) returns (b: nat)
    requires vm.Owned() && VaByte(vm.Snap(), va).Some?
    ensures VaByte(vm.Snap(), va) == Some(b)
  {
    hide Tree, Shows, LeavesOk, LeavesApart, Apart, Partitioned, ByteOf, PageOf;
    vm.SnapPartitioned();
    LeafFrame(vm.Snap(), PageOf(va));
    var phys := vm.GetMapping(va);
    b := ReadByte(vm.mem, phys / 4096, va % 4096);
  }

  /** The bytes from `src` on are `bytes`, and lie on pages other than those numbered `lo` up to `hi`. */
  ghost predicate Source(s: Snapshot, src: nat, bytes: seq<nat>, lo: nat, hi: nat) {
    Whole(SourceParts(s, src, bytes, lo, hi))
  }

  ghost predicate SourceParts(s: Snapshot, src: nat, bytes: seq<nat>, lo: nat, hi: nat) {
    src + |bytes| <= VA_LIMIT &&
    forall k: nat :: k < |bytes| ==> bytes[k] < 256 && SourceAt(s, src + k, bytes[k], lo, hi)
  }

  ghost predicate SourceAt(s: Snapshot, a: nat, b: nat, lo: nat, hi: nat) {
    VaByte(s, a) == Some(b) && !(lo <= a / 4096 < hi)
  }

  /** What is copied does not change under the copy. */
  lemma SourceByte(s: Snapshot, s1: Snapshot, va: nat, src: nat, bytes: seq<nat>, k: nat, lo: nat, hi: nat)
    requires Source(s, src, bytes, lo, hi) && k < |bytes| && Copied(s, s1, va, bytes, k)
    requires Writable(s1, va, |bytes|, lo, hi)
    ensures bytes[k] < 256 && VaByte(s1, src + k) == Some(bytes[k])
  {
    hide VaByte;
    assert SourceAt(s, src + k, bytes[k], lo, hi);
    var a := src + k;
    assert PageOf(a) == PageOf(a);
    assert VaByte(s1, a) == VaByte(s1, a);
  }

  /** `mem_copy` from mapped pages to other mapped pages. */
  method CopyBytes(vm: AddressSpace, va: nat, src: nat, n: nat, ghost bytes: seq<nat>, ghost lo: nat, ghost hi: nat)
    requires vm.Owned() && Writable(vm.Snap(), va, n, lo, hi) && |bytes| == n && Source(vm.Snap(), src, bytes, lo, hi)
    modifies vm`mem
    ensures vm.Owned() && OnlyDataIn(old(vm.Snap()), vm.Snap(), lo, hi)
    ensures Copied(old(vm.Snap()), vm.Snap(), va, bytes, n)
  {
    hide Whole, PageOf, VaByte;
    ghost var s := vm.Snap();
    CopiedNone(s, va, bytes, lo, hi);
    var k := 0;
    while k < n
      invariant k <= n && vm.Owned()
      invariant Writable(vm.Snap(), va, n, lo, hi)
      invariant OnlyDataIn(s, vm.Snap(), lo, hi) && Copied(s, vm.Snap(), va, bytes, k)
    {
      ghost var s1 := vm.Snap();
      SourceByte(s, s1, va, src, bytes, k, lo, hi);
      assert PageOf(va + k) in s1.view;
      var b := LoadByte(vm, src + k);
      StoreByte(vm, va + k, b, lo, hi);
      CopyStep(s, s1, vm.Snap(), va, bytes, k);
      OnlyDataTrans(s, s1, vm.Snap(), lo, hi);
      OnlyDataView(s1, vm.Snap(), lo, hi);
      StillWritable(s1, vm.Snap(), va, n, lo, hi);
      k := k + 1;
    }
  }
}
