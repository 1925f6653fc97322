/** The file that `read_file` of arch/x86_64/user_mode.c leaves in a heap buffer: storing it there, and reading
    headers and segments from there, through the page tables. */
module FileBuffer {
  import opened Utils
  import opened Options
  import opened Sequences
  import opened PageTables
  import opened TableEffects
  import opened PageRanges
  import opened Vmm
  import opened UserRanges
  import opened UserMemory
  import opened UserImage
  import opened HeapBlocks
  import opened HeapBytes

  /** The bytes from `ptr` on, in the heap, are those of the file. */
  ghost predicate Buffer(s: Snapshot, ptr: nat, file: seq<nat>) {
    Whole(BufferParts(s, ptr, file))
  }

  ghost predicate BufferParts(s: Snapshot, ptr: nat, file: seq<nat>) {
    && HEAP_START <= ptr && ptr + |file| <= HEAP_MAX_END && Bytes(file)
    && forall a: nat {:trigger VaByte(s, a)} :: ptr <= a < ptr + |file| ==> VaByte(s, a) == Some(file[a - ptr])
  }

  lemma BufferByte(s: Snapshot, ptr: nat, file: seq<nat>, k: nat)
    requires Buffer(s, ptr, file) && k < |file|
    ensures VaByte(s, ptr + k) == Some(file[k]) && HEAP_START <= ptr && ptr + |file| <= HEAP_MAX_END
  {
    hide VaByte;
    assert VaByte(s, ptr + k) == VaByte(s, ptr + k);
  }

  /** The pages numbered `lo` up to `hi` are not heap pages. */
  predicate ClearOfHeap(lo: nat, hi: nat) {
    hi <= HEAP_LO || HEAP_HI <= lo
  }

  /** The buffer survives work on pages that are no heap pages. */
  lemma BufferKept(s: Snapshot, s': Snapshot, ptr: nat, file: seq<nat>, lo: nat, hi: nat)
    requires Buffer(s, ptr, file) && BytesKept(s, s', lo, hi) && ClearOfHeap(lo, hi)
    ensures Buffer(s', ptr, file)
  {
    forall a: nat | ptr <= a < ptr + |file| ensures VaByte(s', a) == Some(file[a - ptr]) {
      HeapPageOf(a);
      assert VaByte(s, a) == Some(file[a - ptr]);
      assert VaByte(s', a) == VaByte(s', a);
      assert ByteKept(s, s', a);
    }
  }

  lemma HeapPageOf(a: nat)
    requires HEAP_START <= a < HEAP_MAX_END
    ensures HEAP_LO <= a / 4096 < HEAP_HI && a < VA_LIMIT
  {
  }

  /** A part of the buffer can be copied to pages that are no heap pages. */
  lemma BufferSource(s: Snapshot, ptr: nat, file: seq<nat>, off: nat, n: nat, lo: nat, hi: nat)
    requires Buffer(s, ptr, file) && off + n <= |file| && ClearOfHeap(lo, hi)
    ensures Source(s, ptr + off, file[off..off + n], lo, hi)
  {
    hide VaByte;
    var bytes := file[off..off + n];
    forall k: nat | k < |bytes| ensures bytes[k] < 256 && SourceAt(s, ptr + off + k, bytes[k], lo, hi) {
      BufferByte(s, ptr, file, off + k);
      HeapPageOf(ptr + off + k);
    }
  }

  // ---------- filling the buffer ----------

  /** The state after `vfs_read` has stored the file at `ptr`. */
  ghost predicate Filled(s: Snapshot, s': Snapshot, ptr: nat, file: seq<nat>, k: nat) {
    OnlyDataIn(s, s', HEAP_LO, HEAP_HI) && Copied(s, s', ptr, file, k)
  }

  /** Every byte of the buffer has a page. */
  ghost predicate Mapped(s: Snapshot, ptr: nat, n: nat) {
    forall a: nat {:trigger VaByte(s, a)} :: ptr <= a < ptr + n ==> VaByte(s, a).Some?
  }

  lemma NothingFilled(s: Snapshot, ptr: nat, file: seq<nat>)
    ensures Filled(s, s, ptr, file, 0)
  {
    CopiedNone(s, ptr, file, HEAP_LO, HEAP_HI);
  }

  lemma FilledBuffer(s: Snapshot, s': Snapshot, ptr: nat, file: seq<nat>)
    requires Filled(s, s', ptr, file, |file|) && Bytes(file) && HEAP_START <= ptr && ptr + |file| <= HEAP_MAX_END
    ensures Buffer(s', ptr, file)
  {
    forall a: nat | ptr <= a < ptr + |file| ensures VaByte(s', a) == Some(file[a - ptr]) {
      HeapPageOf(a);
    }
  }

  lemma FilledStep(s: Snapshot, s1: Snapshot, s2: Snapshot, ptr: nat, file: seq<nat>, k: nat)
    requires Filled(s, s1, ptr, file, k) && k < |file| && ptr + k < VA_LIMIT && OnlyDataIn(s1, s2, HEAP_LO, HEAP_HI)
    requires forall a {:trigger VaByte(s2, a)} :: 0 <= a < VA_LIMIT ==>
               VaByte(s2, a) == if a == ptr + k then Some(file[k]) else VaByte(s1, a)
    ensures Filled(s, s2, ptr, file, k + 1)
  {
    hide VaByte, Whole;
    CopyStep(s, s1, s2, ptr, file, k);
    OnlyDataTrans(s, s1, s2, HEAP_LO, HEAP_HI);
  }

  lemma NextByte(s: Snapshot, s1: Snapshot, ptr: nat, file: seq<nat>, k: nat)
    requires Filled(s, s1, ptr, file, k) && k < |file| && ptr + k < VA_LIMIT
    ensures VaByte(s1, ptr + k) == VaByte(s, ptr + k)
  {
    hide VaByte;
    assert VaByte(s1, ptr + k) == VaByte(s1, ptr + k);
  }

  /** Stores the file at `ptr`. A byte without a page stops it: the processor faults, and the kernel halts. */
  method FillBuffer(vm: AddressSpace, ptr: nat, file: seq<nat>) returns (faulted: bool, ghost k: nat)
    requires vm.Owned() && Bytes(file) && HEAP_START <= ptr && ptr + |file| <= HEAP_MAX_END
    modifies vm`mem
    ensures vm.Owned() && k <= |file| && Filled(old(vm.Snap()), vm.Snap(), ptr, file, k)
    ensures !faulted ==> k == |file| && Buffer(vm.Snap(), ptr, file)
    ensures faulted <==> !Mapped(old(vm.Snap()), ptr, |file|)
    ensures faulted ==> k < |file| && VaByte(old(vm.Snap()), ptr + k).None? && Mapped(old(vm.Snap()), ptr, k)
  {
    hide Whole, PageOf, VaByte, Filled;
    ghost var s := vm.Snap();
    NothingFilled(s, ptr, file);
    var i: nat := 0;
    while i < |file|
      invariant i <= |file| && vm.Owned() && Filled(s, vm.Snap(), ptr, file, i) && Mapped(s, ptr, i)
    {
      ghost var s1 := vm.Snap();
      HeapPageOf(ptr + i);
      NextByte(s, s1, ptr, file, i);
      var mapped := vm.IsSmall(ptr + i);
      MappedByte(s1, ptr + i);
      if !mapped {
        assert VaByte(s, ptr + i).None?;
        return true, i;
      }
      StoreByte(vm, ptr + i, file[i], HEAP_LO, HEAP_HI);
      FilledStep(s, s1, vm.Snap(), ptr, file, i);
      i := i + 1;
    }
    FilledBuffer(s, vm.Snap(), ptr, file);
    return false, i;
  }

  // ---------- reading from the buffer ----------

  /** The little-endian number at offset `off` of the buffer. */
  method ReadLe(vm: AddressSpace, ptr: nat, off: nat, n: nat, ghost file: seq<nat>) returns (v: nat)
    requires vm.Owned() && Buffer(vm.Snap(), ptr, file) && off + n <= |file|
    ensures v == Le(file, off, n)
  {
    hide Whole, VaByte;
    v := 0;
    var k: nat := n;
    while k > 0
      invariant k <= n && v == Le(file, off + k, n - k)
    {
      k := k - 1;
      BufferByte(vm.Snap(), ptr, file, off + k);
      var b := LoadByte(vm, ptr + off + k);
      v := b + 256 * v;
    }
  }

  method ReadAt(vm: AddressSpace, ptr: nat, off: nat, ghost file: seq<nat>) returns (b: nat)
    requires vm.Owned() && Buffer(vm.Snap(), ptr, file) && off < |file|
    ensures b == file[off]
  {
    hide Whole, VaByte;
    BufferByte(vm.Snap(), ptr, file, off);
    b := LoadByte(vm, ptr + off);
  }

  /** The identification bytes. */
  method ReadIdent(vm: AddressSpace, ptr: nat, ghost file: seq<nat>) returns (ok: bool)
    requires vm.Owned() && Buffer(vm.Snap(), ptr, file) && |file| >= 64
    ensures ok == (&& file[0] == 0x7F && file[1] == 0x45 && file[2] == 0x4C && file[3] == 0x46
                   && file[4] == 2 && file[5] == 1 && file[6] == 1)
  {
    hide Whole, VaByte;
    var want := [0x7F, 0x45, 0x4C, 0x46, 2, 1, 1];
    var k := 0;
    while k < 7
      invariant k <= 7 && forall j :: 0 <= j < k ==> file[j] == want[j]
    {
      var b := ReadAt(vm, ptr, k, file);
      if b != want[k] { return false; }
      k := k + 1;
    }
    assert file[0] == want[0] && file[1] == want[1] && file[2] == want[2] && file[3] == want[3];
    assert file[4] == want[4] && file[5] == want[5] && file[6] == want[6];
    return true;
  }

  /** `validate_elf` on the buffer. */
  method Validate(vm: AddressSpace, ptr: nat, size: nat, ghost file: seq<nat>) returns (ok: bool)
    requires vm.Owned() && Buffer(vm.Snap(), ptr, file) && size == |file|
    ensures ok == ValidElf(file)
  {
    hide Whole, VaByte, Le;
    if size < 64 { return false; }
    ok := ReadIdent(vm, ptr, file);
    if !ok { return false; }
    var kind := ReadLe(vm, ptr, 16, 2, file);
    var machine := ReadLe(vm, ptr, 18, 2, file);
    var version := ReadLe(vm, ptr, 20, 4, file);
    if kind != 2 || machine != 62 || version != 1 { return false; }
    var entrySize := ReadLe(vm, ptr, 54, 2, file);
    var phnum := ReadLe(vm, ptr, 56, 2, file);
    if entrySize != 56 || phnum == 0 { return false; }
    var phoff := ReadLe(vm, ptr, 32, 8, file);
    ok := FileRangeOk(phoff, 56 * phnum, size);
  }

  /** Program header `i`, as it stands in the buffer. */
  method ReadPhdr(vm: AddressSpace, ptr: nat, i: nat, ghost file: seq<nat>) returns (ph: Phdr)
    requires vm.Owned() && Buffer(vm.Snap(), ptr, file) && ValidElf(file) && i < PhNum(file)
    ensures ph == PhdrAt(file, i)
  {
    HeaderInside(file, i);
    hide Whole, VaByte, Le;
    var phoff := ReadLe(vm, ptr, 32, 8, file);
    var at := phoff + 56 * i;
    var kind := ReadLe(vm, ptr, at, 4, file);
    var offset := ReadLe(vm, ptr, at + 8, 8, file);
    var vaddr := ReadLe(vm, ptr, at + 16, 8, file);
    var filesz := ReadLe(vm, ptr, at + 32, 8, file);
    var memsz := ReadLe(vm, ptr, at + 40, 8, file);
    ph := Phdr(kind, offset, vaddr, filesz, memsz);
  }
}
