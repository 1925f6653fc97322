/** User programs: the ELF file, its segments, and what loading and unloading one does to the pages of the
    image and to all other pages (arch/x86_64/user_mode.c). */
module UserImage {
  import opened Utils
  import opened Sequences
  import opened Options
  import opened Entries
  import opened PageTables
  import opened TableEffects
  import opened ByteMemory
  import opened PageRanges
  import opened UserRanges
  import opened UserMemory

  // ---------- the file ----------

  /** The little-endian number in the `n` bytes of `file` from `off` on. */
  function Le(file: seq<nat>, off: nat, n: nat): nat
    requires off + n <= |file|
    decreases n
  {
    if n == 0 then 0 else file[off] + 256 * Le(file, off + 1, n - 1)
  }

  /** A number as `n` bytes, the low one first. */
  function LeBytes(v: nat, n: nat): (r: seq<nat>)
    ensures |r| == n && forall k :: 0 <= k < n ==> r[k] < 256
  {
    if n == 0 then [] else [v % 256] + LeBytes(v / 256, n - 1)
  }

  function Pow256(n: nat): nat {
    if n == 0 then 1 else 256 * Pow256(n - 1)
  }

  /** A number stored in a file is read back, wherever it is. */
  lemma {:induction false} LeRoundTrip(before: seq<nat>, v: nat, n: nat, after: seq<nat>)
    requires v < Pow256(n)
    ensures Le(before + LeBytes(v, n) + after, |before|, n) == v
    decreases n
  {
    if n > 0 {
      var rest := LeBytes(v / 256, n - 1);
      LeRoundTrip(before + [v % 256], v / 256, n - 1, after);
      assert before + LeBytes(v, n) + after == before + [v % 256] + rest + after;
    }
  }

  predicate FileRangeOk(offset: nat, size: nat, fileSize: nat) {
    offset <= fileSize && size <= fileSize - offset
  }

  /** `validate_elf`: a little-endian 64-bit executable for x86_64 whose program headers lie in the file. */
  predicate ValidElf(file: seq<nat>) {
    && |file| >= 64
    && file[0] == 0x7F && file[1] == 0x45 && file[2] == 0x4C && file[3] == 0x46
    && file[4] == 2 && file[5] == 1 && file[6] == 1
    && Le(file, 16, 2) == 2 && Le(file, 18, 2) == 62 && Le(file, 20, 4) == 1
    && Le(file, 54, 2) == 56 && Le(file, 56, 2) != 0
    && FileRangeOk(Le(file, 32, 8), 56 * Le(file, 56, 2), |file|)
  }

  lemma LeTwo(file: seq<nat>, off: nat)
    requires off + 2 <= |file|
    ensures Le(file, off, 2) == file[off] + 256 * file[off + 1]
  {
    assert Le(file, off + 2, 0) == 0;
  }

  lemma LeFour(file: seq<nat>, off: nat)
    requires off + 4 <= |file|
    ensures Le(file, off, 4) == file[off] + 256 * (file[off + 1] + 256 * Le(file, off + 2, 2))
  {
    assert Le(file, off + 1, 3) == file[off + 1] + 256 * Le(file, off + 2, 2);
  }

  lemma IdentIff(b: seq<nat>)
    requires |b| >= 64
    ensures b[..7] == [0x7F, 0x45, 0x4C, 0x46, 2, 1, 1] <==>
            && b[0] == 0x7F && b[1] == 0x45 && b[2] == 0x4C && b[3] == 0x46 && b[4] == 2 && b[5] == 1 && b[6] == 1
  {
    var ident := b[..7];
    assert ident[0] == b[0] && ident[1] == b[1] && ident[2] == b[2] && ident[3] == b[3];
    assert ident[4] == b[4] && ident[5] == b[5] && ident[6] == b[6];
  }

  lemma KindIff(b: seq<nat>)
    requires Bytes(b) && |b| >= 64
    ensures b[16..24] == [2, 0, 62, 0, 1, 0, 0, 0] <==> Le(b, 16, 2) == 2 && Le(b, 18, 2) == 62 && Le(b, 20, 4) == 1
  {
    LeTwo(b, 16);
    LeTwo(b, 18);
    LeFour(b, 20);
    LeTwo(b, 22);
    hide Le;
    var kind := b[16..24];
    assert kind[0] == b[16] && kind[1] == b[17] && kind[2] == b[18] && kind[3] == b[19];
    assert kind[4] == b[20] && kind[5] == b[21] && kind[6] == b[22] && kind[7] == b[23];
  }

  lemma SizesIff(b: seq<nat>)
    requires Bytes(b) && |b| >= 64
    ensures b[54..56] == [56, 0] <==> Le(b, 54, 2) == 56
    ensures b[56..58] == [0, 0] <==> Le(b, 56, 2) == 0
    ensures Le(b, 56, 2) == b[56] + 256 * b[57]
  {
    LeTwo(b, 54);
    LeTwo(b, 56);
    hide Le;
    assert b[54..56][0] == b[54] && b[54..56][1] == b[55];
    assert b[56..58][0] == b[56] && b[56..58][1] == b[57];
  }

  /** The files that pass, byte by byte. */
  lemma ValidIff(file: seq<nat>)
    requires Bytes(file)
    ensures ValidElf(file) <==>
            && |file| >= 64 && file[..7] == [0x7F, 0x45, 0x4C, 0x46, 2, 1, 1]
            && file[16..24] == [2, 0, 62, 0, 1, 0, 0, 0] && file[54..56] == [56, 0]
            && file[56..58] != [0, 0] && Le(file, 32, 8) + 56 * (file[56] + 256 * file[57]) <= |file|
  {
    hide Le, Bytes;
    if |file| >= 64 {
      IdentIff(file);
      KindIff(file);
      SizesIff(file);
    }
  }

  function Entry(file: seq<nat>): nat
    requires ValidElf(file)
  {
    Le(file, 24, 8)
  }

  function PhNum(file: seq<nat>): nat
    requires ValidElf(file)
  {
    Le(file, 56, 2)
  }

  datatype Phdr = Phdr(kind: nat, offset: nat, vaddr: nat, filesz: nat, memsz: nat)

  lemma HeaderInside(file: seq<nat>, i: nat)
    requires ValidElf(file) && i < PhNum(file)
    ensures Le(file, 32, 8) + 56 * i + 56 <= |file|
  {
  }

  function PhdrAt(file: seq<nat>, i: nat): Phdr
    requires ValidElf(file) && i < PhNum(file)
  {
    HeaderInside(file, i);
    var at := Le(file, 32, 8) + 56 * i;
    Phdr(Le(file, at, 4), Le(file, at + 8, 8), Le(file, at + 16, 8), Le(file, at + 32, 8), Le(file, at + 40, 8))
  }

  // ---------- writing what is read ----------

  lemma SubSlice(s: seq<nat>, a: nat, c: nat, o: nat, e: nat)
    requires a <= c <= |s| && o <= e <= c - a
    ensures s[a..c][o..e] == s[a + o..a + e]
  {
    var x, y, z := s[a..c], s[a..c][o..e], s[a + o..a + e];
    forall k | 0 <= k < |y| ensures y[k] == z[k] { assert y[k] == x[o + k]; }
  }

  lemma PrefixSlice(a: seq<nat>, b: seq<nat>, x: nat, y: nat)
    requires x <= y <= |a|
    ensures (a + b)[x..y] == a[x..y]
  {
  }

  /** The bytes `b` hold `v` as `n` bytes from place `o` on. */
  predicate Holds(b: seq<nat>, o: nat, n: nat, v: nat) {
    o + n <= |b| && b[o..o + n] == LeBytes(v, n)
  }

  /** What the bytes `a` hold is still there, and the number put behind them too. */
  lemma HoldsNext(a: seq<nat>, v: nat, n: nat)
    ensures Holds(a + LeBytes(v, n), |a|, n, v)
    ensures forall o: nat, m: nat, u: nat {:trigger Holds(a, o, m, u)} ::
              Holds(a, o, m, u) ==> Holds(a + LeBytes(v, n), o, m, u)
  {
    forall o: nat, m: nat, u: nat | Holds(a, o, m, u) ensures Holds(a + LeBytes(v, n), o, m, u) {
      PrefixSlice(a, LeBytes(v, n), o, o + m);
    }
  }

  /** A number among the bytes `b` that stand at place `at` of a file. */
  lemma LeWithin(file: seq<nat>, at: nat, b: seq<nat>, o: nat, n: nat, v: nat)
    requires at + |b| <= |file| && file[at..at + |b|] == b && Holds(b, o, n, v) && v < Pow256(n)
    ensures Le(file, at + o, n) == v
  {
    var off := at + o;
    SubSlice(file, at, at + |b|, o, o + n);
    LeRoundTrip(file[..off], v, n, file[off + n..]);
    assert file == file[..off] + LeBytes(v, n) + file[off + n..];
  }

  const IDENT: seq<nat> := [0x7F, 0x45, 0x4C, 0x46, 2, 1, 1, 0, 0, 0, 0, 0, 0, 0, 0, 0]

  /** The 64 bytes of a file header whose program headers follow it. */
  function HeaderBytes(entry: nat, phoff: nat, phnum: nat): (r: seq<nat>)
    ensures |r| == 64
  {
    IDENT + KindBytes(entry, phoff) + TableBytes(phnum)
  }

  /** Type, machine, version, entry point and the place of the program headers. */
  function KindBytes(entry: nat, phoff: nat): (r: seq<nat>)
    ensures |r| == 24
  {
    [] + LeBytes(2, 2) + LeBytes(62, 2) + LeBytes(1, 4) + LeBytes(entry, 8) + LeBytes(phoff, 8)
  }

  /** Section headers, flags and sizes, the number of program headers among them. */
  function TableBytes(phnum: nat): (r: seq<nat>)
    ensures |r| == 24
  {
    [] + LeBytes(0, 8) + LeBytes(0, 4) + LeBytes(64, 2) + LeBytes(56, 2) + LeBytes(phnum, 2) + LeBytes(0, 6)
  }

  function PhdrBytes(ph: Phdr): (r: seq<nat>)
    ensures |r| == 56
  {
    [] + LeBytes(ph.kind, 4) + LeBytes(7, 4) + LeBytes(ph.offset, 8) + LeBytes(ph.vaddr, 8) + LeBytes(ph.vaddr, 8)
    + LeBytes(ph.filesz, 8) + LeBytes(ph.memsz, 8) + LeBytes(4096, 8)
  }

  function PhdrsBytes(phs: seq<Phdr>): (r: seq<nat>)
    ensures |r| == 56 * |phs|
  {
    if phs == [] then [] else PhdrsBytes(phs[..|phs| - 1]) + PhdrBytes(phs[|phs| - 1])
  }

  lemma {:induction false} PhdrPlace(phs: seq<Phdr>, i: nat)
    requires i < |phs|
    ensures PhdrsBytes(phs)[56 * i..56 * i + 56] == PhdrBytes(phs[i])
  {
    var a, b := PhdrsBytes(phs[..|phs| - 1]), PhdrBytes(phs[|phs| - 1]);
    if i < |phs| - 1 {
      PhdrPlace(phs[..|phs| - 1], i);
      hide PhdrsBytes, PhdrBytes;
      PrefixSlice(a, b, 56 * i, 56 * i + 56);
    } else {
      assert (a + b)[|a|..] == b;
    }
  }

  predicate Fits(ph: Phdr) {
    && ph.kind < Pow256(4) && ph.offset < Pow256(8) && ph.vaddr < Pow256(8)
    && ph.filesz < Pow256(8) && ph.memsz < Pow256(8)
  }

  lemma PhdrReadBack(file: seq<nat>, at: nat, ph: Phdr)
    requires at + 56 <= |file| && file[at..at + 56] == PhdrBytes(ph) && Fits(ph)
    ensures Phdr(Le(file, at, 4), Le(file, at + 8, 8), Le(file, at + 16, 8), Le(file, at + 32, 8),
            Le(file, at + 40, 8)) == ph
  {
    hide Le, LeBytes, Pow256, Holds;
    var b := PhdrBytes(ph);
    var b1 := [] + LeBytes(ph.kind, 4);
    var b2 := b1 + LeBytes(7, 4);
    var b3 := b2 + LeBytes(ph.offset, 8);
    var b4 := b3 + LeBytes(ph.vaddr, 8);
    var b5 := b4 + LeBytes(ph.vaddr, 8);
    var b6 := b5 + LeBytes(ph.filesz, 8);
    HoldsNext([], ph.kind, 4);
    HoldsNext(b1, 7, 4);
    HoldsNext(b2, ph.offset, 8);
    HoldsNext(b3, ph.vaddr, 8);
    HoldsNext(b4, ph.vaddr, 8);
    HoldsNext(b5, ph.filesz, 8);
    HoldsNext(b6, ph.memsz, 8);
    HoldsNext(b6 + LeBytes(ph.memsz, 8), 4096, 8);
    hide PhdrBytes;
    LeWithin(file, at, b, 0, 4, ph.kind);
    LeWithin(file, at, b, 8, 8, ph.offset);
    LeWithin(file, at, b, 16, 8, ph.vaddr);
    LeWithin(file, at, b, 32, 8, ph.filesz);
    LeWithin(file, at, b, 40, 8, ph.memsz);
  }

  lemma SmallPowers()
    ensures Pow256(2) == 0x1_0000 && Pow256(4) == 0x1_0000_0000 && Pow256(8) == 0x1_0000_0000_0000_0000
  {
    assert Pow256(3) == 0x100_0000;
    assert Pow256(5) == 0x100_0000_0000;
    assert Pow256(6) == 0x1_0000_0000_0000;
    assert Pow256(7) == 0x100_0000_0000_0000;
  }

  lemma KindReadBack(file: seq<nat>, entry: nat, phoff: nat)
    requires 40 <= |file| && file[16..40] == KindBytes(entry, phoff) && entry < Pow256(8) && phoff < Pow256(8)
    ensures Le(file, 16, 2) == 2 && Le(file, 18, 2) == 62 && Le(file, 20, 4) == 1
    ensures Le(file, 24, 8) == entry && Le(file, 32, 8) == phoff
  {
    SmallPowers();
    hide Le, LeBytes, Pow256, Holds;
    var b := KindBytes(entry, phoff);
    var b1 := [] + LeBytes(2, 2);
    var b2 := b1 + LeBytes(62, 2);
    var b3 := b2 + LeBytes(1, 4);
    HoldsNext([], 2, 2);
    HoldsNext(b1, 62, 2);
    HoldsNext(b2, 1, 4);
    HoldsNext(b3, entry, 8);
    HoldsNext(b3 + LeBytes(entry, 8), phoff, 8);
    hide KindBytes;
    LeWithin(file, 16, b, 0, 2, 2);
    LeWithin(file, 16, b, 2, 2, 62);
    LeWithin(file, 16, b, 4, 4, 1);
    LeWithin(file, 16, b, 8, 8, entry);
    LeWithin(file, 16, b, 16, 8, phoff);
  }

  lemma TableReadBack(file: seq<nat>, phnum: nat)
    requires 64 <= |file| && file[40..64] == TableBytes(phnum) && phnum < Pow256(2)
    ensures Le(file, 54, 2) == 56 && Le(file, 56, 2) == phnum
  {
    SmallPowers();
    hide Le, LeBytes, Pow256, Holds;
    var b := TableBytes(phnum);
    var b1 := [] + LeBytes(0, 8) + LeBytes(0, 4) + LeBytes(64, 2);
    var b2 := b1 + LeBytes(56, 2);
    HoldsNext(b1, 56, 2);
    HoldsNext(b2, phnum, 2);
    HoldsNext(b2 + LeBytes(phnum, 2), 0, 6);
    hide TableBytes;
    LeWithin(file, 40, b, 14, 2, 56);
    LeWithin(file, 40, b, 16, 2, phnum);
  }

  /** Where the parts of a file put together are found again. */
  lemma Glued(ident: seq<nat>, kind: seq<nat>, table: seq<nat>, gap: seq<nat>, phs: seq<nat>, rest: seq<nat>, a: nat)
    requires |ident| == 16 && |kind| == 24 && |table| == 24 && a + 56 <= |phs|
    ensures var file, n := ident + kind + table + gap + phs + rest, 64 + |gap|;
            && |file| == n + |phs| + |rest| && file[..16] == ident
            && file[16..40] == kind && file[40..64] == table && file[n + a..n + a + 56] == phs[a..a + 56]
  {
    var tail := gap + phs + rest;
    FirstParts(ident, kind, table, tail);
    assert ident + kind + table + gap + phs + rest == ident + kind + table + tail by {
      Regroup(ident + kind + table, gap, phs, rest);
    }
    Between(ident + kind + table + gap, phs, rest);
    SubSlice(ident + kind + table + gap + phs + rest, 64 + |gap|, 64 + |gap| + |phs|, a, a + 56);
  }

  lemma Regroup(a: seq<nat>, b: seq<nat>, c: seq<nat>, d: seq<nat>)
    ensures a + b + c + d == a + (b + c + d)
  {
  }

  lemma FirstParts(ident: seq<nat>, kind: seq<nat>, table: seq<nat>, tail: seq<nat>)
    requires |ident| == 16 && |kind| == 24 && |table| == 24
    ensures var file := ident + kind + table + tail;
            |file| == 64 + |tail| && file[..16] == ident && file[16..40] == kind && file[40..64] == table
  {
  }

  lemma Between(a: seq<nat>, b: seq<nat>, c: seq<nat>)
    ensures (a + b + c)[|a|..|a| + |b|] == b
  {
  }

  /** What a file with these parts in these places reads as. */
  lemma PartsReadBack(file: seq<nat>, entry: nat, n: nat, ph: Phdr, phnum: nat, i: nat)
    requires entry < Pow256(8) && n < Pow256(8) && i < phnum < Pow256(2) && Fits(ph) && 64 <= n
    requires n + 56 * phnum <= |file| && file[..16] == IDENT && file[16..40] == KindBytes(entry, n)
    requires file[40..64] == TableBytes(phnum) && n + 56 * i + 56 <= |file|
    requires file[n + 56 * i..n + 56 * i + 56] == PhdrBytes(ph)
    ensures ValidElf(file) && Entry(file) == entry && PhNum(file) == phnum && PhdrAt(file, i) == ph
  {
    hide Le, LeBytes, Pow256, KindBytes, TableBytes, PhdrBytes;
    IdentReadBack(file);
    KindReadBack(file, entry, n);
    TableReadBack(file, phnum);
    PhdrReadBack(file, n + 56 * i, ph);
  }

  /** A file put together from an entry point and program headers, wherever these stand behind the file header,
      is valid and reads back as these. */
  lemma FileRoundTrip(entry: nat, gap: seq<nat>, phs: seq<Phdr>, rest: seq<nat>, i: nat)
    requires entry < Pow256(8) && 64 + |gap| < Pow256(8) && 0 < |phs| < Pow256(2) && i < |phs| && Fits(phs[i])
    ensures var file := HeaderBytes(entry, 64 + |gap|, |phs|) + gap + PhdrsBytes(phs) + rest;
            ValidElf(file) && Entry(file) == entry && PhNum(file) == |phs| && PhdrAt(file, i) == phs[i]
  {
    hide Le, LeBytes, Pow256, KindBytes, TableBytes, PhdrsBytes, PhdrBytes, ValidElf, PhdrAt;
    var n: nat := 64 + |gap|;
    Glued(IDENT, KindBytes(entry, n), TableBytes(|phs|), gap, PhdrsBytes(phs), rest, 56 * i);
    PhdrPlace(phs, i);
    PartsReadBack(HeaderBytes(entry, n, |phs|) + gap + PhdrsBytes(phs) + rest, entry, n, phs[i], |phs|, i);
  }

  lemma IdentReadBack(file: seq<nat>)
    requires 16 <= |file| && file[..16] == IDENT
    ensures file[0] == 0x7F && file[1] == 0x45 && file[2] == 0x4C && file[3] == 0x46
    ensures file[4] == 2 && file[5] == 1 && file[6] == 1
  {
    assert forall k :: 0 <= k < 7 ==> file[k] == file[..16][k];
  }

  // ---------- segments ----------

  predicate Loadable(ph: Phdr) {
    ph.kind == 1 && ph.memsz != 0
  }

  /** The checks of `map_load_segment`. */
  predicate Acceptable(ph: Phdr, fileSize: nat) {
    ph.filesz <= ph.memsz && FileRangeOk(ph.offset, ph.filesz, fileSize) && RangeOk(ph.vaddr, ph.memsz)
  }

  function SegLo(ph: Phdr): nat { ph.vaddr / 4096 }

  function SegHi(ph: Phdr): nat { EndPage(ph.vaddr, ph.memsz) }

  lemma SegPages(ph: Phdr, a: nat)
    requires RangeOk(ph.vaddr, ph.memsz)
    ensures 0x10000 <= SegLo(ph) < SegHi(ph) <= 0x80000
    ensures ph.vaddr <= a < ph.vaddr + ph.memsz ==> SegLo(ph) <= a / 4096 < SegHi(ph)
  {
  }

  /** Every address of the segment reads the file's byte or, beyond those, 0; user code can access it. */
  ghost predicate SegmentLoaded(s: Snapshot, file: seq<nat>, ph: Phdr) {
    Whole(SegmentLoadedParts(s, file, ph))
  }

  ghost predicate SegmentLoadedParts(s: Snapshot, file: seq<nat>, ph: Phdr) {
    Acceptable(ph, |file|) && forall k: nat :: k < ph.memsz ==> ByteLoaded(s, file, ph, k)
  }

  ghost predicate ByteLoaded(s: Snapshot, file: seq<nat>, ph: Phdr, k: nat)
    requires Acceptable(ph, |file|)
  {
    var a := ph.vaddr + k;
    && VaByte(s, a) == Some(if k < ph.filesz then file[ph.offset + k] else 0)
    && PageOf(a) in s.view && Accessible(s.view[PageOf(a)])
  }

  function SegmentBytes(file: seq<nat>, ph: Phdr): seq<nat>
    requires FileRangeOk(ph.offset, ph.filesz, |file|)
  {
    file[ph.offset..ph.offset + ph.filesz]
  }

  /** A mapped page is clear; copying the segment's bytes into it loads the segment. */
  lemma MappedThenCopied(s: Snapshot, s1: Snapshot, s2: Snapshot, file: seq<nat>, ph: Phdr)
    requires Acceptable(ph, |file|) && RangeMapped(s, s1, SegLo(ph), SegHi(ph))
    requires OnlyDataIn(s1, s2, SegLo(ph), SegHi(ph))
    requires Copied(s1, s2, ph.vaddr, SegmentBytes(file, ph), ph.filesz)
    ensures SegmentLoaded(s2, file, ph)
  {
    hide Whole, ByteLoaded, Acceptable;
    forall k: nat | k < ph.memsz ensures ByteLoaded(s2, file, ph, k) {
      MappedByteLoaded(s, s1, s2, file, ph, k);
    }
    AllBytesLoaded(s2, file, ph);
  }

  lemma AllBytesLoaded(s: Snapshot, file: seq<nat>, ph: Phdr)
    requires Acceptable(ph, |file|) && forall k: nat :: k < ph.memsz ==> ByteLoaded(s, file, ph, k)
    ensures SegmentLoaded(s, file, ph)
  {
    hide ByteLoaded, Acceptable;
  }

  lemma MappedByteLoaded(s: Snapshot, s1: Snapshot, s2: Snapshot, file: seq<nat>, ph: Phdr, k: nat)
    requires Acceptable(ph, |file|) && RangeMapped(s, s1, SegLo(ph), SegHi(ph))
    requires OnlyDataIn(s1, s2, SegLo(ph), SegHi(ph))
    requires Copied(s1, s2, ph.vaddr, SegmentBytes(file, ph), ph.filesz) && k < ph.memsz
    ensures ByteLoaded(s2, file, ph, k)
  {
    hide RangeMapped, PageOf, VaByte, Accessible, SegLo, SegHi;
    var a := ph.vaddr + k;
    MappedByteClear(s, s1, file, ph, a);
    OnlyDataView(s1, s2, SegLo(ph), SegHi(ph));
    assert VaByte(s2, a) == Some(if k < ph.filesz then SegmentBytes(file, ph)[k] else 0);
  }

  lemma MappedByteClear(s: Snapshot, s1: Snapshot, file: seq<nat>, ph: Phdr, a: nat)
    requires Acceptable(ph, |file|) && RangeMapped(s, s1, SegLo(ph), SegHi(ph)) && ph.vaddr <= a < ph.vaddr + ph.memsz
    ensures VaByte(s1, a) == Some(0) && PageOf(a) in s1.view && Accessible(s1.view[PageOf(a)]) && a < VA_LIMIT
  {
    SegPages(ph, a);
    NumOfPageOf(a);
    assert InRange(PageOf(a), SegLo(ph), SegHi(ph));
    assert FreshPage(s1, PageOf(a));
    ZeroByte(s1.mem, Frame(s1.view[PageOf(a)].entry), a % 4096);
  }

  /** Pages outside `lo` up to `hi` read as before and are at least as accessible. */
  ghost predicate BytesKept(s: Snapshot, s': Snapshot, lo: nat, hi: nat) {
    Whole(BytesKeptParts(s, s', lo, hi))
  }

  ghost predicate BytesKeptParts(s: Snapshot, s': Snapshot, lo: nat, hi: nat) {
    forall a: nat {:trigger VaByte(s', a)} :: a < VA_LIMIT && !(lo <= a / 4096 < hi) ==> ByteKept(s, s', a)
  }

  ghost predicate ByteKept(s: Snapshot, s': Snapshot, a: nat) {
    && VaByte(s', a) == VaByte(s, a)
    && (PageOf(a) in s.view && Accessible(s.view[PageOf(a)]) ==> PageOf(a) in s'.view && Accessible(s'.view[PageOf(a)]))
  }

  lemma ByteKeptByMap(s: Snapshot, s': Snapshot, lo: nat, hi: nat, a: nat)
    requires Partitioned(s) && Partitioned(s') && RangeMapped(s, s', lo, hi)
    requires a < VA_LIMIT && !(lo <= a / 4096 < hi)
    ensures ByteKept(s, s', a)
  {
    NumOfPageOf(a);
    var p := PageOf(a);
    assert p in s.view && p in s'.view && Untouched(s.view[p], s'.view[p]);
    if s'.view[p].Small? { OtherLeaves(s'.view, s'.leaves, p); }
  }

  lemma KeptByMap(s: Snapshot, s': Snapshot, lo: nat, hi: nat)
    requires Partitioned(s) && Partitioned(s') && RangeMapped(s, s', lo, hi)
    ensures BytesKept(s, s', lo, hi)
  {
    forall a: nat | a < VA_LIMIT && !(lo <= a / 4096 < hi) ensures ByteKept(s, s', a) {
      ByteKeptByMap(s, s', lo, hi, a);
    }
  }

  lemma KeptByCopy(s: Snapshot, s': Snapshot, ph: Phdr, bytes: seq<nat>)
    requires RangeOk(ph.vaddr, ph.memsz) && |bytes| <= ph.memsz
    requires OnlyDataIn(s, s', SegLo(ph), SegHi(ph)) && Copied(s, s', ph.vaddr, bytes, |bytes|)
    ensures BytesKept(s, s', SegLo(ph), SegHi(ph))
  {
    forall a: nat | a < VA_LIMIT && !(SegLo(ph) <= a / 4096 < SegHi(ph)) ensures ByteKept(s, s', a) {
      SegPages(ph, a);
    }
  }

  lemma KeptTrans(s: Snapshot, s1: Snapshot, s2: Snapshot, lo: nat, hi: nat)
    requires BytesKept(s, s1, lo, hi) && BytesKept(s1, s2, lo, hi)
    ensures BytesKept(s, s2, lo, hi)
  {
    forall a: nat | a < VA_LIMIT && !(lo <= a / 4096 < hi) ensures ByteKept(s, s2, a) {
      assert VaByte(s2, a) == VaByte(s1, a);
    }
  }

  /** A loaded segment stays loaded when other pages are written. */
  lemma SegmentKept(s: Snapshot, s': Snapshot, file: seq<nat>, ph: Phdr, lo: nat, hi: nat)
    requires SegmentLoaded(s, file, ph) && BytesKept(s, s', lo, hi)
    requires SegHi(ph) <= lo || hi <= SegLo(ph)
    ensures SegmentLoaded(s', file, ph)
  {
    forall k: nat | k < ph.memsz ensures ByteLoaded(s', file, ph, k) {
      SegPages(ph, ph.vaddr + k);
      assert ByteLoaded(s, file, ph, k);
      assert ByteKept(s, s', ph.vaddr + k) by { assert VaByte(s', ph.vaddr + k) == VaByte(s', ph.vaddr + k); }
    }
  }
}
