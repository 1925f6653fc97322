/** Page-table entries (include/vmm.h): 64-bit words with flag bits and a frame number, and the mask
    expressions of kernel/vmm.c in arithmetic form. */
module Entries {
  import opened Bits
  import opened Utils

  const PTE_PRESENT: nat := 0x001
  const PTE_WRITABLE: nat := 0x002
  const PTE_USER: nat := 0x004
  const PTE_HUGE: nat := 0x080
  const PTE_ADDR_MASK: nat := 0x000F_FFFF_FFFF_F000
  const FRAME_LIMIT: nat := 0x100_0000_0000

  predicate Present(e: nat) { e % 2 == 1 }
  /** User code may read and write what the entry leads to: its user and writable bits are set. */
  predicate User(e: nat) { e / 2 % 4 == 3 }
  predicate MayWrite(e: nat) { e / 2 % 2 == 1 }
  predicate Huge(e: nat) { e / 128 % 2 == 1 }

  /** The number of the frame an entry refers to. */
  function Frame(e: nat): nat { e / 4096 % 0x100_0000_0000 }

  /** An entry above the last level that leads to another table. */
  predicate Points(e: nat) { Present(e) && !Huge(e) }

  /** The entry written for a new table in frame `f`. */
  function TableEntry(f: nat): nat { 4096 * f + 3 }

  /** The entry `vmm_map_page` writes for a page in frame `f`. */
  function PageEntry(f: nat, flags: nat): nat { 4096 * f + (2 * (flags / 2) + 1) }

  /** An entry made user-accessible and writable. */
  function UserEntry(e: nat): nat { 8 * (e / 8) + 6 + e % 2 }

  /** The source tests entries with masks; the masks read the same bits as the arithmetic above. */
  lemma EntryMasks(e: nat)
    ensures And(e, PTE_PRESENT) != 0 <==> Present(e)
    ensures And(e, PTE_USER) != 0 && And(e, PTE_WRITABLE) != 0 <==> User(e)
    ensures And(e, PTE_WRITABLE) != 0 <==> MayWrite(e)
    ensures And(e, PTE_HUGE) != 0 <==> Huge(e)
    ensures And(e, PTE_ADDR_MASK) == 4096 * Frame(e)
  {
    Pow2Values();
    AndSingle(e, 0);
    AndSingle(e, 1);
    AndSingle(e, 2);
    AndSingle(e, 7);
    assert Pow2(0) == 1 && Pow2(1) == 2 && Pow2(2) == 4;
    TwoBits(e / 2);
    assert e / 4 == e / 2 / 2;
    AndBand(e, 52, 12);
    FrameBand(e);
  }

  lemma TwoBits(x: nat)
    ensures x % 4 == 3 <==> x % 2 == 1 && x / 2 % 2 == 1
  {
    var q, r := x / 4, x % 4;
    assert x == 4 * q + r && x / 2 == 2 * q + r / 2;
  }

  lemma {:induction false} AndSingle(e: nat, k: nat)
    ensures And(e, Pow2(k)) == if e / Pow2(k) % 2 == 1 then Pow2(k) else 0
  {
    if k == 0 {
      assert e != 0 ==> And(e / 2, 0) == 0;
    } else {
      AndSingle(e / 2, k - 1);
      DivDouble(e, Pow2(k - 1));
    }
  }

  lemma DivDouble(e: nat, m: nat)
    requires m > 0
    ensures e / (2 * m) == e / 2 / m
  {
    ModDouble(e, m);
    var q := e / 2 / m;
    assert e / 2 == q * m + e / 2 % m;
    assert e == q * (2 * m) + (2 * (e / 2 % m) + e % 2);
    ModUnique(e, 2 * m, q, 2 * (e / 2 % m) + e % 2);
  }

  lemma FrameBand(e: nat)
    ensures e % 0x10_0000_0000_0000 - e % 4096 == 4096 * Frame(e)
  {
  }

  /** Setting the lowest bit. */
  lemma OrOne(x: nat)
    ensures Or(x, 1) == 2 * (x / 2) + 1
  {
    OrZero(x / 2);
  }

  lemma OrOneOnEven(x: nat)
    requires x % 2 == 0
    ensures Or(x, 1) == x + 1
  {
    OrZero(x / 2);
  }

  lemma OrTwo(x: nat, h: nat)
    requires x == 2 * h + 1
    ensures Or(x, 2) == 2 * Or(h, 1) + 1
  {
  }

  /** Setting the three low bits named by 6. */
  lemma OrSix(e: nat)
    ensures Or(e, 6) == 8 * (e / 8) + 6 + e % 2
  {
    OrOne(e / 2 / 2);
    assert Or(e / 2, 3) == 2 * Or(e / 2 / 2, 1) + 1;
    assert e / 2 / 2 / 2 == e / 8;
  }

  /** The entries the source builds with `|` are the ones defined above, as long as the flags stay in
      the low 12 bits. */
  lemma EntryForms(f: nat, flags: nat, e: nat)
    requires flags < 4096
    ensures Or(Or(4096 * f, PTE_PRESENT), PTE_WRITABLE) == TableEntry(f)
    ensures Or(Or(4096 * f, flags), PTE_PRESENT) == PageEntry(f, flags)
    ensures Or(e, Or(PTE_USER, PTE_WRITABLE)) == UserEntry(e)
  {
    TableEntryForm(f);
    PageEntryForm(f, flags);
    assert Or(PTE_USER, PTE_WRITABLE) == 6;
    OrSix(e);
  }

  lemma TableEntryForm(f: nat)
    ensures Or(Or(4096 * f, 1), 2) == 4096 * f + 3
  {
    hide Or;
    OrThree(1024 * f);
  }

  lemma OrThree(q: nat)
    ensures Or(Or(4 * q, 1), 2) == 4 * q + 3
  {
    hide Or;
    Twice(2 * q);
    Twice(q);
    OrOneOnEven(4 * q);
    OrTwo(4 * q + 1, 2 * q);
    OrOneOnEven(2 * q);
  }

  lemma Twice(q: nat)
    ensures 2 * q % 2 == 0
  {
  }

  lemma PageEntryForm(f: nat, flags: nat)
    requires flags < 4096
    ensures Or(Or(4096 * f, flags), 1) == 4096 * f + (2 * (flags / 2) + 1)
  {
    hide Or;
    assert Or(4096 * f, flags) == 4096 * f + flags by {
      Pow2Values();
      OrDisjoint(4096 * f, flags, 12);
    }
    OrOne(4096 * f + flags);
    assert (4096 * f + flags) / 2 == 2048 * f + flags / 2;
  }

  lemma LowFrame(f: nat, low: nat)
    requires f < FRAME_LIMIT && low < 4096
    ensures Frame(4096 * f + low) == f
  {
  }

  lemma DivOffset(m: nat, k: nat, low: nat)
    requires m > 0
    ensures (m * k + low) / m == k + low / m
  {
    assert low == low / m * m + low % m;
    assert m * k + low == (k + low / m) * m + low % m;
    ModUnique(m * k + low, m, k + low / m, low % m);
  }

  /** Digit `2^j` of a number does not depend on the multiple of `2^(j+1)` above it. */
  lemma DigitOffset(m: nat, k: nat, low: nat)
    requires m > 0
    ensures (m * (2 * k) + low) / m % 2 == low / m % 2
  {
    DivOffset(m, 2 * k, low);
  }

  lemma LowFlags(f: nat, low: nat)
    ensures Present(4096 * f + low) == Present(low)
    ensures Huge(4096 * f + low) == Huge(low)
    ensures User(4096 * f + low) == User(low)
    ensures MayWrite(4096 * f + low) == MayWrite(low)
  {
    DigitOffset(1, 2048 * f, low);
    DigitOffset(2, 1024 * f, low);
    DigitOffset(128, 16 * f, low);
    LowUser(f, low);
  }

  lemma LowUser(f: nat, low: nat)
    ensures User(4096 * f + low) == User(low)
  {
    assert (4096 * f + low) / 2 == 2048 * f + low / 2;
    OffsetMod4(512 * f, low / 2);
  }

  lemma OffsetMod4(a: nat, b: nat)
    ensures (4 * a + b) % 4 == b % 4
  {
  }

  lemma TableEntryFields(f: nat)
    requires f < FRAME_LIMIT
    ensures Points(TableEntry(f)) && Frame(TableEntry(f)) == f
  {
    LowFrame(f, 3);
    LowFlags(f, 3);
  }

  lemma SetLow(flags: nat)
    ensures var low := 2 * (flags / 2) + 1;
            low / 2 == flags / 2 && low % 2 == 1 && (flags < 4096 ==> low < 4096)
  {
  }

  /** With a frame below 2^52 bytes and flags below 4096, the entry refers to that frame. */
  lemma PageEntryFields(f: nat, flags: nat)
    requires f < FRAME_LIMIT && flags < 4096
    ensures Present(PageEntry(f, flags)) && Frame(PageEntry(f, flags)) == f
    ensures User(PageEntry(f, flags)) == User(flags) && MayWrite(PageEntry(f, flags)) == MayWrite(flags)
  {
    var low := 2 * (flags / 2) + 1;
    SetLow(flags);
    SetLowFlags(flags);
    hide Present, User, MayWrite, Huge, Frame;
    LowFrame(f, low);
    LowFlags(f, low);
  }

  lemma SetLowFlags(flags: nat)
    ensures var low := 2 * (flags / 2) + 1;
            Present(low) && User(low) == User(flags) && MayWrite(low) == MayWrite(flags)
  {
    SetLow(flags);
  }

  /** Marking an entry user-accessible changes nothing else the walk looks at. */
  lemma UserEntryFields(e: nat)
    ensures User(UserEntry(e))
    ensures Present(UserEntry(e)) == Present(e) && Huge(UserEntry(e)) == Huge(e)
    ensures Frame(UserEntry(e)) == Frame(e)
  {
    UserBits(e / 8, e % 2);
    hide User;
    Above8(UserEntry(e));
    Above8(e);
    hide UserEntry;
  }

  lemma UserBits(q: nat, b: nat)
    requires b < 2
    ensures var u := 8 * q + 6 + b; User(u) && u % 2 == b && u / 8 == q
  {
    var u := 8 * q + 6 + b;
    assert u / 2 == 4 * q + 3;
    OffsetMod4(q, 3);
  }

  lemma Above8(x: nat)
    ensures x / 128 == x / 8 / 16 && x / 4096 == x / 8 / 512
  {
  }
}
