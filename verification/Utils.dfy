/** kernel/utils.c: alignment by masking and interval overlap, on 64-bit unsigned values. */
module Utils {
  import opened Bits

  const PAGE_SIZE: nat := 4096
  const U64_LIMIT: nat := 0x1_0000_0000_0000_0000

  /** The sum of two 64-bit words. */
  function Add64(a: nat, b: nat): nat {
    (a + b) % U64_LIMIT
  }

  /** The proposition `p` taken as a unit: a predicate defined as `Whole(...)` is proved from a fact
      already known, without being taken apart at every use. */
  predicate Whole(p: bool) {
    var q := p; q
  }

  lemma SubsetSize(a: set<nat>, b: set<nat>)
    requires a <= b
    ensures |a| <= |b|
  {
    assert b == a + (b - a);
  }

  lemma UnionSize(a: set<nat>, b: set<nat>)
    ensures |a + b| <= |a| + |b|
  {
    assert a + b == a + (b - a);
    SubsetSize(b - a, b);
  }

  function MaxU64(a: nat, b: nat): nat {
    if a > b then a else b
  }

  function MinU64(a: nat, b: nat): nat {
    if a < b then a else b
  }

  /** `value & ~(align - 1)` */
  function AlignDown(value: nat, align: nat): nat
    requires 0 < align < U64_LIMIT
  {
    And(value, U64_LIMIT - 1 - (align - 1))
  }

  /** `(value + align - 1) & ~(align - 1)`, the sum taken modulo 2^64. */
  function AlignUp(value: nat, align: nat): nat
    requires 0 < align < U64_LIMIT
  {
    AlignDown((value + align - 1) % U64_LIMIT, align)
  }

  lemma Pow2Values()
    ensures Pow2(4) == 16 && Pow2(7) == 128 && Pow2(8) == 256 && Pow2(9) == 512 && Pow2(12) == 4096
    ensures Pow2(52) == 0x10_0000_0000_0000 && Pow2(64) == U64_LIMIT
  {
    assert Pow2(8) == 256;
    assert Pow2(16) == 65536;
    assert Pow2(24) == 65536 * 256;
    assert Pow2(32) == 65536 * 65536;
    assert Pow2(40) == 65536 * 65536 * 256;
    assert Pow2(48) == 65536 * 65536 * 65536;
    assert Pow2(52) == 0x10_0000_0000_0000;
    assert Pow2(60) == 0x1000_0000_0000_0000;
  }

  lemma AlignMask(k: nat)
    requires k < 64
    ensures 0 < Pow2(k) < U64_LIMIT
    ensures U64_LIMIT - 1 - (Pow2(k) - 1) == Pow2(64) - Pow2(k)
  {
    Pow2Values();
    Pow2Monotone(k + 1, 64);
  }

  /** Masking rounds down to a multiple, for every power-of-two alignment. */
  lemma AlignDownIsFloor(value: nat, k: nat)
    requires value < U64_LIMIT && k < 64
    ensures 0 < Pow2(k) < U64_LIMIT
    ensures AlignDown(value, Pow2(k)) == value - value % Pow2(k)
  {
    AlignMask(k);
    assert Pow2(64) == U64_LIMIT by { Pow2Values(); }
    AndHigh(value, 64, k);
  }

  lemma FloorIsMultiple(s: nat, m: nat)
    requires m > 0
    ensures s % m < m && (s - s % m) % m == 0
  {
    assert s == (s / m) * m + s % m;
    ModUnique(s - s % m, m, s / m, 0);
  }

  /** Masking after adding `align - 1` gives the least multiple that is at least `value`. */
  lemma AlignUpIsCeiling(value: nat, k: nat)
    requires k < 64 && value + Pow2(k) - 1 < U64_LIMIT
    ensures 0 < Pow2(k) < U64_LIMIT
    ensures var r := AlignUp(value, Pow2(k));
            value <= r < value + Pow2(k) && r % Pow2(k) == 0
  {
    hide And, Not, Pow2;
    AlignMask(k);
    var s := value + Pow2(k) - 1;
    ModUnique(s, U64_LIMIT, 0, s);
    AlignDownIsFloor(s, k);
    FloorIsMultiple(s, Pow2(k));
  }

  /** When the addition wraps, rounding up gives 0 instead. */
  lemma AlignUpWraps(value: nat, k: nat)
    requires k < 64 && value < U64_LIMIT <= value + Pow2(k) - 1
    ensures 0 < Pow2(k) < U64_LIMIT
    ensures AlignUp(value, Pow2(k)) == 0
  {
    AlignMask(k);
    var s := value + Pow2(k) - 1;
    assert s % U64_LIMIT == s - U64_LIMIT;
    AlignDownIsFloor(s - U64_LIMIT, k);
    ModUnique(s - U64_LIMIT, Pow2(k), 0, s - U64_LIMIT);
  }

  function PageDown(value: nat): (r: nat)
    ensures r <= value < r + 4096 && r % 4096 == 0
  {
    value / 4096 * 4096
  }

  function PageUp(value: nat): (r: nat)
    ensures value <= r < value + 4096 && r % 4096 == 0
  {
    (value + 4095) / 4096 * 4096
  }

  lemma SameMultiple(a: nat, b: nat, value: int)
    requires a % 4096 == 0 && b % 4096 == 0
    requires value - 4096 < a <= value && value - 4096 < b <= value
    ensures a == b
  {
  }

  /** The page roundings of the model are the mask expressions of the source. */
  lemma PageMasks(value: nat)
    requires value + PAGE_SIZE <= U64_LIMIT
    ensures AlignDown(value, PAGE_SIZE) == PageDown(value)
    ensures AlignUp(value, PAGE_SIZE) == PageUp(value)
  {
    assert Pow2(12) == PAGE_SIZE by { Pow2Values(); }
    AlignDownIsFloor(value, 12);
    FloorIsMultiple(value, PAGE_SIZE);
    SameMultiple(AlignDown(value, PAGE_SIZE), PageDown(value), value);
    AlignUpIsCeiling(value, 12);
    SameMultiple(AlignUp(value, PAGE_SIZE), PageUp(value), value + 4095);
  }

  lemma PageUpAligned(value: nat)
    requires value % PAGE_SIZE == 0
    ensures PageUp(value) == value
  {
  }

  predicate RangesOverlap(aStart: nat, aEnd: nat, bStart: nat, bEnd: nat) {
    MaxU64(aStart, bStart) < MinU64(aEnd, bEnd)
  }

  predicate Within(x: int, lo: int, hi: int) {
    lo <= x < hi
  }

  /** The interval test is exact: it holds just when some address lies in both intervals. */
  lemma OverlapIsSharedAddress(aStart: nat, aEnd: nat, bStart: nat, bEnd: nat)
    ensures RangesOverlap(aStart, aEnd, bStart, bEnd) <==>
            exists x :: Within(x, aStart, aEnd) && Within(x, bStart, bEnd)
  {
    if RangesOverlap(aStart, aEnd, bStart, bEnd) {
      var x := MaxU64(aStart, bStart);
      assert Within(x, aStart, aEnd) && Within(x, bStart, bEnd);
    }
  }
}
