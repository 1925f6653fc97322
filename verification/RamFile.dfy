/** File contents of kernel/ramfs.c: a growing buffer that behaves like a byte sequence with zero-filled
    holes. */
module RamFile {

  function Max(a: nat, b: nat): nat { if a >= b then a else b }

  /** The contents after writing `bytes` at `offset`; a hole reads as zeros. */
  function Overlay(c: seq<nat>, offset: nat, bytes: seq<nat>): (r: seq<nat>)
    ensures |r| == Max(|c|, offset + |bytes|)
  {
    seq(Max(|c|, offset + |bytes|), i requires 0 <= i =>
      if offset <= i < offset + |bytes| then bytes[i - offset] else if i < |c| then c[i] else 0)
  }

  /** The bytes a read of `size` at `offset` returns. */
  function Slice(c: seq<nat>, offset: nat, size: nat): (r: seq<nat>)
    ensures |r| <= size && (offset < |c| && size > 0 <==> r != [])
  {
    if offset >= |c| then []
    else if size > |c| - offset then c[offset..]
    else c[offset..offset + size]
  }

  /** Reading what was written. */
  lemma ReadBack(c: seq<nat>, offset: nat, bytes: seq<nat>)
    requires bytes != []
    ensures Slice(Overlay(c, offset, bytes), offset, |bytes|) == bytes
  {
  }

  /** A later write that covers an earlier one hides it; writes apart from each other can be done in either
      order; and where a write begins inside the one before, or right behind it, both are one write. */
  lemma OverlayOverlay(c: seq<nat>, o1: nat, b1: seq<nat>, o2: nat, b2: seq<nat>)
    requires b1 != [] && b2 != []
    ensures o2 <= o1 && o1 + |b1| <= o2 + |b2| ==> Overlay(Overlay(c, o1, b1), o2, b2) == Overlay(c, o2, b2)
    ensures o1 + |b1| <= o2 || o2 + |b2| <= o1 ==>
              Overlay(Overlay(c, o1, b1), o2, b2) == Overlay(Overlay(c, o2, b2), o1, b1)
    ensures o1 <= o2 <= o1 + |b1| ==> Overlay(Overlay(c, o1, b1), o2, b2) == Overlay(c, o1, Overlay(b1, o2 - o1, b2))
  {
  }

  /** Writing at the end appends. */
  lemma OverlayAppends(c: seq<nat>, bytes: seq<nat>)
    ensures Overlay(c, |c|, bytes) == c + bytes
  {
  }

  class File {
    var data: array<nat>
    var size: nat

    /** Beyond the contents the buffer holds zeros. */
    ghost predicate Valid()
      reads this, data
    {
      size <= data.Length && forall i :: size <= i < data.Length ==> data[i] == 0
    }

    ghost function Contents(): seq<nat>
      requires Valid()
      reads this, data
    {
      data[..size]
    }

    /** `ramfs_create_file_from_buffer`. */
    constructor (bytes: seq<nat>)
      ensures Valid() && fresh(data) && Contents() == bytes && data.Length == |bytes|
    {
      data := new nat[|bytes|](i requires 0 <= i < |bytes| => bytes[i]);
      size := |bytes|;
    }

    method Read(offset: nat, n: nat) returns (bytes: seq<nat>)
      requires Valid()
      ensures bytes == Slice(Contents(), offset, n)
    {
      if n == 0 || offset >= size { return []; }
      var count := if n > size - offset then size - offset else n;
      bytes := [];
      while |bytes| < count
        invariant |bytes| <= count && bytes == data[offset..offset + |bytes|]
      {
        bytes := bytes + [data[offset + |bytes|]];
      }
    }

    /** A larger buffer with the same contents, zeros behind them. */
    method Grow(capacity: nat)
      requires Valid() && size <= capacity
      modifies this`data
      ensures Valid() && fresh(data) && data.Length == capacity && Contents() == old(Contents())
    {
      var bigger := new nat[capacity](_ => 0);
      var i := 0;
      while i < size
        invariant i <= size && bigger[..i] == data[..i] && forall k :: i <= k < capacity ==> bigger[k] == 0
        invariant bigger.Length == capacity
        modifies bigger
      {
        bigger[i] := data[i];
        i := i + 1;
      }
      data := bigger;
    }

    /** Copies `bytes` into the buffer. */
    method Store(offset: nat, bytes: seq<nat>)
      requires offset + |bytes| <= data.Length
      modifies data
      ensures data[..] == Patched(old(data[..]), offset, bytes)
    {
      hide Patched;
      ghost var was := data[..];
      PatchedNothing(was, offset);
      var i := 0;
      while i < |bytes|
        invariant i <= |bytes| && data[..] == Patched(was, offset, bytes[..i])
      {
        ghost var before := data[..];
        data[offset + i] := bytes[i];
        PatchedMore(was, offset, bytes, i, before);
        assert data[..] == before[offset + i := bytes[i]];
        i := i + 1;
      }
      assert bytes[..i] == bytes;
    }

    /** `ramfs_write`; `granted` says whether memory for a larger buffer can be had. Returns the number of
        bytes written, 0 when the buffer could not grow. */
    method Write(offset: nat, bytes: seq<nat>, granted: bool) returns (n: nat)
      requires Valid()
      modifies this, data
      ensures Valid() && (data == old(data) || fresh(data))
      ensures n == if bytes == [] || (offset + |bytes| > old(data.Length) && !granted) then 0 else |bytes|
      ensures n == 0 ==> data == old(data) && Contents() == old(Contents())
      ensures n > 0 ==> Contents() == Overlay(old(Contents()), offset, bytes)
      ensures n > 0 ==> data.Length == if offset + |bytes| <= old(data.Length) then old(data.Length)
                                       else if offset + |bytes| < 64 then 64 else offset + |bytes|
    {
      if bytes == [] { return 0; }
      hide Overlay, Patched;
      var end := offset + |bytes|;
      if end > data.Length {
        if !granted { return 0; }
        Grow(if end < 64 then 64 else end);
      }
      PatchedContents(data[..], size, offset, bytes);
      Store(offset, bytes);
      if end > size { size := end; }
      return |bytes|;
    }
  }

  lemma PatchedNothing(was: seq<nat>, offset: nat)
    requires offset <= |was|
    ensures Patched(was, offset, []) == was
  {
  }

  lemma PatchedMore(was: seq<nat>, offset: nat, bytes: seq<nat>, i: nat, now: seq<nat>)
    requires i < |bytes| && offset + |bytes| <= |was| && now == Patched(was, offset, bytes[..i])
    ensures offset + i < |now| && now[offset + i := bytes[i]] == Patched(was, offset, bytes[..i + 1])
  {
  }

  /** The buffer with `bytes` copied to `offset`. */
  function Patched(was: seq<nat>, offset: nat, bytes: seq<nat>): seq<nat>
    requires offset + |bytes| <= |was|
  {
    was[..offset] + bytes + was[offset + |bytes|..]
  }

  lemma PatchedContents(was: seq<nat>, size: nat, offset: nat, bytes: seq<nat>)
    requires size <= |was| && offset + |bytes| <= |was| && forall i :: size <= i < |was| ==> was[i] == 0
    ensures var d := Patched(was, offset, bytes); var n := Max(size, offset + |bytes|);
            && |d| == |was| && d[..n] == Overlay(was[..size], offset, bytes) && forall i :: n <= i < |d| ==> d[i] == 0
  {
  }
}
