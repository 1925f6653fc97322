/** Bytes of physical memory: byte `k` of a 64-bit word, lowest first, and writes to frames that hold
    data rather than tables. */
module ByteMemory {
  import opened Utils
  import opened Options
  import opened Entries
  import opened PageTables
  import opened TableEffects

  function ByteOf(w: nat, k: nat): nat {
    if k == 0 then w % 256 else ByteOf(w / 256, k - 1)
  }

  function WithByte(w: nat, k: nat, b: nat): nat {
    if k == 0 then w / 256 * 256 + b else WithByte(w / 256, k - 1, b) * 256 + w % 256
  }

  lemma {:induction false} ByteOfWithByte(w: nat, k: nat, b: nat, j: nat)
    requires b < 256
    ensures ByteOf(WithByte(w, k, b), j) == if j == k then b else ByteOf(w, j)
  {
    var u := WithByte(w, k, b);
    if k == 0 {
      assert u / 256 == w / 256 && u % 256 == b;
    } else {
      assert u / 256 == WithByte(w / 256, k - 1, b) && u % 256 == w % 256;
      if j > 0 { ByteOfWithByte(w / 256, k - 1, b, j - 1); }
    }
  }

  /** Byte `o` of frame `f`. */
  function ReadByte(m: Mem, f: nat, o: nat): nat {
    ByteOf(Ent(m, f, o / 8), o % 8)
  }

  function WriteByte(m: Mem, f: nat, o: nat, b: nat): Mem
    requires f < |m| && o / 8 < |m[f]|
  {
    Put(m, f, o / 8, WithByte(m[f][o / 8], o % 8, b))
  }

  lemma ReadWrite(m: Mem, f: nat, o: nat, b: nat, g: nat, q: nat)
    requires f < |m| && o / 8 < |m[f]| && b < 256
    ensures ReadByte(WriteByte(m, f, o, b), g, q) == if g == f && q == o then b else ReadByte(m, g, q)
  {
    var w := WithByte(m[f][o / 8], o % 8, b);
    PutEnt(m, f, o / 8, w);
    assert q == 8 * (q / 8) + q % 8 && o == 8 * (o / 8) + o % 8;
    if g == f && q / 8 == o / 8 {
      ByteOfWithByte(m[f][o / 8], o % 8, b, q % 8);
    }
  }

  lemma ZeroByte(m: Mem, f: nat, o: nat)
    requires f < |m| && m[f] == seq(ENTRIES, _ => 0)
    ensures ReadByte(m, f, o) == 0
  {
    ByteOfZero(o % 8);
  }

  lemma {:induction false} ByteOfZero(k: nat)
    ensures ByteOf(0, k) == 0
  {
    if k > 0 { ByteOfZero(k - 1); }
  }

  /** Only frame `f`, which is not a table, differs. */
  ghost predicate DataWrite(m: Mem, m': Mem, tb: map<nat, Place>, f: nat) {
    && |m'| == |m| && f < |m| && f !in tb && |m'[f]| == ENTRIES
    && forall g :: 0 <= g < |m| && g != f ==> m'[g] == m[g]
  }

  lemma DataWriteEnt(m: Mem, m': Mem, tb: map<nat, Place>, f: nat)
    requires DataWrite(m, m', tb, f)
    ensures forall t: nat, i: nat :: t in tb ==> Ent(m', t, i) == Ent(m, t, i)
  {
  }

  lemma DataWriteTree(root: nat, m: Mem, m': Mem, tb: map<nat, Place>, f: nat)
    requires Tree(m, root, tb) && DataWrite(m, m', tb, f)
    ensures Tree(m', root, tb)
  {
    DataWriteEnt(m, m', tb, f);
    forall a, b: nat | a in tb && tb[a].level < 3 && b < ENTRIES
      ensures ChildOk(m', tb, a, b)
    {
      assert ChildOk(m, tb, a, b);
    }
    forall c | c in tb && c != root
      ensures ParentOk(m', tb, c)
    {
      assert ParentOk(m, tb, c);
    }
  }

  lemma DataWriteWalk(root: nat, m: Mem, m': Mem, tb: map<nat, Place>, f: nat, q: Page)
    requires Tree(m, root, tb) && DataWrite(m, m', tb, f)
    ensures Walk(m', root, q) == Walk(m, root, q)
  {
    DataWriteEnt(m, m', tb, f);
    NextInTree(m, root, tb, root, q.i4);
    var n1 := Next(m, Some(root), q.i4);
    if n1.Some? {
      NextInTree(m, root, tb, n1.value, q.i3);
      var n2 := Next(m, n1, q.i3);
      if n2.Some? {
        NextInTree(m, root, tb, n2.value, q.i2);
      }
    }
  }

  /** Writing data never disturbs a translation. */
  lemma DataWriteShows(root: nat, m: Mem, m': Mem, tb: map<nat, Place>, view: imap<Page, View>, f: nat)
    requires Tree(m, root, tb) && Shows(m, root, view) && DataWrite(m, m', tb, f)
    ensures Tree(m', root, tb) && Shows(m', root, view)
  {
    DataWriteTree(root, m, m', tb, f);
    forall q
      ensures q in view && view[q] == Walk(m', root, q)
    {
      ShowsWalk(m, root, view, q);
      DataWriteWalk(root, m, m', tb, f, q);
    }
  }
}
