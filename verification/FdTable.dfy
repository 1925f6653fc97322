/** kernel/fd.c: file descriptors over the file tree. */
module FdTable {
  import opened Options
  import opened Paths
  import opened Tree
  import opened Vfs
  import opened RamFile

  const FD_TABLE_SIZE: nat := 32

  datatype FdKind = Unused | Console | VfsNode

  datatype Fd = Fd(used: bool, kind: FdKind, node: Option<nat>, offset: nat, readable: bool, writable: bool)

  const FREE: Fd := Fd(false, Unused, None, 0, false, false)

  /** Opening a file or device gives the lowest free descriptor from 3 on. */
  predicate LowestFree(table: seq<Fd>, fd: nat) {
    3 <= fd < |table| && !table[fd].used && forall i :: 3 <= i < fd ==> table[i].used
  }

  class Table {
    const fs: FileSystem
    const entries: array<Fd>

    ghost predicate Valid()
      reads this, fs, entries
    {
      && entries.Length == FD_TABLE_SIZE && fs.Valid()
      && forall i :: 0 <= i < 32 && entries[i].used && entries[i].kind.VfsNode? ==>
           entries[i].node.Some? && entries[i].node.value < |fs.nodes|
    }

    /** Descriptor `fd` is open for reading on the file `id`. */
    ghost predicate OpenFile(fd: int, id: nat)
      reads this, fs, entries
    {
      && 0 <= fd < 32 && entries.Length == 32 && entries[fd].used && entries[fd].readable
      && entries[fd].kind.VfsNode? && entries[fd].node == Some(id)
      && id < |fs.nodes| && fs.nodes[id].kind.File?
    }

    /** `fd_init`; `tty0` is the node of the terminal, if there is one. */
    constructor (fs: FileSystem, tty0: Option<nat>)
      requires fs.Valid() && (tty0.Some? ==> tty0.value < |fs.nodes|)
      ensures Valid() && this.fs == fs && fresh(entries) && forall i :: 3 <= i < 32 ==> entries[i] == FREE
      ensures var kind := if tty0.Some? then VfsNode else Console;
              && entries[0] == Fd(true, kind, tty0, 0, tty0.Some?, false)
              && entries[1] == entries[2] == Fd(true, kind, tty0, 0, false, true)
    {
      hide TreeOk;
      this.fs := fs;
      var table := new Fd[32](_ => FREE);
      entries := table;
      new;
      var kind := if tty0.Some? then VfsNode else Console;
      entries[0] := Fd(true, kind, tty0, 0, tty0.Some?, false);
      entries[1] := Fd(true, kind, tty0, 0, false, true);
      entries[2] := Fd(true, kind, tty0, 0, false, true);
    }

    method Open(path: string) returns (fd: int)
      requires Valid()
      modifies entries
      ensures Valid()
      ensures var node := if path == "" || path[0] != '/' then None else fs.Find(Comps(path));
              var ok := node.Some? && !fs.nodes[node.value].kind.Dir? && exists i :: LowestFree(old(entries[..]), i);
              if ok then 0 <= fd && LowestFree(old(entries[..]), fd) &&
                         entries[..] == old(entries[..])[fd := Fd(true, VfsNode, node, 0, true, true)]
              else fd == -1 && entries[..] == old(entries[..])
    {
      hide TreeOk;
      ghost var was := entries[..];
      var node := fs.Lookup(path);
      if node.None? { return -1; }
      if fs.nodes[node.value].kind.Dir? { return -1; }
      fd := Free();
      assert entries[..] == was;
      if fd != -1 { entries[fd] := Fd(true, VfsNode, node, 0, true, true); }
    }

    /** The search of `fd_alloc_locked`. */
    method Free() returns (fd: int)
      requires entries.Length == 32
      ensures fd == -1 ==> forall i :: !LowestFree(entries[..], i)
      ensures fd != -1 ==> 0 <= fd && LowestFree(entries[..], fd)
    {
      var i := 3;
      while i < 32
        invariant 3 <= i <= 32 && forall k :: 3 <= k < i ==> entries[k].used
      {
        if !entries[i].used { return i; }
        i := i + 1;
      }
      return -1;
    }

    method Close(fd: int) returns (r: int)
      requires Valid()
      modifies entries
      ensures Valid() && r == if 3 <= fd < 32 && old(entries[fd]).used then 0 else -1
      ensures entries[..] == if r == 0 then old(entries[..])[fd := FREE] else old(entries[..])
    {
      if fd < 0 || fd >= 32 { return -1; }
      if fd == 0 || fd == 1 || fd == 2 { return -1; }
      if !entries[fd].used { return -1; }
      entries[fd] := FREE;
      return 0;
    }

    /** `fd_read`; `device` is what a device delivers. */
    method Read(fd: int, size: nat, device: seq<nat>) returns (r: int, bytes: seq<nat>)
      requires Valid() && |device| <= size
      modifies entries
      ensures Valid() && (r == -1 ==> entries[..] == old(entries[..]))
      ensures r == -1 <==> !(0 <= fd < 32 && size > 0 && old(entries[fd]).used && old(entries[fd]).readable &&
                             old(entries[fd]).kind.VfsNode?)
      ensures r != -1 ==> r == |bytes| && old(entries[fd]).node.Some? && old(entries[fd]).node.value < |fs.nodes|
      ensures r != -1 ==>
        var e := old(entries[fd]); var n := fs.nodes[e.node.value];
        && bytes == (match n.kind case File => Slice(n.data, e.offset, size) case Device => device case Dir => [])
        && entries[..] == old(entries[..])[fd := if n.kind.File? then e.(offset := e.offset + |bytes|) else e]
    {
      hide TreeOk, Slice;
      if fd < 0 || fd >= 32 || size == 0 { return -1, []; }
      if !entries[fd].used || !entries[fd].readable { return -1, []; }
      var e := entries[fd];
      if !e.kind.VfsNode? { return -1, []; }
      var n := fs.nodes[e.node.value];
      bytes := match n.kind case File => Slice(n.data, e.offset, size) case Device => device case Dir => [];
      if n.kind.File? { entries[fd] := e.(offset := e.offset + |bytes|); }
      return |bytes|, bytes;
    }

    /** Writes to the file node of an open descriptor and moves its offset. */
    method WriteFile(fd: nat, bytes: seq<nat>, granted: bool) returns (r: nat)
      requires Valid() && fd < 32 && entries[fd].used && entries[fd].kind.VfsNode?
      modifies entries, fs`nodes
      ensures Valid()
      ensures var e := old(entries[fd]);
        && e.node.Some? && e.node.value < |old(fs.nodes)|
        && FileWritten(old(fs.nodes), fs.nodes, e.node.value, e.offset, bytes, granted, r)
        && entries[..] == old(entries[..])[fd := e.(offset := e.offset + r)]
    {
      hide TreeOk, Overlaid;
      var e := entries[fd];
      OverlaidTree(fs.nodes, fs.kids, e.node.value, e.offset, bytes);
      OverlaidIs(fs.nodes, e.node.value, e.offset, bytes);
      r := 0;
      if e.offset + |bytes| <= fs.nodes[e.node.value].capacity || granted {
        fs.nodes := Overlaid(fs.nodes, e.node.value, e.offset, bytes);
        r := |bytes|;
      }
      entries[fd] := e.(offset := e.offset + r);
    }

    /** `fd_write`; `granted` says whether memory for a larger buffer can be had, `device` how much a device
        takes. */
    method Write(fd: int, bytes: seq<nat>, granted: bool, device: nat) returns (r: int)
      requires Valid()
      modifies entries, fs`nodes
      ensures Valid()
      ensures r == -1 <==> !(0 <= fd < 32 && bytes != [] && old(entries[fd]).used && old(entries[fd]).writable &&
                             !old(entries[fd]).kind.Unused?)
      ensures r != -1 && old(entries[fd]).kind.VfsNode? ==>
                old(entries[fd]).node.Some? && old(entries[fd]).node.value < |old(fs.nodes)|
      ensures r != -1 && old(entries[fd]).kind.Console? ==> r == |bytes|
      ensures r != -1 && old(entries[fd]).kind.VfsNode? ==>
                var e := old(entries[fd]);
                match old(fs.nodes)[e.node.value].kind
                case Dir => r == 0
                case Device => r == device
                case File =>
                  && r >= 0 && FileWritten(old(fs.nodes), fs.nodes, e.node.value, e.offset, bytes, granted, r)
                  && entries[..] == old(entries[..])[fd := e.(offset := e.offset + r)]
      ensures !(r != -1 && old(entries[fd]).kind.VfsNode? && old(fs.nodes)[old(entries[fd]).node.value].kind.File?) ==>
                fs.nodes == old(fs.nodes) && entries[..] == old(entries[..])
    {
      hide TreeOk, Overlaid, FileWritten;
      if fd < 0 || fd >= 32 || bytes == [] { return -1; }
      if !entries[fd].used || !entries[fd].writable { return -1; }
      if entries[fd].kind.Console? { return |bytes|; }
      if entries[fd].kind.Unused? { return -1; }
      var kind := fs.nodes[entries[fd].node.value].kind;
      if kind.Dir? { return 0; }
      if kind.Device? { return device; }
      r := WriteFile(fd, bytes, granted);
    }

    /** Reads a file in chunks of the given sizes, until a read returns nothing or the sizes run out. */
    method ReadChunks(fd: int, sizes: seq<nat>, ghost id: nat) returns (all: seq<nat>, ended: bool)
      requires Valid() && OpenFile(fd, id) && forall k :: 0 <= k < |sizes| ==> sizes[k] > 0
      requires entries[fd].offset <= |fs.nodes[id].data|
      modifies entries
      ensures Valid() && OpenFile(fd, id)
      ensures entries[fd].offset == old(entries[fd]).offset + |all| <= |fs.nodes[id].data|
      ensures all == fs.nodes[id].data[old(entries[fd]).offset..entries[fd].offset]
      ensures ended ==> all == fs.nodes[id].data[old(entries[fd]).offset..]
      ensures !ended ==> |all| >= |sizes|
    {
      hide TreeOk;
      all, ended := [], false;
      ghost var data, start := fs.nodes[id].data, entries[fd].offset;
      var k := 0;
      while k < |sizes| && !ended
        invariant k <= |sizes| && Valid() && OpenFile(fd, id) && fs.nodes[id].data == data
        invariant entries[fd].offset == start + |all| <= |data| && all == data[start..start + |all|]
        invariant if ended then start + |all| == |data| else |all| >= k
        decreases |sizes| - k, !ended
      {
        ghost var at := entries[fd].offset;
        var r, bytes := Read(fd, sizes[k], []);
        assert bytes == Slice(data, at, sizes[k]);
        all := all + bytes;
        if r == 0 { ended := true; } else { k := k + 1; }
      }
    }
  }

  /** A buffer that is too small is replaced by one of just the size needed, of 64 bytes at least. */
  function Enlarged(capacity: nat, end: nat): nat {
    if end <= capacity then capacity else Max(end, 64)
  }

  function Overlaid(nodes: Nodes, id: nat, offset: nat, bytes: seq<nat>): Nodes
    requires id < |nodes|
  {
    var n := nodes[id];
    nodes[id := n.(data := Overlay(n.data, offset, bytes), capacity := Enlarged(n.capacity, offset + |bytes|))]
  }

  /** All bytes are written, unless the buffer is too small and cannot grow: then none is. */
  ghost predicate FileWritten(nodes: Nodes, nodes': Nodes, id: nat, offset: nat, bytes: seq<nat>, granted: bool, r: nat)
    requires id < |nodes|
  {
    if offset + |bytes| <= nodes[id].capacity || granted then
      var capacity := if offset + |bytes| <= nodes[id].capacity then nodes[id].capacity
                      else if offset + |bytes| < 64 then 64 else offset + |bytes|;
      && r == |bytes|
      && nodes' == nodes[id := nodes[id].(data := Overlay(nodes[id].data, offset, bytes), capacity := capacity)]
    else
      r == 0 && nodes' == nodes
  }

  lemma OverlaidIs(nodes: Nodes, id: nat, offset: nat, bytes: seq<nat>)
    requires id < |nodes|
    ensures FileWritten(nodes, Overlaid(nodes, id, offset, bytes), id, offset, bytes, true, |bytes|)
  {
  }

  /** Changing the data of a node leaves the tree as it is. */
  lemma OverlaidTree(nodes: Nodes, kids: Kids, id: nat, offset: nat, bytes: seq<nat>)
    requires TreeOk(nodes, kids) && id < |nodes|
    ensures TreeOk(Overlaid(nodes, id, offset, bytes), kids) && |Overlaid(nodes, id, offset, bytes)| == |nodes|
  {
    hide Overlay;
    forall d | 0 <= d < |nodes| ensures ListOk(Overlaid(nodes, id, offset, bytes), d, kids[d]) {
      assert ListOk(nodes, d, kids[d]);
    }
  }

  /** A file opened and read in chunks until nothing more comes gives its whole contents, however it is cut
      up. */
  method OpenAndRead(table: Table, path: string, sizes: seq<nat>) returns (fd: int, all: seq<nat>, ended: bool)
    requires table.Valid() && path != "" && path[0] == '/' && forall k :: 0 <= k < |sizes| ==> sizes[k] > 0
    requires table.fs.Find(Comps(path)).Some? && table.fs.nodes[table.fs.Find(Comps(path)).value].kind.File?
    modifies table.entries
    ensures table.Valid() && (fd == -1 <==> forall i :: !LowestFree(old(table.entries[..]), i))
    ensures fd != -1 ==> all <= table.fs.nodes[table.fs.Find(Comps(path)).value].data
    ensures fd != -1 && ended ==> all == table.fs.nodes[table.fs.Find(Comps(path)).value].data
    ensures fd != -1 && |sizes| > |table.fs.nodes[table.fs.Find(Comps(path)).value].data| ==> ended
  {
    hide TreeOk, Comps, Resolve;
    fd := table.Open(path);
    if fd == -1 { return -1, [], false; }
    ghost var id := table.fs.Find(Comps(path)).value;
    assert table.entries[..][fd] == table.entries[fd];
    all, ended := table.ReadChunks(fd, sizes, id);
  }
}
