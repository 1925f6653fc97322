/** kernel/vfs.c and the tree operations of kernel/ramfs.c. */
module Vfs {
  import opened Options
  import opened Sequences
  import opened Paths
  import opened Tree

  /** `ramfs_copy_name` and `copy_component`: names are cut to 31 characters. */
  function Clip(name: string): (r: string)
    ensures |r| < NAME_MAX && (|name| < NAME_MAX ==> r == name)
    ensures r <= name && |r| == if |name| < 31 then |name| else 31
  {
    if |name| < NAME_MAX then name else name[..31]
  }

  /** The siblings `q` are linked in order. */
  ghost predicate Linked(nodes: Nodes, q: seq<nat>) {
    forall i :: 0 <= i < |q| ==> q[i] < |nodes| && nodes[q[i]].nextSibling == After(q, i)
  }

  class FileSystem {
    var nodes: Nodes
    ghost var kids: Kids

    ghost predicate Valid()
      reads this
    {
      TreeOk(nodes, kids)
    }

    constructor ()
      ensures Valid() && kids == [[]] && nodes[0].name == ""
    {
      nodes, kids := [Node("", Dir, None, None, None, [], 0)], [[]];
    }

    /** The node that names lead to from the root. */
    ghost function Find(names: seq<string>): (r: Option<nat>)
      requires Valid()
      reads this
      ensures r.Some? ==> r.value < |nodes|
    {
      Resolve(nodes, kids, 0, names)
    }

    /** `vfs_find_child`, and `find_child` of kernel/initramfs.c. */
    method FindChild(dir: nat, name: string) returns (r: Option<nat>)
      requires Valid() && dir < |nodes|
      ensures r == Child(nodes, kids, dir, name)
    {
      assert ListOk(nodes, dir, kids[dir]);
      ghost var q := kids[dir];
      hide TreeOk;
      if !nodes[dir].kind.Dir? { return None; }
      var current := nodes[dir].firstChild;
      ghost var i := 0;
      while current.Some?
        invariant i <= |q| && current == (if i < |q| then Some(q[i]) else None)
        invariant Named(nodes, q, 0, name) == Named(nodes, q, i, name)
        decreases |q| - i
      {
        if nodes[current.value].name == name { return current; }
        current := nodes[current.value].nextSibling;
        i := i + 1;
      }
      return None;
    }

    /** The last child of a directory, as `ramfs_add_child` looks for it. */
    method LastChild(dir: nat) returns (r: Option<nat>)
      requires Valid() && dir < |nodes|
      ensures r == Last(kids[dir])
    {
      assert ListOk(nodes, dir, kids[dir]);
      ghost var q := kids[dir];
      hide TreeOk;
      assert Linked(nodes, q) && nodes[dir].firstChild == First(q);
      hide ListOk;
      r := nodes[dir].firstChild;
      if r.None? { return; }
      ghost var i: nat := 0;
      while nodes[r.value].nextSibling.Some?
        invariant i < |q| && r == Some(q[i])
        decreases |q| - i
      {
        r := nodes[r.value].nextSibling;
        i := i + 1;
      }
    }

    /** `ramfs_create_dir` and `ramfs_create_file_from_buffer` below a directory, when memory can be had. */
    method Create(parent: nat, name: string, kind: Kind, data: seq<nat>) returns (id: nat)
      requires Valid() && parent < |nodes| && nodes[parent].kind.Dir?
      modifies this
      ensures Valid() && id == |old(nodes)| && kids == AddedKids(old(kids), parent)
      ensures Last(old(kids)[parent]).Some? ==> Last(old(kids)[parent]).value < |old(nodes)|
      ensures nodes == Added(old(nodes), parent, Last(old(kids)[parent]), Clip(name), kind, data)
    {
      AddedTree(nodes, kids, parent, Clip(name), kind, data);
      hide Added, ListOk;
      var last := LastChild(parent);
      id := |nodes|;
      nodes, kids := Added(nodes, parent, last, Clip(name), kind, data), AddedKids(kids, parent);
    }

    /** `vfs_lookup` finds what the components of an absolute path lead to. */
    method Lookup(path: string) returns (r: Option<nat>)
      requires Valid()
      ensures r == if path == "" || path[0] != '/' then None else Find(Comps(path))
    {
      if path == "" || path[0] != '/' { return None; }
      r := Walk(path);
    }

    /** One component of the walk: the node below `current` and the place after the component, if there
        is one. */
    method Advance(path: string, current: nat, start: nat) returns (next: Option<nat>, end: nat)
      requires Valid() && current < |nodes| && start < |path| && path[start] != '/'
      ensures start < end <= |path|
      ensures next.Some? ==> next.value < |nodes|
      ensures Resolve(nodes, kids, current, Rest(path, start)) ==
              if next.Some? then Resolve(nodes, kids, next.value, Rest(path, end)) else None
    {
      hide TreeOk, Child, Resolve, Rest;
      end := ComponentEnd(path, start);
      if end - start >= NAME_MAX {
        LongName(nodes, kids, current, Rest(path, start));
        return None, end;
      }
      ResolveStep(nodes, kids, current, path[start..end], Rest(path, end));
      next := FindChild(current, path[start..end]);
    }

    method Walk(path: string) returns (r: Option<nat>)
      requires Valid()
      ensures r == Find(Comps(path))
    {
      RootInTree();
      RestEnds(path);
      hide TreeOk, Child, Resolve, Comps, Rest;
      ghost var goal := Find(Comps(path));
      var current: nat, index: nat := 0, 0;
      while index < |path|
        invariant index <= |path| && current < |nodes|
        invariant goal == Resolve(nodes, kids, current, Rest(path, index))
        decreases |path| - index
      {
        index := SkipSlashes(path, index);
        if index < |path| {
          var next, end := Advance(path, current, index);
          if next.None? { return None; }
          current, index := next.value, end;
        }
      }
      ResolveNone(nodes, kids, current);
      return Some(current);
    }

    lemma RootInTree()
      requires Valid()
      ensures 0 < |nodes| && nodes[0].kind.Dir?
    {
    }
  }

  lemma ResolveStep(nodes: Nodes, kids: Kids, d: nat, c: string, rest: seq<string>)
    requires TreeOk(nodes, kids) && d < |nodes|
    ensures var next := Child(nodes, kids, d, c);
            && (next.None? ==> Resolve(nodes, kids, d, [c] + rest) == None)
            && (next.Some? ==> next.value < |nodes| &&
                               Resolve(nodes, kids, d, [c] + rest) == Resolve(nodes, kids, next.value, rest))
  {
    hide TreeOk, Child;
    if Child(nodes, kids, d, c).Some? { ChildInTree(nodes, kids, d, c); }
    assert ([c] + rest)[1..] == rest;
  }

  lemma ResolveNone(nodes: Nodes, kids: Kids, d: nat)
    requires TreeOk(nodes, kids) && d < |nodes|
    ensures Resolve(nodes, kids, d, []) == Some(d)
  {
  }

  /** The components from place `i` on. */
  ghost function Rest(path: string, i: nat): seq<string>
    requires i <= |path|
  {
    Comps(path[i..])
  }

  lemma RestEnds(path: string)
    ensures Rest(path, 0) == Comps(path) && Rest(path, |path|) == []
  {
  }

  method SkipSlashes(path: string, start: nat) returns (index: nat)
    requires start <= |path|
    ensures start <= index <= |path| && Rest(path, start) == Rest(path, index)
    ensures index < |path| ==> path[index] != '/'
  {
    index := start;
    while index < |path| && path[index] == '/'
      invariant start <= index <= |path| && Rest(path, start) == Rest(path, index)
    {
      assert path[index..][1..] == path[index + 1..];
      index := index + 1;
    }
  }

  /** The end of the component that begins at `start`. The source gives up once a component reaches 32
      characters; the caller does so here. */
  method ComponentEnd(path: string, start: nat) returns (end: nat)
    requires start < |path| && path[start] != '/'
    ensures start < end <= |path|
    ensures Rest(path, start) == [path[start..end]] + Rest(path, end)
  {
    end := start;
    while end < |path| && path[end] != '/'
      invariant start <= end <= |path| && forall i :: start <= i < end ==> path[i] != '/'
    {
      end := end + 1;
    }
    CompLenIs(path[start..], end - start);
    assert path[start..][..end - start] == path[start..end] && path[start..][end - start..] == path[end..];
  }
}
