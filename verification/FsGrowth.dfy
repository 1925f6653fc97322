/** How the file tree grows: old paths keep their nodes, new paths lead to the new nodes and nowhere else. */
module FsGrowth {
  import opened Options
  import opened Sequences
  import opened Tree

  datatype Fs = Fs(nodes: Nodes, kids: Kids)

  ghost predicate Ok(s: Fs) {
    TreeOk(s.nodes, s.kids)
  }

  /** What a path leads to. */
  ghost function At(s: Fs, path: seq<string>): (r: Option<nat>)
    requires Ok(s)
    ensures r.Some? ==> r.value < |s.nodes|
  {
    Resolve(s.nodes, s.kids, 0, path)
  }

  lemma RootAt(s: Fs)
    requires Ok(s)
    ensures At(s, []) == Some(0) && s.nodes[0].kind.Dir?
  {
  }

  /** The last step of a path. */
  lemma AtSnoc(s: Fs, path: seq<string>, name: string)
    requires Ok(s)
    ensures At(s, path).None? ==> At(s, path + [name]).None?
    ensures At(s, path).Some? ==> At(s, path + [name]) == Child(s.nodes, s.kids, At(s, path).value, name)
    ensures At(s, path + [name]).Some? ==> At(s, path).Some? && s.nodes[At(s, path).value].kind.Dir?
  {
    RootAt(s);
    hide TreeOk, Child;
    ResolveAppend(s.nodes, s.kids, 0, path, [name]);
    if At(s, path).Some? {
      var c := Child(s.nodes, s.kids, At(s, path).value, name);
      if c.Some? {
        ChildInTree(s.nodes, s.kids, At(s, path).value, name);
        assert [name][1..] == [];
      }
    }
  }

  lemma ChildParent(s: Fs, d: nat, name: string)
    requires Ok(s) && d < |s.nodes| && Child(s.nodes, s.kids, d, name).Some?
    ensures var c := Child(s.nodes, s.kids, d, name).value;
            d < c < |s.nodes| && s.nodes[c].parent == Some(d) && s.nodes[c].name == name
  {
    assert ListOk(s.nodes, d, s.kids[d]);
    NamedIn(s.nodes, s.kids[d], 0, name);
  }

  /** No node has two paths. */
  lemma {:induction false} OnePath(s: Fs, p: seq<string>, q: seq<string>)
    requires Ok(s) && At(s, p).Some? && At(s, p) == At(s, q)
    ensures p == q
    decreases |p|
  {
    hide TreeOk, Child, Resolve;
    RootAt(s);
    if p != [] { LastStep(s, p); }
    if q != [] { LastStep(s, q); }
    if p != [] && q != [] {
      OnePath(s, p[..|p| - 1], q[..|q| - 1]);
      assert p == p[..|p| - 1] + [p[|p| - 1]] && q == q[..|q| - 1] + [q[|q| - 1]];
    }
  }

  lemma LastStep(s: Fs, p: seq<string>)
    requires Ok(s) && p != [] && At(s, p).Some?
    ensures var x := At(s, p).value;
            && x > 0 && x < |s.nodes| && s.nodes[x].parent == At(s, p[..|p| - 1]) && s.nodes[x].name == p[|p| - 1]
    ensures At(s, p[..|p| - 1]).Some?
  {
    hide TreeOk, Child, Resolve;
    var q, n := p[..|p| - 1], p[|p| - 1];
    assert p == q + [n];
    AtSnoc(s, q, n);
    ChildParent(s, At(s, q).value, n);
  }

  // ---------- growth ----------

  /** Old paths and nodes stay. */
  ghost predicate Kept(s: Fs, s': Fs) {
    && Ok(s) && Ok(s') && |s.nodes| <= |s'.nodes|
    && (forall p :: At(s, p).Some? ==> At(s', p) == At(s, p))
    && (forall id :: 0 <= id < |s.nodes| ==>
                     s'.nodes[id].kind == s.nodes[id].kind && s'.nodes[id].data == s.nodes[id].data)
  }

  /** A path leads to a directory. */
  ghost predicate IsDir(s: Fs, p: seq<string>)
    requires Ok(s)
  {
    At(s, p).Some? && s.nodes[At(s, p).value].kind.Dir?
  }

  ghost predicate IsFile(s: Fs, p: seq<string>, data: seq<nat>)
    requires Ok(s)
  {
    At(s, p).Some? && s.nodes[At(s, p).value].kind.File? && s.nodes[At(s, p).value].data == data
  }

  /** New paths are beginnings of `path`, leading to directories; `path` itself may be the file `leaf`. */
  ghost predicate Grew(s: Fs, s': Fs, path: seq<string>, leaf: Option<seq<nat>>) {
    && Kept(s, s')
    && forall p :: At(s', p).Some? && At(s, p).None? ==>
         p <= path && if leaf.Some? && p == path then IsFile(s', p, leaf.value) else IsDir(s', p)
  }

  lemma GrewNone(s: Fs, path: seq<string>, leaf: Option<seq<nat>>)
    requires Ok(s)
    ensures Grew(s, s, path, leaf)
  {
  }

  lemma IsDirKept(s: Fs, s': Fs, p: seq<string>)
    requires Kept(s, s') && IsDir(s, p)
    ensures IsDir(s', p)
  {
  }

  lemma GrewTrans(s: Fs, s1: Fs, s2: Fs, p1: seq<string>, p2: seq<string>, leaf: Option<seq<nat>>)
    requires Grew(s, s1, p1, None) && Grew(s1, s2, p2, leaf) && p1 <= p2 && (leaf.Some? ==> p1 != p2)
    ensures Grew(s, s2, p2, leaf)
  {
    hide TreeOk, Resolve;
    forall p | At(s2, p).Some? && At(s, p).None?
      ensures p <= p2 && if leaf.Some? && p == p2 then IsFile(s2, p, leaf.value) else IsDir(s2, p)
    {
      if At(s1, p).Some? { IsDirKept(s1, s2, p); }
    }
  }

  /** Node `name` of the given kind was added below `d`. */
  ghost predicate Creates(s: Fs, s': Fs, d: nat, name: string, kind: Kind, data: seq<nat>) {
    && Ok(s) && d < |s.nodes| && s.nodes[d].kind.Dir? && |name| < NAME_MAX
    && (Last(s.kids[d]).Some? ==> Last(s.kids[d]).value < |s.nodes|)
    && s'.nodes == Added(s.nodes, d, Last(s.kids[d]), name, kind, data) && s'.kids == AddedKids(s.kids, d)
  }

  lemma CreatedAt(s: Fs, s': Fs, path: seq<string>, name: string, kind: Kind, data: seq<nat>)
    requires Ok(s) && IsDir(s, path) && At(s, path + [name]).None?
    requires Creates(s, s', At(s, path).value, name, kind, data)
    ensures Kept(s, s') && At(s', path + [name]) == Some(|s.nodes|)
    ensures s'.nodes[|s.nodes|].kind == kind && s'.nodes[|s.nodes|].data == data
  {
    var d := At(s, path).value;
    AddedTree(s.nodes, s.kids, d, name, kind, data);
    CreateKept(s, s', d, name, kind, data);
    AddedChild(s.nodes, s'.nodes, s.kids, d, name, kind, data, d, name);
    AddedAt(s.nodes, d, Last(s.kids[d]), name, kind, data, |s.nodes|);
    hide Added, TreeOk, Child, Resolve, AddedKids, Last;
    AtSnoc(s, path, name);
    AtSnoc(s', path, name);
  }

  lemma CreatedOnly(s: Fs, s': Fs, path: seq<string>, name: string, kind: Kind, data: seq<nat>, p: seq<string>)
    requires Ok(s) && IsDir(s, path) && Creates(s, s', At(s, path).value, name, kind, data)
    requires Ok(s') && At(s', p).Some? && At(s, p).None?
    ensures p == path + [name]
  {
    hide Added, TreeOk, Child, Resolve, AddedKids, Last;
    RootAt(s);
    AddedOnly(s.nodes, s'.nodes, s.kids, At(s, path).value, name, kind, data, 0, p);
    OnePath(s, p[..|p| - 1], path);
    assert p == p[..|p| - 1] + [p[|p| - 1]];
  }

  /** Creating a node called `name`, which is not there yet, below the directory at `path`. */
  lemma CreateGrew(s: Fs, s': Fs, path: seq<string>, name: string, kind: Kind, data: seq<nat>)
    requires Ok(s) && IsDir(s, path) && At(s, path + [name]).None? && !kind.Device?
    requires Creates(s, s', At(s, path).value, name, kind, data)
    ensures Grew(s, s', path + [name], if kind.File? then Some(data) else None)
    ensures At(s', path + [name]) == Some(|s.nodes|)
    ensures if kind.File? then IsFile(s', path + [name], data) else IsDir(s', path + [name])
  {
    CreatedAt(s, s', path, name, kind, data);
    hide Creates, TreeOk, Resolve;
    forall p | At(s', p).Some? && At(s, p).None? ensures p == path + [name] {
      CreatedOnly(s, s', path, name, kind, data, p);
    }
  }

  lemma CreateKept(s: Fs, s': Fs, d: nat, name: string, kind: Kind, data: seq<nat>)
    requires Ok(s) && Ok(s') && d < |s.nodes| && (Last(s.kids[d]).Some? ==> Last(s.kids[d]).value < |s.nodes|)
    requires s'.nodes == Added(s.nodes, d, Last(s.kids[d]), name, kind, data) && s'.kids == AddedKids(s.kids, d)
    ensures Kept(s, s')
  {
    forall p | At(s, p).Some? ensures At(s', p) == At(s, p) {
      AddedResolve(s.nodes, s'.nodes, s.kids, d, name, kind, data, 0, p);
    }
    forall id | 0 <= id < |s.nodes|
      ensures s'.nodes[id].kind == s.nodes[id].kind && s'.nodes[id].data == s.nodes[id].data
    {
      AddedAt(s.nodes, d, Last(s.kids[d]), name, kind, data, id);
    }
  }
}
