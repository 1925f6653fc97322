/** The file tree: nodes linked by first child and next sibling, and what paths lead to (kernel/ramfs.c,
    kernel/vfs.c). */
module Tree {
  import opened Options
  import opened Sequences

  const NAME_MAX: nat := 32

  datatype Kind = File | Dir | Device

  datatype Node = Node(name: string, kind: Kind, parent: Option<nat>, firstChild: Option<nat>, nextSibling: Option<nat>,
                       data: seq<nat>, capacity: nat)

  type Nodes = seq<Node>

  type Kids = seq<seq<nat>>

  /** The children of `d` are linked in order; children are created after their parent. */
  ghost predicate ListOk(nodes: Nodes, d: nat, q: seq<nat>) {
    && d < |nodes| && nodes[d].firstChild == First(q)
    && (forall i :: 0 <= i < |q| ==> d < q[i] < |nodes|)
    && (forall i :: 0 <= i < |q| ==> nodes[q[i]].nextSibling == After(q, i) && nodes[q[i]].parent == Some(d))
    && (forall i, j :: 0 <= i < j < |q| ==> q[i] < q[j])
    && (q != [] ==> nodes[d].kind.Dir?)
  }

  /** Node 0 is the root directory; `kids` lists the children of every node. */
  ghost predicate TreeOk(nodes: Nodes, kids: Kids) {
    && 0 < |nodes| == |kids| && nodes[0].kind.Dir?
    && (forall d :: 0 <= d < |nodes| ==> ListOk(nodes, d, kids[d]) && |nodes[d].name| < NAME_MAX)
  }

  /** The first of the nodes `q` from index `i` on that is called `name`. */
  ghost function Named(nodes: Nodes, q: seq<nat>, i: nat, name: string): Option<nat>
    requires i <= |q| && forall k :: 0 <= k < |q| ==> q[k] < |nodes|
    decreases |q| - i
  {
    if i == |q| then None
    else if nodes[q[i]].name == name then Some(q[i])
    else Named(nodes, q, i + 1, name)
  }

  ghost function Child(nodes: Nodes, kids: Kids, d: nat, name: string): (r: Option<nat>)
    requires TreeOk(nodes, kids) && d < |nodes|
  {
    assert ListOk(nodes, d, kids[d]);
    Named(nodes, kids[d], 0, name)
  }

  lemma ChildInTree(nodes: Nodes, kids: Kids, d: nat, name: string)
    requires TreeOk(nodes, kids) && d < |nodes| && Child(nodes, kids, d, name).Some?
    ensures d < Child(nodes, kids, d, name).value < |nodes| && nodes[d].kind.Dir?
    ensures nodes[Child(nodes, kids, d, name).value].name == name
  {
    assert ListOk(nodes, d, kids[d]);
    NamedIn(nodes, kids[d], 0, name);
  }

  lemma {:induction false} NamedIn(nodes: Nodes, q: seq<nat>, i: nat, name: string)
    requires i <= |q| && forall k :: 0 <= k < |q| ==> q[k] < |nodes|
    ensures var r := Named(nodes, q, i, name);
            if r.Some? then exists k :: i <= k < |q| && q[k] == r.value && nodes[q[k]].name == name
            else forall k :: i <= k < |q| ==> nodes[q[k]].name != name
    decreases |q| - i
  {
    if i < |q| {
      NamedIn(nodes, q, i + 1, name);
      if nodes[q[i]].name == name { assert q[i] == Named(nodes, q, i, name).value; }
    }
  }

  /** The node that a sequence of names leads to from `d`. */
  ghost function Resolve(nodes: Nodes, kids: Kids, d: nat, names: seq<string>): (r: Option<nat>)
    requires TreeOk(nodes, kids) && d < |nodes|
    ensures r.Some? ==> r.value < |nodes|
    decreases |names|
  {
    if names == [] then Some(d)
    else
      match Child(nodes, kids, d, names[0])
      case None => None
      case Some(c) => ChildInTree(nodes, kids, d, names[0]); Resolve(nodes, kids, c, names[1..])
  }

  lemma {:induction false} ResolveAppend(nodes: Nodes, kids: Kids, d: nat, a: seq<string>, b: seq<string>)
    requires TreeOk(nodes, kids) && d < |nodes|
    ensures var r := Resolve(nodes, kids, d, a);
            Resolve(nodes, kids, d, a + b) == if r.Some? then Resolve(nodes, kids, r.value, b) else None
    decreases |a|
  {
    if a == [] {
      assert a + b == b;
    } else {
      assert (a + b)[0] == a[0] && (a + b)[1..] == a[1..] + b;
      var c := Child(nodes, kids, d, a[0]);
      if c.Some? {
        ChildInTree(nodes, kids, d, a[0]);
        ResolveAppend(nodes, kids, c.value, a[1..], b);
      }
    }
  }

  /** A name too long for a node leads nowhere. */
  lemma LongName(nodes: Nodes, kids: Kids, d: nat, names: seq<string>)
    requires TreeOk(nodes, kids) && d < |nodes| && names != [] && |names[0]| >= NAME_MAX
    ensures Resolve(nodes, kids, d, names).None?
  {
    if Child(nodes, kids, d, names[0]).Some? { ChildInTree(nodes, kids, d, names[0]); }
  }

  // ---------- adding a node ----------

  /** The nodes once a new node with the given contents is the last child of directory `d`. */
  function Added(nodes: Nodes, d: nat, last: Option<nat>, name: string, kind: Kind, data: seq<nat>): Nodes
    requires d < |nodes| && (last.Some? ==> last.value < |nodes|)
  {
    var id := |nodes|;
    var n := nodes + [Node(name, kind, Some(d), None, None, data, |data|)];
    if last.None? then n[d := n[d].(firstChild := Some(id))]
    else n[last.value := n[last.value].(nextSibling := Some(id))]
  }

  ghost function AddedKids(kids: Kids, d: nat): Kids
    requires d < |kids|
  {
    (kids + [[]])[d := kids[d] + [|kids|]]
  }

  /** What adding a node changes: one link. */
  lemma AddedAt(nodes: Nodes, d: nat, last: Option<nat>, name: string, kind: Kind, data: seq<nat>, k: nat)
    requires d < |nodes| && (last.Some? ==> last.value < |nodes|) && k <= |nodes|
    ensures var n := Added(nodes, d, last, name, kind, data);
            && |n| == |nodes| + 1
            && n[k] == if k == |nodes| then Node(name, kind, Some(d), None, None, data, |data|)
                       else if last == None && k == d then nodes[k].(firstChild := Some(|nodes|))
                       else if last == Some(k) then nodes[k].(nextSibling := Some(|nodes|))
                       else nodes[k]
  {
  }

  lemma AddedOther(nodes: Nodes, nodes': Nodes, kids: Kids, d: nat, name: string, kind: Kind, data: seq<nat>, e: nat)
    requires TreeOk(nodes, kids) && d < |nodes| && e < |nodes| && e != d
    requires Last(kids[d]).Some? ==> Last(kids[d]).value < |nodes|
    requires nodes' == Added(nodes, d, Last(kids[d]), name, kind, data)
    ensures ListOk(nodes', e, kids[e])
  {
    hide Added;
    var q, last := kids[e], Last(kids[d]);
    assert ListOk(nodes, d, kids[d]) && ListOk(nodes, e, q);
    AddedAt(nodes, d, last, name, kind, data, e);
    forall i | 0 <= i < |q| ensures nodes'[q[i]].nextSibling == After(q, i) && nodes'[q[i]].parent == Some(e) {
      assert nodes[q[i]].parent == Some(e);
      AddedAt(nodes, d, last, name, kind, data, q[i]);
    }
  }

  lemma AddedLink(nodes: Nodes, nodes': Nodes, q: seq<nat>, d: nat, name: string, kind: Kind, data: seq<nat>, i: nat)
    requires ListOk(nodes, d, q) && i <= |q|
    requires nodes' == Added(nodes, d, Last(q), name, kind, data)
    ensures var q' := q + [|nodes|];
            && d < q'[i] < |nodes'| && nodes'[q'[i]].nextSibling == After(q', i) && nodes'[q'[i]].parent == Some(d)
  {
  }

  lemma AddedHere(nodes: Nodes, nodes': Nodes, q: seq<nat>, d: nat, name: string, kind: Kind, data: seq<nat>)
    requires ListOk(nodes, d, q) && nodes[d].kind.Dir?
    requires nodes' == Added(nodes, d, Last(q), name, kind, data)
    ensures ListOk(nodes', d, q + [|nodes|])
  {
    hide Added;
    var q' := q + [|nodes|];
    AddedAt(nodes, d, Last(q), name, kind, data, d);
    forall i: nat | i < |q'|
      ensures d < q'[i] < |nodes'| && nodes'[q'[i]].nextSibling == After(q', i) && nodes'[q'[i]].parent == Some(d)
    {
      AddedLink(nodes, nodes', q, d, name, kind, data, i);
    }
  }

  lemma AddedTree(nodes: Nodes, kids: Kids, d: nat, name: string, kind: Kind, data: seq<nat>)
    requires TreeOk(nodes, kids) && d < |nodes| && nodes[d].kind.Dir? && |name| < NAME_MAX
    ensures Last(kids[d]).Some? ==> Last(kids[d]).value < |nodes|
    ensures TreeOk(Added(nodes, d, Last(kids[d]), name, kind, data), AddedKids(kids, d))
  {
    hide Added, ListOk;
    assert Last(kids[d]).Some? ==> Last(kids[d]).value < |nodes| by { LastInTree(nodes, kids, d); }
    var nodes', kids' := Added(nodes, d, Last(kids[d]), name, kind, data), AddedKids(kids, d);
    AddedAt(nodes, d, Last(kids[d]), name, kind, data, 0);
    forall e | 0 <= e < |nodes'| ensures ListOk(nodes', e, kids'[e]) && |nodes'[e].name| < NAME_MAX {
      AddedAt(nodes, d, Last(kids[d]), name, kind, data, e);
      if e == d {
        AddedHere(nodes, nodes', kids[d], d, name, kind, data);
      } else if e < |nodes| {
        AddedOther(nodes, nodes', kids, d, name, kind, data, e);
      } else {
        NoKids(nodes', e);
      }
    }
  }

  lemma LastInTree(nodes: Nodes, kids: Kids, d: nat)
    requires TreeOk(nodes, kids) && d < |nodes|
    ensures Last(kids[d]).Some? ==> Last(kids[d]).value < |nodes|
  {
  }

  lemma NoKids(nodes: Nodes, d: nat)
    requires d < |nodes| && nodes[d].firstChild.None?
    ensures ListOk(nodes, d, [])
  {
  }

  // ---------- what paths lead to after adding a node ----------

  lemma {:induction false} NamedSame(nodes: Nodes, nodes': Nodes, q: seq<nat>, more: seq<nat>, i: nat, name: string)
    requires i <= |q| && |nodes| <= |nodes'|
    requires forall k :: 0 <= k < |q| ==> q[k] < |nodes| && nodes'[q[k]].name == nodes[q[k]].name
    requires forall k :: 0 <= k < |more| ==> more[k] < |nodes'|
    ensures Named(nodes', q + more, i, name) ==
            if Named(nodes, q, i, name).Some? then Named(nodes, q, i, name) else Named(nodes', more, 0, name)
    decreases |q| - i
  {
    if i < |q| {
      NamedSame(nodes, nodes', q, more, i + 1, name);
    } else {
      NamedShift(nodes', q, more, 0, name);
    }
  }

  lemma {:induction false} NamedShift(nodes: Nodes, q: seq<nat>, more: seq<nat>, i: nat, name: string)
    requires i <= |more| && forall k :: 0 <= k < |more| ==> more[k] < |nodes|
    requires forall k :: 0 <= k < |q| ==> q[k] < |nodes|
    ensures Named(nodes, q + more, |q| + i, name) == Named(nodes, more, i, name)
    decreases |more| - i
  {
    if i < |more| { NamedShift(nodes, q, more, i + 1, name); }
  }

  /** Adding node `name` to `d`: old children are found as before, the new one under its name. */
  lemma AddedChild(nodes: Nodes, nodes': Nodes, kids: Kids, d: nat, name: string, kind: Kind, data: seq<nat>, e: nat,
                   n: string)
    requires TreeOk(nodes, kids) && d < |nodes| && e < |nodes|
    requires Last(kids[d]).Some? ==> Last(kids[d]).value < |nodes|
    requires nodes' == Added(nodes, d, Last(kids[d]), name, kind, data) && TreeOk(nodes', AddedKids(kids, d))
    ensures var r := Child(nodes, kids, e, n);
            Child(nodes', AddedKids(kids, d), e, n) ==
            if r.Some? then r else if e == d && n == name then Some(|nodes|) else None
  {
    hide Added;
    var q, last, kids' := kids[e], Last(kids[d]), AddedKids(kids, d);
    var more := if e == d then [|nodes|] else [];
    assert kids'[e] == q + more;
    assert ListOk(nodes, e, q);
    hide TreeOk, AddedKids, ListOk, Last;
    forall k | 0 <= k < |q| ensures nodes'[q[k]].name == nodes[q[k]].name {
      AddedAt(nodes, d, last, name, kind, data, q[k]);
    }
    AddedAt(nodes, d, last, name, kind, data, |nodes|);
    NamedSame(nodes, nodes', q, more, 0, n);
    assert e == d ==> Named(nodes', more, 1, n) == None;
  }

  /** What was found before is found afterwards. */
  lemma {:induction false} AddedResolve(nodes: Nodes, nodes': Nodes, kids: Kids, d: nat, name: string, kind: Kind,
                                        data: seq<nat>, e: nat, names: seq<string>)
    requires TreeOk(nodes, kids) && d < |nodes| && e < |nodes|
    requires Last(kids[d]).Some? ==> Last(kids[d]).value < |nodes|
    requires nodes' == Added(nodes, d, Last(kids[d]), name, kind, data) && TreeOk(nodes', AddedKids(kids, d))
    requires |nodes'| == |nodes| + 1
    ensures Resolve(nodes, kids, e, names).Some? ==>
              Resolve(nodes', AddedKids(kids, d), e, names) == Resolve(nodes, kids, e, names)
    decreases |names|
  {
    hide Added, TreeOk, Child;
    if names != [] && Resolve(nodes, kids, e, names).Some? {
      AddedChild(nodes, nodes', kids, d, name, kind, data, e, names[0]);
      ChildInTree(nodes, kids, e, names[0]);
      AddedResolve(nodes, nodes', kids, d, name, kind, data, Child(nodes, kids, e, names[0]).value, names[1..]);
    }
  }

  /** What is found only afterwards is the new node, under `d`. */
  lemma {:induction false} AddedOnly(nodes: Nodes, nodes': Nodes, kids: Kids, d: nat, name: string, kind: Kind,
                                     data: seq<nat>, e: nat, names: seq<string>)
    requires TreeOk(nodes, kids) && d < |nodes| && e < |nodes|
    requires Last(kids[d]).Some? ==> Last(kids[d]).value < |nodes|
    requires nodes' == Added(nodes, d, Last(kids[d]), name, kind, data) && TreeOk(nodes', AddedKids(kids, d))
    requires Resolve(nodes', AddedKids(kids, d), e, names).Some? && Resolve(nodes, kids, e, names).None?
    ensures names != [] && Resolve(nodes, kids, e, names[..|names| - 1]) == Some(d) && names[|names| - 1] == name
    ensures Resolve(nodes', AddedKids(kids, d), e, names) == Some(|nodes|)
    decreases |names|
  {
    hide Added, TreeOk, Child, AddedKids;
    AddedChild(nodes, nodes', kids, d, name, kind, data, e, names[0]);
    var c := Child(nodes, kids, e, names[0]);
    if c.Some? {
      ChildInTree(nodes, kids, e, names[0]);
      AddedOnly(nodes, nodes', kids, d, name, kind, data, c.value, names[1..]);
      assert names[..|names| - 1][0] == names[0] && names[..|names| - 1][1..] == names[1..][..|names| - 2];
    } else if |names| > 1 {
      NewHasNoKids(nodes, nodes', kids, d, name, kind, data, names[1..][0]);
    }
  }

  lemma NewHasNoKids(nodes: Nodes, nodes': Nodes, kids: Kids, d: nat, name: string, kind: Kind, data: seq<nat>,
                     n: string)
    requires TreeOk(nodes, kids) && d < |nodes|
    requires Last(kids[d]).Some? ==> Last(kids[d]).value < |nodes|
    requires nodes' == Added(nodes, d, Last(kids[d]), name, kind, data) && TreeOk(nodes', AddedKids(kids, d))
    ensures |nodes'| == |nodes| + 1 && Child(nodes', AddedKids(kids, d), |nodes|, n) == None
  {
    assert AddedKids(kids, d)[|nodes|] == [];
  }
}
