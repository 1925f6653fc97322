/** Paths as sequences of components. */
module Paths {

  /** The characters before the first slash. */
  function CompLen(p: string): (n: nat)
    ensures n <= |p| && (forall i :: 0 <= i < n ==> p[i] != '/') && (n < |p| ==> p[n] == '/')
  {
    if p == "" || p[0] == '/' then 0 else 1 + CompLen(p[1..])
  }

  /** The components of a path: what lies between slashes, leaving out the empty ones. */
  function Comps(p: string): seq<string> {
    if p == "" then []
    else if p[0] == '/' then Comps(p[1..])
    else [p[..CompLen(p)]] + Comps(p[CompLen(p)..])
  }

  predicate NoSlash(c: string) {
    forall i :: 0 <= i < |c| ==> c[i] != '/'
  }

  lemma CompLenIs(p: string, n: nat)
    requires n <= |p| && (forall i :: 0 <= i < n ==> p[i] != '/') && (n < |p| ==> p[n] == '/')
    ensures CompLen(p) == n
  {
  }

  /** One component. */
  lemma OneComp(c: string)
    requires c != "" && NoSlash(c)
    ensures Comps(c) == [c]
  {
    CompLenIs(c, |c|);
    assert c[..|c|] == c && c[|c|..] == "";
  }

  /** A slash separates components. */
  lemma {:induction false} CompsSlash(a: string, b: string)
    ensures Comps(a + "/" + b) == Comps(a) + Comps(b)
    decreases |a|
  {
    var p := a + "/" + b;
    if a == "" {
      assert p[1..] == b;
    } else if a[0] == '/' {
      assert p[1..] == a[1..] + "/" + b;
      CompsSlash(a[1..], b);
    } else {
      var n := CompLen(a);
      CompLenIs(p, n);
      assert p[..n] == a[..n] && p[n..] == a[n..] + "/" + b;
      CompsSlash(a[n..], b);
    }
  }

  /** Repeated and trailing slashes do not matter. */
  lemma SlashesIgnored(a: string, b: string)
    ensures Comps(a + "//" + b) == Comps(a + "/" + b) && Comps(a + "/") == Comps(a) && Comps("/" + b) == Comps(b)
  {
    CompsSlash(a, b);
    CompsSlash(a, "/" + b);
    CompsSlash("", b);
    CompsSlash(a, "");
    assert a + "//" + b == a + "/" + ("/" + b);
    assert a + "/" + "" == a + "/";
    assert "" + "/" + b == "/" + b;
  }

  lemma {:induction false} CompsPlain(p: string)
    ensures forall i :: 0 <= i < |Comps(p)| ==> Comps(p)[i] != "" && NoSlash(Comps(p)[i])
    decreases |p|
  {
    if p != "" {
      if p[0] == '/' { CompsPlain(p[1..]); } else { CompsPlain(p[CompLen(p)..]); }
    }
  }
}
