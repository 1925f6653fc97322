/** What the file tree is once archive entries have been loaded into it. */
module ArchiveTree {
  import opened Options
  import opened Sequences
  import opened Paths
  import opened Tree
  import opened Vfs
  import opened FsGrowth
  import opened Ustar

  /** The node names of a path: its components, cut to what a node can hold. */
  function Names(path: string): seq<string> {
    ClipAll(Comps(path))
  }

  function ClipAll(cs: seq<string>): (r: seq<string>)
    ensures |r| == |cs|
  {
    seq(|cs|, i requires 0 <= i < |cs| => Clip(cs[i]))
  }

  lemma ShortNames(path: string)
    requires forall i :: 0 <= i < |Comps(path)| ==> |Comps(path)[i]| < NAME_MAX
    ensures Names(path) == Comps(path)
  {
  }

  function PathOf(e: Entry): seq<string> {
    Names(e.path)
  }

  /** Path `p` is there because of entry `e`: a directory on the way, or the file itself. */
  ghost predicate Because(s: Fs, p: seq<string>, e: Entry)
    requires Ok(s)
  {
    p <= PathOf(e) && (IsDir(s, p) || (p == PathOf(e) && !e.dir && IsFile(s, p, e.data)))
  }

  /** A file entry that is the first at its path, which was not there before. */
  ghost predicate Due(s0: Fs, es: seq<Entry>, j: nat)
    requires Ok(s0) && j < |es|
  {
    && !es[j].dir && At(s0, PathOf(es[j])).None?
    && forall i :: 0 <= i < j && !es[i].dir ==> PathOf(es[i]) != PathOf(es[j])
  }

  /** No path is both file and directory. */
  ghost predicate Consistent(s0: Fs, es: seq<Entry>)
    requires Ok(s0)
  {
    && (forall i, j :: 0 <= i < |es| && 0 <= j < |es| && !es[i].dir ==>
          !(PathOf(es[i]) < PathOf(es[j])) && (es[j].dir ==> PathOf(es[i]) != PathOf(es[j])))
    && (forall j, p :: 0 <= j < |es| && p < PathOf(es[j]) && At(s0, p).Some? ==> IsDir(s0, p))
  }

  /** A directory entry whose path was free before or led to a directory. */
  ghost predicate DueDir(s0: Fs, e: Entry)
    requires Ok(s0)
  {
    e.dir && (At(s0, PathOf(e)).Some? ==> IsDir(s0, PathOf(e)))
  }

  /** Old paths stay; new ones come from entries; each due file is in place with its bytes and each due
      directory is there. */
  ghost predicate Loaded(s0: Fs, s: Fs, es: seq<Entry>) {
    && Kept(s0, s)
    && (forall p :: At(s, p).Some? && At(s0, p).None? ==> exists j :: 0 <= j < |es| && Because(s, p, es[j]))
    && (Consistent(s0, es) ==> forall j :: 0 <= j < |es| && Due(s0, es, j) ==> IsFile(s, PathOf(es[j]), es[j].data))
    && (Consistent(s0, es) ==> forall j :: 0 <= j < |es| && DueDir(s0, es[j]) ==> IsDir(s, PathOf(es[j])))
  }

  lemma LoadedNone(s: Fs)
    requires Ok(s)
    ensures Loaded(s, s, [])
  {
  }

  /** Nothing but directories above a path. */
  ghost predicate Clear(s: Fs, path: seq<string>)
    requires Ok(s)
  {
    forall p :: p < path && At(s, p).Some? ==> IsDir(s, p)
  }

  lemma KeptFile(s: Fs, s': Fs, p: seq<string>, data: seq<nat>)
    requires Kept(s, s') && IsFile(s, p, data)
    ensures IsFile(s', p, data)
  {
  }

  lemma BecauseKept(s: Fs, s': Fs, p: seq<string>, e: Entry)
    requires Kept(s, s') && At(s, p).Some? && Because(s, p, e)
    ensures Because(s', p, e)
  {
    if IsDir(s, p) { IsDirKept(s, s', p); } else { KeptFile(s, s', p, e.data); }
  }

  lemma KeptTrans(s: Fs, s1: Fs, s2: Fs)
    requires Kept(s, s1) && Kept(s1, s2)
    ensures Kept(s, s2)
  {
  }

  lemma {:induction false} FewerEntries(s0: Fs, es: seq<Entry>, e: Entry)
    requires Ok(s0) && Consistent(s0, es + [e])
    ensures Consistent(s0, es)
  {
    var all := es + [e];
    assert forall i :: 0 <= i < |es| ==> all[i] == es[i];
  }

  lemma DueBefore(s0: Fs, es: seq<Entry>, e: Entry, j: nat)
    requires Ok(s0) && j < |es| && Due(s0, es + [e], j)
    ensures Due(s0, es, j)
  {
    var all := es + [e];
    assert all[j] == es[j];
    forall i | 0 <= i < j && !es[i].dir ensures PathOf(es[i]) != PathOf(es[j]) {
      assert all[i] == es[i];
    }
  }

  lemma NewBecause(s0: Fs, s: Fs, s': Fs, es: seq<Entry>, e: Entry, p: seq<string>)
    requires Loaded(s0, s, es) && Grew(s, s', PathOf(e), if e.dir then None else Some(e.data))
    requires At(s', p).Some? && At(s0, p).None?
    ensures exists j :: 0 <= j < |es + [e]| && Because(s', p, (es + [e])[j])
  {
    hide TreeOk, Resolve, Consistent, Names;
    var all := es + [e];
    if At(s, p).Some? {
      var j :| 0 <= j < |es| && Because(s, p, es[j]);
      BecauseKept(s, s', p, es[j]);
      assert all[j] == es[j];
    } else {
      assert all[|es|] == e;
    }
  }

  /** Before a due file is loaded its path is free and only directories lie above it. */
  lemma DueIsFree(s0: Fs, s: Fs, es: seq<Entry>, e: Entry)
    requires Loaded(s0, s, es) && Consistent(s0, es + [e]) && Due(s0, es + [e], |es|)
    ensures At(s, PathOf(e)).None? && Clear(s, PathOf(e))
  {
    hide TreeOk, Resolve, Names;
    var all := es + [e];
    assert all[|es|] == e && forall j :: 0 <= j < |es| ==> all[j] == es[j];
    if At(s, PathOf(e)).Some? {
      var j :| 0 <= j < |es| && Because(s, PathOf(e), es[j]);
      assert false;
    }
    forall p | p < PathOf(e) && At(s, p).Some? ensures IsDir(s, p) {
      if At(s0, p).Some? {
        OldDir(s0, s, all, |es|, p);
      } else {
        var j :| 0 <= j < |es| && Because(s, p, es[j]);
      }
    }
  }

  lemma OldDir(s0: Fs, s: Fs, es: seq<Entry>, j: nat, p: seq<string>)
    requires Kept(s0, s) && Consistent(s0, es) && j < |es| && p < PathOf(es[j]) && At(s0, p).Some?
    ensures IsDir(s, p)
  {
    hide TreeOk, Resolve, Names;
    IsDirKept(s0, s, p);
  }

  /** Before a due directory is loaded only directories lie above it and at its path. */
  lemma DueDirIsFree(s0: Fs, s: Fs, es: seq<Entry>, e: Entry)
    requires Loaded(s0, s, es) && Consistent(s0, es + [e]) && DueDir(s0, e)
    ensures Clear(s, PathOf(e)) && (At(s, PathOf(e)).Some? ==> IsDir(s, PathOf(e)))
  {
    hide TreeOk, Resolve, Names;
    var all := es + [e];
    assert all[|es|] == e && forall j :: 0 <= j < |es| ==> all[j] == es[j];
    forall p | p <= PathOf(e) && At(s, p).Some? ensures IsDir(s, p) {
      if At(s0, p).Some? {
        if p == PathOf(e) { IsDirKept(s0, s, p); } else { OldDir(s0, s, all, |es|, p); }
      } else {
        var j :| 0 <= j < |es| && Because(s, p, es[j]);
      }
    }
  }

  lemma LoadedDir(s0: Fs, s: Fs, s': Fs, es: seq<Entry>, e: Entry, j: nat)
    requires Loaded(s0, s, es) && Kept(s, s') && Consistent(s0, es) && Consistent(s0, es + [e])
    requires e.dir && Clear(s, PathOf(e)) && (At(s, PathOf(e)).Some? ==> IsDir(s, PathOf(e))) ==> IsDir(s', PathOf(e))
    requires j < |es + [e]| && DueDir(s0, (es + [e])[j])
    ensures IsDir(s', PathOf((es + [e])[j]))
  {
    hide TreeOk, Resolve, Names, Consistent, Clear;
    if j < |es| {
      IsDirKept(s, s', PathOf(es[j]));
    } else {
      DueDirIsFree(s0, s, es, e);
    }
  }

  /** One more entry. */
  lemma LoadedMore(s0: Fs, s: Fs, s': Fs, es: seq<Entry>, e: Entry)
    requires Loaded(s0, s, es) && Grew(s, s', PathOf(e), if e.dir then None else Some(e.data))
    requires !e.dir && Clear(s, PathOf(e)) && At(s, PathOf(e)).None? ==> IsFile(s', PathOf(e), e.data)
    requires e.dir && Clear(s, PathOf(e)) && (At(s, PathOf(e)).Some? ==> IsDir(s, PathOf(e))) ==> IsDir(s', PathOf(e))
    ensures Loaded(s0, s', es + [e])
  {
    hide TreeOk, Resolve, Names, Consistent, Due, DueDir, Clear;
    var all := es + [e];
    KeptTrans(s0, s, s');
    forall p | At(s', p).Some? && At(s0, p).None? ensures exists j :: 0 <= j < |all| && Because(s', p, all[j]) {
      NewBecause(s0, s, s', es, e, p);
    }
    if Consistent(s0, all) {
      FewerEntries(s0, es, e);
      forall j | 0 <= j < |all| && Due(s0, all, j) ensures IsFile(s', PathOf(all[j]), all[j].data) {
        LoadedFile(s0, s, s', es, e, j);
      }
      forall j | 0 <= j < |all| && DueDir(s0, all[j]) ensures IsDir(s', PathOf(all[j])) {
        LoadedDir(s0, s, s', es, e, j);
      }
    }
  }

  lemma LoadedFile(s0: Fs, s: Fs, s': Fs, es: seq<Entry>, e: Entry, j: nat)
    requires Loaded(s0, s, es) && Kept(s, s') && Consistent(s0, es) && Consistent(s0, es + [e])
    requires !e.dir && Clear(s, PathOf(e)) && At(s, PathOf(e)).None? ==> IsFile(s', PathOf(e), e.data)
    requires j < |es + [e]| && Due(s0, es + [e], j)
    ensures IsFile(s', PathOf((es + [e])[j]), (es + [e])[j].data)
  {
    hide TreeOk, Resolve, Names, Consistent, Clear;
    if j < |es| {
      DueBefore(s0, es, e, j);
      KeptFile(s, s', PathOf(es[j]), es[j].data);
    } else {
      DueIsFree(s0, s, es, e);
    }
  }

  /** The path of a file and of its directory. */
  lemma ParentNames(path: string, k: nat)
    requires k < |path| && path[k] == '/' && k + 1 < |path| && NoSlash(path[k + 1..])
    ensures Names(path) == Names(path[..k]) + [Clip(path[k + 1..])]
  {
    var a, b := path[..k], path[k + 1..];
    assert path == a + "/" + b;
    CompsSlash(a, b);
    OneComp(b);
  }

  /** What `vfs_lookup` of "/" and the path of a due file then gives. */
  lemma LookupFindsFile(s0: Fs, s: Fs, es: seq<Entry>, j: nat)
    requires Loaded(s0, s, es) && Consistent(s0, es) && j < |es| && Due(s0, es, j)
    requires forall i :: 0 <= i < |Comps(es[j].path)| ==> |Comps(es[j].path)[i]| < 32
    ensures IsFile(s, Comps("/" + es[j].path), es[j].data)
  {
    ShortNames(es[j].path);
    SlashesIgnored("", es[j].path);
  }

  /** What a lookup of "/" and the path of a due directory gives. */
  lemma LookupFindsDir(s0: Fs, s: Fs, es: seq<Entry>, j: nat)
    requires Loaded(s0, s, es) && Consistent(s0, es) && j < |es| && DueDir(s0, es[j])
    requires forall i :: 0 <= i < |Comps(es[j].path)| ==> |Comps(es[j].path)[i]| < 32
    ensures IsDir(s, Comps("/" + es[j].path))
  {
    ShortNames(es[j].path);
    SlashesIgnored("", es[j].path);
  }
}
