/** kernel/initramfs.c: reading the archive and loading it into the file tree. */
module Initramfs {
  import opened Options
  import opened Sequences
  import opened Paths
  import opened Tree
  import opened Vfs
  import opened FsGrowth
  import opened Ustar
  import opened ArchiveTree

  // ---------- parsing ----------

  method ParseOctal(field: seq<nat>) returns (value: nat)
    ensures value == Octal(field, 0)
  {
    value := 0;
    var i := 0;
    assert field[0..] == field;
    while i < |field|
      invariant i <= |field| && Octal(field, 0) == Octal(field[i..], value)
    {
      var c := field[i];
      assert field[i..][1..] == field[i + 1..];
      if c == 0 || c == 32 { return; }
      if 48 <= c <= 55 { value := value * 8 + (c - 48); }
      i := i + 1;
    }
  }

  /** `append_field`: stops at a zero, fails when the buffer of 160 characters is full. */
  method AppendField(out: string, field: seq<nat>) returns (ok: bool, out': string)
    requires Bytes(field) && |out| < PATH_MAX
    ensures ok == (|out| + CLen(field) < PATH_MAX)
    ensures ok ==> out' == out + Field(field)
  {
    out' := out;
    var i := 0;
    while i < |field| && field[i] != 0
      invariant i <= CLen(field) && out' == out + Text(field[..i]) && |out'| < PATH_MAX
    {
      if |out'| + 1 >= PATH_MAX { return false, out'; }
      out' := out' + [field[i] as char];
      i := i + 1;
    }
    assert i == CLen(field);
    return true, out';
  }

  method GetRawPath(header: seq<nat>) returns (r: Option<string>)
    requires |header| == 512 && Bytes(header)
    ensures r == RawPath(header)
  {
    var ok, out := true, "";
    var prefix, name := header[345..500], header[..100];
    assert |Field(prefix)| == CLen(prefix) && |Field(name)| == CLen(name) && prefix[0] == header[345];
    if header[345] != 0 {
      ok, out := AppendField(out, prefix);
      if !ok { return None; }
      if |out| + 1 >= PATH_MAX { return None; }
      out := out + "/";
    }
    assert out + Field(name) == FullPath(header);
    ok, out := AppendField(out, name);
    if !ok || |out| == 0 { return None; }
    return Some(out);
  }

  method NormalizePath(raw: string) returns (r: Option<string>)
    ensures r == Normalize(raw)
  {
    var p := raw;
    while p != "" && p[0] == '/'
      invariant StripLead(p) == StripLead(raw)
      decreases |p|
    {
      p := p[1..];
    }
    if |p| >= 2 && p[0] == '.' && p[1] == '/' { p := p[2..]; }
    if p == "." { return None; }
    ghost var q := p;
    while p != "" && p[|p| - 1] == '/'
      invariant StripTail(p) == StripTail(q)
      decreases |p|
    {
      p := p[..|p| - 1];
    }
    return if p == "" then None else Some(p);
  }

  // ---------- directories ----------

  ghost function State(fs: FileSystem): Fs
    reads fs
  {
    Fs(fs.nodes, fs.kids)
  }

  /** Some node on the way to `path` is not a directory. */
  ghost predicate Blocked(s: Fs, path: seq<string>)
    requires Ok(s)
  {
    exists p :: p <= path && At(s, p).Some? && !IsDir(s, p)
  }

  /** One component of `ensure_dir_path`: the directory `name` below `current`, created if missing. */
  method Descend(fs: FileSystem, current: nat, name: string, ghost path: seq<string>) returns (r: Option<nat>)
    requires fs.Valid() && IsDir(State(fs), path) && At(State(fs), path) == Some(current) && |name| < NAME_MAX
    modifies fs
    ensures fs.Valid() && Grew(old(State(fs)), State(fs), path + [name], None)
    ensures r.Some? ==> At(State(fs), path + [name]) == r && IsDir(State(fs), path + [name])
    ensures r.None? ==> At(State(fs), path + [name]).Some? && !IsDir(State(fs), path + [name])
  {
    ghost var s := State(fs);
    GrewNone(s, path + [name], None);
    AtSnoc(s, path, name);
    hide TreeOk, Resolve, Child, Grew, Added, AddedKids;
    r := fs.FindChild(current, name);
    if r.None? {
      var id := fs.Create(current, name, Dir, []);
      CreateGrew(s, State(fs), path, name, Dir, []);
      return Some(id);
    }
    if !fs.nodes[r.value].kind.Dir? { return None; }
  }

  /** The names from index `k` on are those of the path from place `start` on. */
  ghost predicate Remaining(path: string, start: nat, k: nat) {
    start <= |path| && k <= |Names(path)| && ClipAll(Rest(path, start)) == Names(path)[k..]
  }

  lemma NextName(path: string, start: nat, end: nat, k: nat)
    requires Remaining(path, start, k) && start <= end <= |path| &&
             Rest(path, start) == [path[start..end]] + Rest(path, end)
    ensures k < |Names(path)| && Names(path)[k] == Clip(path[start..end]) && Remaining(path, end, k + 1)
    ensures Names(path)[..k] + [Clip(path[start..end])] == Names(path)[..k + 1]
  {
    hide Rest, Comps;
    var all := Names(path);
    assert ClipAll(Rest(path, start)) == [Clip(path[start..end])] + ClipAll(Rest(path, end));
    assert all[k..][0] == all[k] && all[k..][1..] == all[k + 1..];
  }

  lemma SameRest(path: string, start: nat, start': nat, k: nat)
    requires Remaining(path, start, k) && start' <= |path| && Rest(path, start) == Rest(path, start')
    ensures Remaining(path, start', k)
  {
  }

  lemma RemainingEnds(path: string)
    ensures Remaining(path, 0, 0)
    ensures forall k: nat :: Remaining(path, |path|, k) ==> k == |Names(path)|
  {
  }

  /** The first `k` names of a path have been made directories, the last of them `current`. */
  ghost predicate Ensured(s0: Fs, s: Fs, all: seq<string>, k: nat, current: nat) {
    k <= |all| && Grew(s0, s, all[..k], None) && At(s, all[..k]) == Some(current) && IsDir(s, all[..k])
  }

  lemma EnsuredNone(s: Fs, all: seq<string>)
    requires Ok(s)
    ensures Ensured(s, s, all, 0, 0)
  {
  }

  /** The component at `start`. */
  method EnsureNext(fs: FileSystem, path: string, start: nat, end: nat, current: nat, ghost s0: Fs, ghost k: nat)
    returns (next: Option<nat>)
    requires fs.Valid() && Remaining(path, start, k) && start <= end <= |path|
    requires Rest(path, start) == [path[start..end]] + Rest(path, end) &&
             Ensured(s0, State(fs), Names(path), k, current)
    modifies fs
    ensures fs.Valid()
    ensures next.Some? ==> Remaining(path, end, k + 1) && Ensured(s0, State(fs), Names(path), k + 1, next.value)
    ensures next.None? ==> Grew(s0, State(fs), Names(path), None) && Blocked(s0, Names(path))
  {
    hide TreeOk, Resolve, Grew, Rest, Names, IsDir, Remaining, Blocked;
    NextName(path, start, end, k);
    ghost var s, all := State(fs), Names(path);
    next := Descend(fs, current, Clip(path[start..end]), all[..k]);
    GrewTrans(s0, s, State(fs), all[..k], all[..k + 1], None);
    if next.None? {
      BlockedNow(s0, State(fs), all[..k + 1], all);
      GrewLonger(s0, State(fs), all[..k + 1], all, None);
    }
  }

  /** `ensure_dir_path`: the directory at a path, with what is missing on the way; none if a node on the way
      is not a directory. */
  method EnsureDirPath(fs: FileSystem, path: string) returns (r: Option<nat>)
    requires fs.Valid()
    modifies fs
    ensures fs.Valid() && Grew(old(State(fs)), State(fs), Names(path), None)
    ensures r.Some? ==> At(State(fs), Names(path)) == r && IsDir(State(fs), Names(path))
    ensures r.None? ==> Blocked(old(State(fs)), Names(path))
  {
    ghost var s0, all, k: nat := State(fs), Names(path), 0;
    RemainingEnds(path);
    EnsuredNone(s0, all);
    hide TreeOk, Resolve, Grew, Rest, Names, IsDir, Remaining, Ensured, Blocked;
    var current: nat, start: nat := 0, 0;
    while start < |path|
      invariant start <= |path| && Remaining(path, start, k) && fs.Valid() && Ensured(s0, State(fs), all, k, current)
      decreases |path| - start
    {
      ghost var was := start;
      start := SkipSlashes(path, start);
      SameRest(path, was, start, k);
      if start < |path| {
        var end := ComponentEnd(path, start);
        var next := EnsureNext(fs, path, start, end, current, s0, k);
        if next.None? { return None; }
        k, current, start := k + 1, next.value, end;
      }
    }
    EnsuredAll(s0, State(fs), all, k, current);
    return Some(current);
  }

  lemma EnsuredAll(s0: Fs, s: Fs, all: seq<string>, k: nat, current: nat)
    requires Ensured(s0, s, all, k, current) && k == |all|
    ensures Grew(s0, s, all, None) && At(s, all) == Some(current) && IsDir(s, all)
  {
    assert all[..k] == all;
  }

  lemma BlockedNow(s0: Fs, s: Fs, p: seq<string>, path: seq<string>)
    requires Grew(s0, s, p, None) && At(s, p).Some? && !IsDir(s, p) && p <= path
    ensures Blocked(s0, path)
  {
    hide TreeOk, Resolve;
    assert At(s0, p).Some? && !IsDir(s0, p);
  }

  lemma GrewLonger(s: Fs, s': Fs, p: seq<string>, path: seq<string>, leaf: Option<seq<nat>>)
    requires Grew(s, s', p, None) && p <= path && (leaf.Some? ==> p != path)
    ensures Grew(s, s', path, leaf)
  {
    hide TreeOk, Resolve;
  }

  // ---------- files ----------

  /** The last slash of a path; |path| if there is none. */
  method LastSlash(path: string) returns (k: nat)
    ensures k <= |path| && (k < |path| ==> path[k] == '/' && NoSlash(path[k + 1..])) && (k == |path| ==> NoSlash(path))
  {
    k := |path|;
    var i := 0;
    while i < |path|
      invariant i <= |path| && (k < i || k == |path|)
      invariant k < |path| ==> path[k] == '/' && forall j :: k < j < i ==> path[j] != '/'
      invariant k == |path| ==> forall j :: 0 <= j < i ==> path[j] != '/'
    {
      if path[i] == '/' { k := i; }
      i := i + 1;
    }
  }

  /** A path that does not end with a slash: the names of its directory, and its own. */
  ghost predicate Splits(path: string, dir: string, base: string) {
    Names(path) == Names(dir) + [Clip(base)] && base != ""
  }

  lemma OnlyBase(path: string)
    requires path != "" && NoSlash(path)
    ensures Splits(path, "", path) && Names("") == []
  {
    OneComp(path);
  }

  lemma SplitHere(path: string, k: nat)
    requires path != "" && path[|path| - 1] != '/' && k < |path| && path[k] == '/' && NoSlash(path[k + 1..])
    ensures Splits(path, path[..k], path[k + 1..])
  {
    ParentNames(path, k);
  }

  /** `ensure_parent_dir_for_file`. */
  method EnsureParent(fs: FileSystem, path: string) returns (parent: Option<nat>, base: string, ghost dir: string)
    requires fs.Valid() && path != "" && path[|path| - 1] != '/'
    modifies fs
    ensures fs.Valid() && Splits(path, dir, base) && Grew(old(State(fs)), State(fs), Names(dir), None)
    ensures parent.Some? ==> At(State(fs), Names(dir)) == parent && IsDir(State(fs), Names(dir))
    ensures parent.None? ==> Blocked(old(State(fs)), Names(dir))
  {
    hide TreeOk, Resolve, Grew, Names, IsDir, Blocked, Splits, NoSlash;
    var k := LastSlash(path);
    if k == |path| {
      OnlyBase(path);
      RootDir(State(fs));
      GrewNone(State(fs), [], None);
      return Some(0), path, "";
    }
    SplitHere(path, k);
    base, dir := path[k + 1..], path[..k];
    parent := EnsureDirPath(fs, path[..k]);
  }

  lemma RootDir(s: Fs)
    requires Ok(s)
    ensures At(s, []) == Some(0) && IsDir(s, [])
  {
  }

  /** `load_file_entry`. */
  method LoadFile(fs: FileSystem, path: string, data: seq<nat>)
    requires fs.Valid() && path != "" && path[|path| - 1] != '/'
    modifies fs
    ensures fs.Valid() && Grew(old(State(fs)), State(fs), Names(path), Some(data))
    ensures Clear(old(State(fs)), Names(path)) && At(old(State(fs)), Names(path)).None? ==>
            IsFile(State(fs), Names(path), data)
  {
    ghost var s, all := State(fs), Names(path);
    var parent, base;
    ghost var dir;
    parent, base, dir := EnsureParent(fs, path);
    ghost var s1, up, name := State(fs), Names(dir), Clip(base);
    assert all == up + [name];
    hide TreeOk, Resolve, Names, Grew, Splits, Clip, Child, Added, AddedKids;
    GrewLonger(s, s1, up, all, Some(data));
    if parent.None? {
      BlockedNotClear(s, up, all);
      return;
    }
    AtSnoc(s1, up, name);
    var existing := fs.FindChild(parent.value, Clip(base));
    if existing.Some? {
      StillFree(s, s1, up, all);
      return;
    }
    var id := fs.Create(parent.value, Clip(base), File, data);
    CreateGrew(s1, State(fs), up, name, File, data);
    GrewTrans(s, s1, State(fs), up, all, Some(data));
  }

  lemma BlockedNotClear(s: Fs, up: seq<string>, all: seq<string>)
    requires Ok(s) && Blocked(s, up) && up < all
    ensures !Clear(s, all)
  {
    hide TreeOk, Resolve;
    var p :| p <= up && At(s, p).Some? && !IsDir(s, p);
  }

  /** Making the directory does not make the file. */
  lemma StillFree(s: Fs, s1: Fs, up: seq<string>, all: seq<string>)
    requires Grew(s, s1, up, None) && up < all && At(s1, all).Some?
    ensures At(s, all).Some?
  {
    hide TreeOk, Resolve;
  }

  // ---------- the archive ----------

  lemma BlockedPath(s: Fs, path: seq<string>)
    requires Ok(s) && Blocked(s, path)
    ensures !(Clear(s, path) && (At(s, path).Some? ==> IsDir(s, path)))
  {
    hide TreeOk, Resolve;
    var p :| p <= path && At(s, p).Some? && !IsDir(s, p);
    assert p == path || p < path;
  }

  method LoadEntry(fs: FileSystem, e: Entry, ghost s0: Fs, ghost es: seq<Entry>)
    requires fs.Valid() && e.path != "" && e.path[|e.path| - 1] != '/' && Loaded(s0, State(fs), es)
    modifies fs
    ensures fs.Valid() && Loaded(s0, State(fs), es + [e])
  {
    hide TreeOk, Resolve, Names, Grew, Loaded;
    ghost var s := State(fs);
    if e.dir {
      var d := EnsureDirPath(fs, e.path);
      if d.None? { BlockedPath(s, PathOf(e)); }
    } else {
      LoadFile(fs, e.path, e.data);
    }
    LoadedMore(s0, s, State(fs), es, e);
  }

  method IsZeroBlock(block: seq<nat>) returns (r: bool)
    ensures r == ZeroBlock(block)
  {
    var i := 0;
    while i < |block|
      invariant i <= |block| && forall k :: 0 <= k < i ==> block[k] == 0
    {
      if block[i] != 0 { return false; }
      i := i + 1;
    }
    return true;
  }

  /** Reads the header at `offset`: its entry, if it is a directory or a regular file, and the offset of the
      next header. */
  method ReadHeader(archive: seq<nat>, offset: nat) returns (e: seq<Entry>, next: nat)
    requires Bytes(archive) && !AtEnd(archive, offset) && Inside(archive, offset)
    ensures e == EntryAt(archive, offset) && next == Next(archive, offset)
  {
    var header := Header(archive, offset);
    var raw := GetRawPath(header);
    if raw.None? { return [], offset + 512; }
    hide RawPath, Normalize, Octal;
    var size := ParseOctal(header[124..136]);
    next := offset + 512 + Align(size);
    var path := NormalizePath(raw.value);
    e := [];
    if path.Some? {
      if header[156] == 53 {
        e := [Entry(path.value, true, [])];
      } else if header[156] == 0 || header[156] == 48 {
        e := [Entry(path.value, false, archive[offset + 512..offset + 512 + size])];
      }
    }
  }

  lemma EntryPath(archive: seq<nat>, offset: nat)
    requires Bytes(archive) && !AtEnd(archive, offset) && Inside(archive, offset)
    ensures |EntryAt(archive, offset)| <= 1
    ensures forall k :: 0 <= k < |EntryAt(archive, offset)| ==>
              var p := EntryAt(archive, offset)[k].path; p != "" && p[|p| - 1] != '/'
  {
    hide RawPath, Normalize, Size, Inside, AtEnd;
  }

  /** `es` are the entries before `offset`. */
  ghost predicate Seen(archive: seq<nat>, es: seq<Entry>, offset: nat)
    requires Bytes(archive) && Inside(archive, 0)
  {
    if offset <= |archive| then Inside(archive, offset) && Entries(archive, 0) == es + Entries(archive, offset)
    else Entries(archive, 0) == es
  }

  lemma SeenNext(archive: seq<nat>, es: seq<Entry>, offset: nat)
    requires Bytes(archive) && Inside(archive, 0) && Seen(archive, es, offset) && !AtEnd(archive, offset)
    ensures Inside(archive, offset) && Seen(archive, es + EntryAt(archive, offset), Next(archive, offset))
  {
    hide EntryAt, Header, RawPath, Size;
    if Next(archive, offset) <= |archive| {
      var e, rest := EntryAt(archive, offset), Entries(archive, Next(archive, offset));
      assert es + (e + rest) == es + e + rest;
    }
  }

  lemma SeenAll(archive: seq<nat>, es: seq<Entry>, offset: nat)
    requires Bytes(archive) && Inside(archive, 0) && Seen(archive, es, offset) && AtEnd(archive, offset)
    ensures Entries(archive, 0) == es
  {
  }

  /** `initramfs_load`: every file entry that is first at its path, which was free before, is in place with
      exactly its bytes; nothing that was there before is disturbed and nothing else appears. */
  method Load(fs: FileSystem, archive: seq<nat>)
    requires fs.Valid() && Bytes(archive) && Inside(archive, 0)
    modifies fs
    ensures fs.Valid() && Loaded(old(State(fs)), State(fs), Entries(archive, 0))
  {
    ghost var s0, es: seq<Entry> := State(fs), [];
    LoadedNone(s0);
    assert [] + Entries(archive, 0) == Entries(archive, 0);
    hide TreeOk, Loaded, Inside, Entries, EntryAt, Next, ZeroBlock;
    var offset := 0;
    while offset + 512 <= |archive|
      invariant Seen(archive, es, offset) && fs.Valid() && Loaded(s0, State(fs), es)
      decreases |archive| - offset
    {
      var zero := IsZeroBlock(Header(archive, offset));
      if zero { break; }
      SeenNext(archive, es, offset);
      EntryPath(archive, offset);
      var e, next := ReadHeader(archive, offset);
      if e != [] {
        LoadEntry(fs, e[0], s0, es);
        assert e == [e[0]];
      } else {
        assert es + [] == es;
      }
      es, offset := es + e, next;
    }
    SeenAll(archive, es, offset);
  }
}
