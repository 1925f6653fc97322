/** The ustar archive as kernel/initramfs.c reads it: header fields, sizes, paths, and the entries of an
    archive. */
module Ustar {
  import opened Options
  import opened Paths
  import opened Sequences

  // ---------- fields ----------

  /** The bytes before the first zero. */
  function CLen(bs: seq<nat>): (n: nat)
    ensures n <= |bs| && (forall i :: 0 <= i < n ==> bs[i] != 0) && (n < |bs| ==> bs[n] == 0)
  {
    if bs == [] || bs[0] == 0 then 0 else 1 + CLen(bs[1..])
  }

  function Text(bs: seq<nat>): (r: string)
    requires Bytes(bs)
    ensures |r| == |bs|
  {
    seq(|bs|, i requires 0 <= i < |bs| => bs[i] as char)
  }

  /** The text of a field that ends at a zero or at its full length. */
  function Field(bs: seq<nat>): string
    requires Bytes(bs)
  {
    Text(bs[..CLen(bs)])
  }

  const PATH_MAX: nat := 160

  /** The path in a header: name, after prefix and slash if there is a prefix. */
  function FullPath(header: seq<nat>): string
    requires |header| == 512 && Bytes(header)
  {
    if header[345] != 0 then Field(header[345..500]) + "/" + Field(header[..100]) else Field(header[..100])
  }

  /** A path must not be empty and must fit. */
  function RawPath(header: seq<nat>): Option<string>
    requires |header| == 512 && Bytes(header)
  {
    if 0 < |FullPath(header)| < PATH_MAX then Some(FullPath(header)) else None
  }

  /** Octal digits up to a zero or space; other characters are skipped. */
  function Octal(field: seq<nat>, value: nat): nat {
    if field == [] || field[0] == 0 || field[0] == 32 then value
    else if field[0] < 48 || field[0] > 55 then Octal(field[1..], value)
    else Octal(field[1..], value * 8 + (field[0] - 48))
  }

  function Size(header: seq<nat>): nat
    requires |header| == 512
  {
    Octal(header[124..136], 0)
  }

  /** The data of an entry fills whole blocks. */
  function Align(size: nat): (r: nat)
    ensures size <= r < size + 512 && r % 512 == 0
  {
    (size + 511) / 512 * 512
  }

  // ---------- writing what is read ----------

  /** `n` as `k` octal digits. */
  function Digits(n: nat, k: nat): (r: seq<nat>)
    ensures |r| == k && forall i :: 0 <= i < k ==> 48 <= r[i] <= 55
  {
    if k == 0 then [] else Digits(n / 8, k - 1) + [48 + n % 8]
  }

  function Pow8(k: nat): (r: nat)
    ensures r > 0
  {
    if k == 0 then 1 else 8 * Pow8(k - 1)
  }

  lemma {:induction false} OctalSnoc(a: seq<nat>, d: nat, rest: seq<nat>, v: nat)
    requires forall i :: 0 <= i < |a| ==> 48 <= a[i] <= 55
    requires 48 <= d <= 55 && (rest == [] || rest[0] == 0 || rest[0] == 32)
    ensures Octal(a + [d] + rest, v) == 8 * Octal(a, v) + (d - 48)
    decreases |a|
  {
    var s := a + [d] + rest;
    if a == [] {
      assert s[1..] == rest;
    } else {
      assert s[1..] == a[1..] + [d] + rest;
      OctalSnoc(a[1..], d, rest, v * 8 + (a[0] - 48));
    }
  }

  lemma {:induction false} OctalDigits(n: nat, k: nat, rest: seq<nat>)
    requires n < Pow8(k) && (rest == [] || rest[0] == 0 || rest[0] == 32)
    ensures Octal(Digits(n, k) + rest, 0) == n
    decreases k
  {
    if k == 0 {
      assert Digits(n, k) + rest == rest;
    } else {
      OctalDigits(n / 8, k - 1, []);
      assert Digits(n / 8, k - 1) + [] == Digits(n / 8, k - 1);
      OctalSnoc(Digits(n / 8, k - 1), 48 + n % 8, rest, 0);
    }
  }

  function Zeros(k: nat): (r: seq<nat>)
    ensures |r| == k && forall i :: 0 <= i < k ==> r[i] == 0
  {
    seq(k, _ => 0)
  }

  /** `bs` filled up with zeros. */
  function Padded(bs: seq<nat>, n: nat): (r: seq<nat>)
    requires |bs| <= n
    ensures |r| == n
  {
    bs + Zeros(n - |bs|)
  }

  lemma PaddedShorter(bs: seq<nat>, n: nat, k: nat)
    requires |bs| <= k <= n
    ensures Padded(bs, n)[..k] == Padded(bs, k)
  {
  }

  lemma PaddedBytes(bs: seq<nat>, n: nat)
    requires |bs| <= n && Bytes(bs)
    ensures Bytes(Padded(bs, n))
  {
  }

  /** The slices of a header made of four parts. */
  lemma PartSlices(a: seq<nat>, b: seq<nat>, c: seq<nat>, d: seq<nat>)
    requires |a| == 124 && |b| == 32 && |c| == 189 && |d| == 167
    ensures var h := a + b + c + d;
            && h[..100] == a[..100] && h[124..136] == b[..12] && h[156] == c[0]
            && h[345..500] == d[..155] && h[345] == d[0]
            && (Bytes(a) && Bytes(b) && Bytes(c) && Bytes(d) ==> Bytes(h))
  {
  }

  /** A header with name, size, type and prefix. */
  function MakeHeader(prefix: seq<nat>, name: seq<nat>, size: nat, kind: nat): (r: seq<nat>)
    requires |name| <= 100 && |prefix| <= 155
    ensures |r| == 512
  {
    Padded(name, 124) + Padded(Digits(size, 11), 32) + Padded([kind], 189) + Padded(prefix, 167)
  }

  predicate NoZeros(bs: seq<nat>) {
    forall i :: 0 <= i < |bs| ==> 0 < bs[i] < 256
  }

  lemma HeaderFields(prefix: seq<nat>, name: seq<nat>, size: nat, kind: nat)
    requires |name| <= 100 && |prefix| <= 155 && NoZeros(name) && NoZeros(prefix) && kind < 256
    ensures var h := MakeHeader(prefix, name, size, kind);
            && Bytes(h) && h[156] == kind && h[124..136] == Padded(Digits(size, 11), 12)
            && h[..100] == Padded(name, 100) && h[345..500] == Padded(prefix, 155)
            && (h[345] == 0 <==> prefix == [])
  {
    PaddedBytes(name, 124);
    PaddedBytes(Digits(size, 11), 32);
    PaddedBytes([kind], 189);
    PaddedBytes(prefix, 167);
    PaddedShorter(name, 124, 100);
    PaddedShorter(Digits(size, 11), 32, 12);
    PaddedShorter(prefix, 167, 155);
    assert Padded([kind], 189)[0] == kind;
    assert Padded(prefix, 167)[0] == 0 <==> prefix == [];
    hide Padded, Bytes, NoZeros, Digits;
    PartSlices(Padded(name, 124), Padded(Digits(size, 11), 32), Padded([kind], 189), Padded(prefix, 167));
  }

  lemma FieldIs(text: seq<nat>, n: nat)
    requires NoZeros(text) && |text| <= n
    ensures Bytes(Padded(text, n)) && Field(Padded(text, n)) == Text(text)
  {
    var f := Padded(text, n);
    CLenIs(f, |text|);
    assert f[..|text|] == text;
  }

  /** The path of a prefix and a name. */
  function Joined(prefix: string, name: string): string {
    if prefix == "" then name else prefix + "/" + name
  }

  lemma PathReads(h: seq<nat>, prefix: seq<nat>, name: seq<nat>)
    requires |h| == 512 && Bytes(h) && |name| <= 100 && |prefix| <= 155 && NoZeros(name) && NoZeros(prefix)
    requires h[..100] == Padded(name, 100) && h[345..500] == Padded(prefix, 155)
    requires h[345] == 0 <==> prefix == []
    ensures FullPath(h) == Joined(Text(prefix), Text(name))
  {
    hide Field, Text, CLen, Padded;
    FieldIs(name, 100);
    FieldIs(prefix, 155);
  }

  lemma SizeReads(h: seq<nat>, size: nat)
    requires |h| == 512 && size < Pow8(11) && h[124..136] == Padded(Digits(size, 11), 12)
    ensures Size(h) == size
  {
    hide Digits, Pow8, Octal;
    assert Padded(Digits(size, 11), 12) == Digits(size, 11) + [0];
    OctalDigits(size, 11, [0]);
  }

  /** A header reads back as what was written into it; a path that is empty or longer than 159 characters is
      refused. */
  lemma HeaderRoundTrip(prefix: seq<nat>, name: seq<nat>, size: nat, kind: nat)
    requires |name| <= 100 && |prefix| <= 155 && NoZeros(name) && NoZeros(prefix)
    requires kind < 256 && size < Pow8(11)
    ensures var h, path := MakeHeader(prefix, name, size, kind), Joined(Text(prefix), Text(name));
            && Bytes(h) && RawPath(h) == (if path != "" && |path| < 160 then Some(path) else None)
            && Size(h) == size && h[156] == kind
  {
    hide MakeHeader, Digits, Pow8, Padded, FullPath, Size, Text;
    HeaderFields(prefix, name, size, kind);
    var h := MakeHeader(prefix, name, size, kind);
    PathReads(h, prefix, name);
    SizeReads(h, size);
  }

  lemma {:induction false} CLenIs(bs: seq<nat>, n: nat)
    requires n <= |bs| && (forall i :: 0 <= i < n ==> bs[i] != 0) && (n < |bs| ==> bs[n] == 0)
    ensures CLen(bs) == n
  {
  }

  // ---------- paths ----------

  function StripLead(p: string): (r: string)
    ensures r == "" || r[0] != '/'
  {
    if p != "" && p[0] == '/' then StripLead(p[1..]) else p
  }

  function StripTail(p: string): (r: string)
    ensures r <= p && (r == "" || r[|r| - 1] != '/')
  {
    if p != "" && p[|p| - 1] == '/' then StripTail(p[..|p| - 1]) else p
  }

  function DropDot(p: string): string {
    if |p| >= 2 && p[0] == '.' && p[1] == '/' then p[2..] else p
  }

  /** `normalize_path`: leading slashes, one leading "./" and trailing slashes go; "." and what comes out
      empty are refused. */
  function Normalize(raw: string): (r: Option<string>)
    ensures r.Some? ==> r.value != "" && |r.value| <= |raw| && r.value[|r.value| - 1] != '/'
  {
    StripLeadLength(raw);
    var p := DropDot(StripLead(raw));
    if p == "." || StripTail(p) == "" then None else Some(StripTail(p))
  }

  lemma StripLeadLength(p: string)
    ensures |StripLead(p)| <= |p|
  {
  }

  lemma {:induction false} StripLeadComps(p: string)
    ensures Comps(StripLead(p)) == Comps(p)
  {
    if p != "" && p[0] == '/' { StripLeadComps(p[1..]); }
  }

  lemma {:induction false} StripTailComps(p: string)
    ensures Comps(StripTail(p)) == Comps(p)
    decreases |p|
  {
    if p != "" && p[|p| - 1] == '/' {
      var q := p[..|p| - 1];
      assert p == q + "/" + "";
      CompsSlash(q, "");
      StripTailComps(q);
    }
  }

  predicate Slashes(p: string) {
    forall i :: 0 <= i < |p| ==> p[i] == '/'
  }

  lemma {:induction false} LeadStripped(lead: string, p: string)
    requires Slashes(lead) && (p == "" || p[0] != '/')
    ensures StripLead(lead + p) == p
  {
    if lead == "" {
      assert lead + p == p;
    } else {
      assert (lead + p)[1..] == lead[1..] + p;
      LeadStripped(lead[1..], p);
    }
  }

  lemma {:induction false} TailStripped(p: string, tail: string)
    requires Slashes(tail) && (p == "" || p[|p| - 1] != '/')
    ensures StripTail(p + tail) == p
    decreases |tail|
  {
    if tail == "" {
      assert p + tail == p;
    } else {
      assert (p + tail)[..|p + tail| - 1] == p + tail[..|tail| - 1];
      TailStripped(p, tail[..|tail| - 1]);
    }
  }

  /** What a path is cut down to: `lead` and `tail` are slashes and go, and so does one "./" after `lead`. What
      is left must not be empty, nor a lone dot. */
  lemma NormalizeMeans(lead: string, dot: bool, p: string, tail: string)
    requires Slashes(lead) && Slashes(tail) && (p == "" || p[|p| - 1] != '/')
    requires !dot ==> (p == "" ==> tail == "") && (p == "" || p[0] != '/') && !("./" <= p + tail)
    ensures Normalize(lead + (if dot then "./" else "") + p + tail) ==
            if p == "" || p + tail == "." then None else Some(p)
  {
    var rest := (if dot then "./" else "") + p + tail;
    var raw := lead + (if dot then "./" else "") + p + tail;
    assert raw == lead + rest;
    LeadStripped(lead, rest);
    assert DropDot(rest) == p + tail;
    TailStripped(p, tail);
  }

  /** A normalized path has the components of the raw one, but for one leading ".". */
  lemma NormalizeComps(raw: string)
    requires Normalize(raw).Some?
    ensures var p := StripLead(raw);
            if |p| >= 2 && p[0] == '.' && p[1] == '/' then Comps(raw) == ["."] + Comps(Normalize(raw).value)
            else Comps(raw) == Comps(Normalize(raw).value)
  {
    var p := StripLead(raw);
    StripLeadComps(raw);
    StripTailComps(DropDot(p));
    if |p| >= 2 && p[0] == '.' && p[1] == '/' {
      assert p == "." + "/" + p[2..];
      CompsSlash(".", p[2..]);
      OneComp(".");
    }
  }

  // ---------- the archive ----------

  datatype Entry = Entry(path: string, dir: bool, data: seq<nat>)

  predicate ZeroBlock(block: seq<nat>) {
    forall i :: 0 <= i < |block| ==> block[i] == 0
  }

  function Header(archive: seq<nat>, offset: nat): (r: seq<nat>)
    requires offset + 512 <= |archive|
    ensures |r| == 512 && (Bytes(archive) ==> Bytes(r))
  {
    archive[offset..offset + 512]
  }

  /** No header at `offset`: the archive ends there. */
  predicate AtEnd(archive: seq<nat>, offset: nat) {
    offset + 512 > |archive| || ZeroBlock(Header(archive, offset))
  }

  /** Where the next header is. A header whose path does not fit counts as one block only. */
  function Next(archive: seq<nat>, offset: nat): (r: nat)
    requires Bytes(archive) && offset + 512 <= |archive|
    ensures r >= offset + 512
  {
    var h := Header(archive, offset);
    if RawPath(h).None? then offset + 512 else offset + 512 + Align(Size(h))
  }

  /** From `offset` on, the data of every entry lies inside the archive. */
  predicate Inside(archive: seq<nat>, offset: nat)
    requires Bytes(archive)
    decreases |archive| - offset
  {
    AtEnd(archive, offset) ||
    (&& (RawPath(Header(archive, offset)).Some? ==> offset + 512 + Size(Header(archive, offset)) <= |archive|)
     && (Next(archive, offset) <= |archive| ==> Inside(archive, Next(archive, offset))))
  }

  /** The entry whose header is at `offset`: a directory, a regular file, or none. */
  function EntryAt(archive: seq<nat>, offset: nat): seq<Entry>
    requires Bytes(archive) && !AtEnd(archive, offset) && Inside(archive, offset)
  {
    var h := Header(archive, offset);
    match RawPath(h)
    case None => []
    case Some(raw) =>
      match Normalize(raw)
      case None => []
      case Some(path) =>
        if h[156] == 53 then [Entry(path, true, [])]
        else if h[156] == 0 || h[156] == 48 then [Entry(path, false, archive[offset + 512..offset + 512 + Size(h)])]
        else []
  }

  /** The entries from `offset` on. */
  function Entries(archive: seq<nat>, offset: nat): seq<Entry>
    requires Bytes(archive) && Inside(archive, offset)
    decreases |archive| - offset
  {
    if AtEnd(archive, offset) then []
    else if Next(archive, offset) > |archive| then EntryAt(archive, offset)
    else EntryAt(archive, offset) + Entries(archive, Next(archive, offset))
  }

  // ---------- writing an archive ----------

  predicate ByteString(p: string) {
    forall i :: 0 <= i < |p| ==> 0 < p[i] as nat < 256
  }

  function Encoded(p: string): (r: seq<nat>)
    requires ByteString(p)
    ensures |r| == |p| && NoZeros(r)
  {
    seq(|p|, i requires 0 <= i < |p| => p[i] as nat)
  }

  lemma EncodedText(p: string)
    requires ByteString(p)
    ensures Text(Encoded(p)) == p
  {
  }

  /** The slash that divides a path into prefix and name: the first that leaves a name of 100 bytes or fewer. */
  function Slash(p: string, i: nat): (r: nat)
    requires i <= |p|
    ensures i <= r <= |p| && (r < |p| ==> p[r] == '/')
    ensures forall k :: i <= k < r ==> p[k] != '/'
    decreases |p| - i
  {
    if i == |p| || p[i] == '/' then i else Slash(p, i + 1)
  }

  function Cut(p: string): nat {
    if |p| <= 100 then 0 else Slash(p, |p| - 101)
  }

  /** A path that the reader leaves as it is, of nonzero bytes, with a slash where it has to be divided. */
  predicate FitsHeader(p: string) {
    && ByteString(p) && p != "" && p[0] != '/' && p[|p| - 1] != '/' && p != "." && !("./" <= p) && |p| < 160
    && (|p| > 100 ==> exists i :: |p| - 101 <= i <= 155 && i < |p| && p[i] == '/')
  }

  predicate Packable(e: Entry) {
    FitsHeader(e.path) && Bytes(e.data) && |e.data| < Pow8(11) && (e.dir ==> e.data == [])
  }

  function PrefixOf(p: string): string
    requires Cut(p) <= |p|
  {
    p[..Cut(p)]
  }

  function NameOf(p: string): string
    requires Cut(p) <= |p|
  {
    if Cut(p) == 0 then p else if Cut(p) < |p| then p[Cut(p) + 1..] else ""
  }

  lemma FitsUnchanged(p: string)
    requires FitsHeader(p)
    ensures Normalize(p) == Some(p)
  {
    NormalizeMeans("", false, p, "");
    assert "" + "" + p + "" == p && p + "" == p;
  }

  /** The parts of a path that fits, put together again, are the path. */
  lemma Divided(p: string)
    requires FitsHeader(p)
    ensures Cut(p) <= |p| && |PrefixOf(p)| <= 155 && 0 < |NameOf(p)| <= 100
    ensures ByteString(PrefixOf(p)) && ByteString(NameOf(p)) && Joined(PrefixOf(p), NameOf(p)) == p
  {
    if |p| > 100 {
      var i :| |p| - 101 <= i <= 155 && i < |p| && p[i] == '/';
      assert Cut(p) <= i && 0 < Cut(p) < |p| - 1;
      assert p == p[..Cut(p)] + "/" + p[Cut(p) + 1..];
    }
  }

  function EntryHeader(e: Entry): (r: seq<nat>)
    requires Packable(e)
    ensures |r| == 512
  {
    Divided(e.path);
    MakeHeader(Encoded(PrefixOf(e.path)), Encoded(NameOf(e.path)), |e.data|, if e.dir then 53 else 48)
  }

  /** Header and data, filled up to whole blocks. */
  function PackEntry(e: Entry): (r: seq<nat>)
    requires Packable(e)
    ensures |r| == 512 + Align(|e.data|)
  {
    EntryHeader(e) + e.data + Zeros(Align(|e.data|) - |e.data|)
  }

  /** The archive of some entries, closed by two zero blocks. */
  function Pack(es: seq<Entry>): seq<nat>
    requires forall e :: e in es ==> Packable(e)
  {
    if es == [] then Zeros(1024) else PackEntry(es[0]) + Pack(es[1..])
  }

  lemma EntryHeaderReads(e: Entry)
    requires Packable(e)
    ensures var h := EntryHeader(e);
            && Bytes(h) && RawPath(h) == Some(e.path) && Size(h) == |e.data| && h[156] == (if e.dir then 53 else 48)
            && !ZeroBlock(h)
  {
    Divided(e.path);
    EncodedText(PrefixOf(e.path));
    EncodedText(NameOf(e.path));
    HeaderRoundTrip(Encoded(PrefixOf(e.path)), Encoded(NameOf(e.path)), |e.data|, if e.dir then 53 else 48);
    assert EntryHeader(e)[156] != 0;
  }

  lemma PackEntryBytes(e: Entry)
    requires Packable(e)
    ensures Bytes(PackEntry(e))
  {
    EntryHeaderReads(e);
    hide EntryHeader, FitsHeader;
  }

  lemma {:induction false} PackBytes(es: seq<Entry>)
    requires forall e :: e in es ==> Packable(e)
    ensures Bytes(Pack(es)) && |Pack(es)| >= 1024
  {
    hide Packable, PackEntry;
    if es != [] {
      PackEntryBytes(es[0]);
      PackBytes(es[1..]);
    }
  }

  /** Where the parts of an entry are. */
  lemma EntrySlices(before: seq<nat>, e: Entry, after: seq<nat>)
    requires Packable(e)
    ensures var a, n := before + PackEntry(e) + after, |before|;
            && n + 512 + |e.data| <= n + 512 + Align(|e.data|) <= |a|
            && a[n..n + 512] == EntryHeader(e) && a[n + 512..n + 512 + |e.data|] == e.data
  {
    hide EntryHeader, Packable;
  }

  /** The header of entry `e`. */
  ghost predicate HeaderOf(h: seq<nat>, e: Entry) {
    && |h| == 512 && Bytes(h) && RawPath(h) == Some(e.path) && Size(h) == |e.data|
    && h[156] == (if e.dir then 53 else 48) && !ZeroBlock(h)
  }

  /** Archive `a` holds entry `e` at `n`. */
  ghost predicate HoldsAt(a: seq<nat>, n: nat, e: Entry) {
    && Bytes(a) && n + 512 + Align(|e.data|) <= |a| && HeaderOf(Header(a, n), e)
    && a[n + 512..n + 512 + |e.data|] == e.data
  }

  lemma HeldEntry(a: seq<nat>, n: nat, e: Entry)
    requires HoldsAt(a, n, e) && Normalize(e.path) == Some(e.path) && (e.dir ==> e.data == [])
    ensures !AtEnd(a, n) && Next(a, n) == n + 512 + Align(|e.data|)
    ensures RawPath(Header(a, n)).Some? && n + 512 + Size(Header(a, n)) <= |a|
    ensures Inside(a, n) ==> EntryAt(a, n) == [e]
  {
    hide RawPath, Size, Inside, ZeroBlock, Normalize, Align, Header;
  }

  /** What the type byte of a header makes of it: '5' is a directory, '0' or zero a file, and nothing else counts. */
  lemma KindDecides(a: seq<nat>, n: nat, prefix: seq<nat>, name: seq<nat>, data: seq<nat>, kind: nat)
    requires |name| <= 100 && |prefix| <= 155 && NoZeros(name) && NoZeros(prefix) && kind < 256 && |data| < Pow8(11)
    requires FitsHeader(Joined(Text(prefix), Text(name)))
    requires Bytes(a) && n + 512 + |data| <= |a| && !AtEnd(a, n) && Inside(a, n)
    requires Header(a, n) == MakeHeader(prefix, name, |data|, kind) && a[n + 512..n + 512 + |data|] == data
    ensures EntryAt(a, n) == if kind == 53 then [Entry(Joined(Text(prefix), Text(name)), true, [])]
                             else if kind == 48 || kind == 0 then [Entry(Joined(Text(prefix), Text(name)), false, data)]
                             else []
  {
    hide RawPath, Size, Inside, ZeroBlock, Normalize, Align, Header, MakeHeader, Text, Joined, EntryAt, AtEnd, Pow8;
    var path := Joined(Text(prefix), Text(name));
    HeaderRoundTrip(prefix, name, |data|, kind);
    FitsUnchanged(path);
    assert path != "" && |path| < 160;
    EntryReads(a, n, path, data, kind);
  }

  lemma EntryReads(a: seq<nat>, n: nat, path: string, data: seq<nat>, kind: nat)
    requires Bytes(a) && n + 512 + |data| <= |a| && !AtEnd(a, n) && Inside(a, n) && Normalize(path) == Some(path)
    requires RawPath(Header(a, n)) == Some(path) && Size(Header(a, n)) == |data| && Header(a, n)[156] == kind
    requires a[n + 512..n + 512 + |data|] == data
    ensures EntryAt(a, n) == if kind == 53 then [Entry(path, true, [])]
                             else if kind == 48 || kind == 0 then [Entry(path, false, data)] else []
  {
    hide RawPath, Size, Inside, ZeroBlock, Normalize, Align, Header;
  }

  lemma PackedHolds(before: seq<nat>, e: Entry, after: seq<nat>)
    requires Packable(e) && Bytes(before) && Bytes(after)
    ensures HoldsAt(before + PackEntry(e) + after, |before|, e)
  {
    EntryHeaderReads(e);
    EntrySlices(before, e, after);
    PackEntryBytes(e);
    hide EntryHeader, RawPath, Size, Packable, PackEntry, ZeroBlock, Align;
    assert Bytes(before + PackEntry(e) + after);
  }

  /** An entry written at the end of `before` is read back, and reading goes on behind it. */
  lemma ReadsBack(before: seq<nat>, e: Entry, after: seq<nat>)
    requires Packable(e) && Bytes(before) && Bytes(after)
    ensures var a, n := before + PackEntry(e) + after, |before|;
            && Bytes(a) && !AtEnd(a, n) && Next(a, n) == n + |PackEntry(e)| <= |a|
            && RawPath(Header(a, n)).Some? && n + 512 + Size(Header(a, n)) <= |a|
            && (Inside(a, n) ==> EntryAt(a, n) == [e])
  {
    PackedHolds(before, e, after);
    FitsUnchanged(e.path);
    hide EntryHeader, RawPath, Size, PackEntry, Inside, Normalize, Align, HeaderOf, Next, EntryAt, AtEnd;
    HeldEntry(before + PackEntry(e) + after, |before|, e);
  }

  lemma EndsHere(before: seq<nat>)
    requires Bytes(before)
    ensures Bytes(before + Zeros(1024)) && AtEnd(before + Zeros(1024), |before|)
  {
    var a := before + Zeros(1024);
    assert Header(a, |before|) == Zeros(512);
  }

  lemma {:induction false} UnpacksFrom(before: seq<nat>, es: seq<Entry>)
    requires Bytes(before) && forall e :: e in es ==> Packable(e)
    ensures Bytes(before + Pack(es)) && Inside(before + Pack(es), |before|)
    ensures Entries(before + Pack(es), |before|) == es
    decreases |es|
  {
    hide Packable, PackEntry, AtEnd, Next, EntryAt, RawPath, Size, Header;
    if es == [] {
      EndsHere(before);
    } else {
      var front := before + PackEntry(es[0]);
      PackBytes(es[1..]);
      PackEntryBytes(es[0]);
      ReadsBack(before, es[0], Pack(es[1..]));
      assert front + Pack(es[1..]) == before + Pack(es);
      assert Bytes(front);
      UnpacksFrom(front, es[1..]);
      assert es == [es[0]] + es[1..];
    }
  }

  /** Every list of entries, written as an archive, is read back. */
  lemma PackRoundTrip(es: seq<Entry>)
    requires forall e :: e in es ==> Packable(e)
    ensures Bytes(Pack(es)) && Inside(Pack(es), 0) && Entries(Pack(es), 0) == es
  {
    UnpacksFrom([], es);
    assert [] + Pack(es) == Pack(es);
  }
}
