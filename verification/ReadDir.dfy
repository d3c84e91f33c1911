/** The directory reader (FAT_readdir of fs/fat.c): the entries of a directory's
    clusters are scanned in order, long entries filling the name buffer that the
    classic entry behind them reports. */
module ReadDir {
  import opened CString
  import opened DirRecord
  import opened Fat
  import opened LongName

  /** What the callback is told. */
  datatype Found = Found(name: seq<byte>, cluster: nat, size: nat, isDir: bool)

  /** Entry number i of a cluster. */
  function Decode(s: Sector, i: nat): (e: DirEnt)
    requires i < 16
    ensures !e.End? ==> WellShaped(e)
  {
    DecodeRecord(s[32 * i..32 * i + 32])
  }

  /** The entries of a cluster from number i on, up to the first free one. */
  function Used(s: Sector, i: nat): (es: seq<DirEnt>)
    requires i <= 16
    ensures forall e :: e in es ==> WellShaped(e)
    decreases 16 - i
  {
    if i == 16 || Decode(s, i).End? then [] else [Decode(s, i)] + Used(s, i + 1)
  }

  /** An entry that can be scanned: a long one has its place in the name buffer. */
  predicate Scannable(e: DirEnt) {
    WellShaped(e) && (e.Long? ==> InBuffer(e.entry))
  }

  predicate AllScannable(es: seq<DirEnt>) {
    forall i :: 0 <= i < |es| ==> Scannable(es[i])
  }

  // ----- the scan -----

  /** The name buffer, whether a classic entry names itself, and what was reported. */
  datatype Scan = Scan(buffer: Buffer, classic: bool, out: seq<Found>)

  /** strncpy of the 12 bytes. */
  function CopyName(name: seq<byte>, b: Buffer): (r: Buffer)
    requires |name| == 12
  {
    var t := Until(name, 0);
    seq(BUFFER, i requires 0 <= i < BUFFER => if i < |t| then t[i] else if i < 12 then 0 else b[i])
  }

  function Step(s: Scan, e: DirEnt): (r: Scan)
    requires Scannable(e)
  {
    match e
    case Long(entry) => s.(buffer := Place(entry, s.buffer), classic := false)
    case Classic(name, attr, cluster, size) =>
      var b := if s.classic then CopyName(name, s.buffer) else s.buffer;
      var found := Found(Until(b, 0), cluster, size, attr == ATTR_DIRECTORY);
      Scan(b, true, if b[0] as char == '.' then s.out else s.out + [found])
  }

  function ScanAll(s: Scan, es: seq<DirEnt>): (r: Scan)
    requires AllScannable(es)
    decreases |es|
  {
    if es == [] then s else ScanAll(Step(s, es[0]), es[1..])
  }

  lemma {:induction false} ScanAppend(s: Scan, a: seq<DirEnt>, b: seq<DirEnt>)
    requires AllScannable(a) && AllScannable(b)
    ensures AllScannable(a + b) && ScanAll(s, a + b) == ScanAll(ScanAll(s, a), b)
    decreases |a|
  {
    hide Step, Scannable;
    if a == [] {
      assert a + b == b;
    } else {
      assert (a + b)[1..] == a[1..] + b;
      ScanAppend(Step(s, a[0]), a[1..], b);
    }
  }

  // ----- directories as they are written -----

  /** A file whose name can be stored in long entries and read back. */
  ghost predicate Storable(f: Found) {
    Ascii(f.name) && 0 < |f.name| <= 247
  }

  /** Files whose names start with a dot are not reported. */
  predicate Hidden(f: Found) {
    f.name != [] && f.name[0] as char == '.'
  }

  function Shown(fs: seq<Found>): (r: seq<Found>)
    ensures forall f :: f in r <==> f in fs && !Hidden(f)
    ensures |r| <= |fs|
  {
    if fs == [] then []
    else (if Hidden(fs[0]) then [] else [fs[0]]) + Shown(fs[1..])
  }

  /** The name comes out as it is: its entries leave room for a terminator, or there
      is one behind them already. */
  predicate Ends(name: seq<byte>, b: Buffer) {
    |name| <= 247 && (|name| % 13 != 0 || b[|name|] == 0)
  }

  /** A file's long entries, the last part of the name first, from number k - 1 on. */
  function LongEntries(name: seq<byte>, k: nat): (es: seq<DirEnt>)
    requires |name| <= 247 && k <= Entries(name)
    ensures |es| == k && forall i :: 0 <= i < k ==> es[i] == Long(Entry(name, k - 1 - i))
  {
    if k == 0 then [] else [Long(Entry(name, k - 1))] + LongEntries(name, k - 1)
  }

  /** The classic entry of a file; `alias` is its name there. */
  function ClassicOf(f: Found, alias: seq<byte>): (e: DirEnt)
    requires |alias| == 11
    ensures Scannable(e)
  {
    var attr: byte := if f.isDir then ATTR_DIRECTORY else 0x20;
    Classic(alias + [attr], attr, f.cluster, f.size)
  }

  /** All entries of a file. */
  function FileEntries(f: Found, alias: seq<byte>): (es: seq<DirEnt>)
    requires |f.name| <= 247 && |alias| == 11
    ensures AllScannable(es)
  {
    LongEntries(f.name, Entries(f.name)) + [ClassicOf(f, alias)]
  }

  function Down(k: nat): (o: seq<nat>)
    ensures |o| == k && forall i :: 0 <= i < k ==> o[i] == k - 1 - i
  {
    if k == 0 then [] else [k - 1] + Down(k - 1)
  }

  lemma {:induction false} ScanLong(s: Scan, name: seq<byte>, k: nat)
    requires |name| <= 247 && k <= Entries(name)
    ensures var r := ScanAll(s, LongEntries(name, k));
      && EntriesOf(name, Down(k))
      && r.buffer == PlaceAll(name, Down(k), s.buffer)
      && r.out == s.out && (k > 0 ==> !r.classic)
    decreases k
  {
    if k > 0 {
      hide Place;
      ScanLong(Step(s, Long(Entry(name, k - 1))), name, k - 1);
      assert LongEntries(name, k)[1..] == LongEntries(name, k - 1);
      assert Down(k)[1..] == Down(k - 1);
    }
  }

  /** The buffer behind a file's entries. */
  function BufferAfter(b: Buffer, name: seq<byte>): (r: Buffer)
    requires |name| <= 247
  {
    AllEntries(name);
    PlaceAll(name, Down(Entries(name)), b)
  }

  lemma AllEntries(name: seq<byte>)
    requires |name| <= 247
    ensures EntriesOf(name, Down(Entries(name)))
    ensures forall k: nat :: k < Entries(name) ==> k in Down(Entries(name))
  {
    var n := Entries(name);
    forall k: nat | k < n
      ensures k in Down(n)
    {
      assert Down(n)[n - 1 - k] == k;
    }
  }

  /** A file's long entries leave its name in the buffer, up to the tail of the
      buffer if the length is a multiple of 13, and report nothing. */
  lemma ScanName(s: Scan, name: seq<byte>)
    requires Ascii(name) && 0 < |name| <= 247
    ensures var r := ScanAll(s, LongEntries(name, Entries(name)));
      && r.out == s.out && !r.classic && r.buffer == BufferAfter(s.buffer, name)
      && name <= Until(r.buffer, 0) && r.buffer[0] == name[0]
      && (Until(r.buffer, 0) == name <==> Ends(name, s.buffer))
  {
    hide ScanAll, PlaceAll, Until;
    var n := Entries(name);
    ScanLong(s, name, n);
    AllEntries(name);
    RoundTripIff(name, Down(n), s.buffer);
    Reassembled(name, Down(n), s.buffer);
    FirstCharacter(ScanAll(s, LongEntries(name, n)).buffer, name);
  }

  lemma ScanOne(s: Scan, e: DirEnt)
    requires Scannable(e)
    ensures ScanAll(s, [e]) == Step(s, e)
  {
    assert [e][1..] == [];
  }

  /** Scanning a file's entries reports the file once, exactly if its name does not
      start with a dot, and under its own name exactly if that name ends. */
  lemma ScanFile(s: Scan, f: Found, alias: seq<byte>)
    requires Storable(f) && |alias| == 11
    ensures var r := ScanAll(s, FileEntries(f, alias));
      && r.classic && r.buffer == BufferAfter(s.buffer, f.name)
      && (Hidden(f) ==> r.out == s.out)
      && (!Hidden(f) ==>
            && |r.out| == |s.out| + 1 && r.out[..|s.out|] == s.out
            && r.out[|s.out|].(name := f.name) == f
            && (r.out[|s.out|] == f <==> Ends(f.name, s.buffer)))
  {
    hide ScanAll, Until, CopyName, LongEntries, Ends, BufferAfter;
    var n := Entries(f.name);
    var classic := ClassicOf(f, alias);
    ScanName(s, f.name);
    ScanAppend(s, LongEntries(f.name, n), [classic]);
    ScanOne(ScanAll(s, LongEntries(f.name, n)), classic);
  }

  lemma FirstCharacter(b: Buffer, name: seq<byte>)
    requires name != [] && name <= Until(b, 0)
    ensures b[0] == name[0]
  {
  }

  /** The entries of a whole directory. */
  function DirEntries(fs: seq<Found>, aliases: seq<seq<byte>>): (es: seq<DirEnt>)
    requires |fs| == |aliases|
    requires forall i :: 0 <= i < |fs| ==> |fs[i].name| <= 247 && |aliases[i]| == 11
    ensures AllScannable(es)
  {
    if fs == [] then [] else FileEntries(fs[0], aliases[0]) + DirEntries(fs[1..], aliases[1..])
  }

  /** The name of every file that is shown ends, given what the buffer holds when its
      turn comes. */
  predicate Readable(b: Buffer, fs: seq<Found>)
    requires forall i :: 0 <= i < |fs| ==> |fs[i].name| <= 247
    decreases |fs|
  {
    fs == [] ||
    ((Hidden(fs[0]) || Ends(fs[0].name, b)) && Readable(BufferAfter(b, fs[0].name), fs[1..]))
  }

  /** So it is whatever the buffer holds if no length is a multiple of 13. */
  lemma {:induction false} ReadableAnyway(b: Buffer, fs: seq<Found>)
    requires forall i :: 0 <= i < |fs| ==> |fs[i].name| <= 247 && |fs[i].name| % 13 != 0
    ensures Readable(b, fs)
    decreases |fs|
  {
    if fs != [] {
      ReadableAnyway(BufferAfter(b, fs[0].name), fs[1..]);
    }
  }

  /** Behind `out` these files are reported, under their own names exactly if `right`. */
  ghost predicate Reports(r: seq<Found>, out: seq<Found>, fs: seq<Found>, right: bool) {
    && |r| == |out| + |fs| && r[..|out|] == out
    && (r == out + fs <==> right)
  }

  lemma OneMore(r: seq<Found>, out: seq<Found>, first: seq<Found>, f: Found, ends: bool, rest: seq<Found>, right: bool)
    requires |first| == |out| + 1 && first[..|out|] == out && (first[|out|] == f <==> ends)
    requires Reports(r, first, rest, right)
    ensures Reports(r, out, [f] + rest, ends && right)
  {
    assert r[|out|] == first[|out|];
    assert (out + ([f] + rest))[|out|] == f;
    if ends {
      assert first == out + [f];
      assert out + ([f] + rest) == (out + [f]) + rest;
    }
  }

  lemma ScanFirst(s: Scan, fs: seq<Found>, aliases: seq<seq<byte>>)
    requires |fs| == |aliases| && fs != []
    requires forall i :: 0 <= i < |fs| ==> |fs[i].name| <= 247 && |aliases[i]| == 11
    ensures ScanAll(s, DirEntries(fs, aliases)) ==
            ScanAll(ScanAll(s, FileEntries(fs[0], aliases[0])), DirEntries(fs[1..], aliases[1..]))
  {
    hide ScanAll, FileEntries;
    ScanAppend(s, FileEntries(fs[0], aliases[0]), DirEntries(fs[1..], aliases[1..]));
  }

  /** A directory of files with long names is reported file by file, without the
      hidden ones, and exactly as it was written exactly if the names end. */
  lemma {:induction false} ScanDirectory(s: Scan, fs: seq<Found>, aliases: seq<seq<byte>>)
    requires |fs| == |aliases|
    requires forall i :: 0 <= i < |fs| ==> |fs[i].name| <= 247 && |aliases[i]| == 11
    requires forall i :: 0 <= i < |fs| ==> Storable(fs[i])
    ensures Reports(ScanAll(s, DirEntries(fs, aliases)).out, s.out, Shown(fs), Readable(s.buffer, fs))
    decreases |fs|
  {
    if fs != [] {
      hide ScanAll, FileEntries, DirEntries, Ends, BufferAfter, Hidden, Reports, Storable;
      var first := ScanAll(s, FileEntries(fs[0], aliases[0]));
      ScanFile(s, fs[0], aliases[0]);
      ScanFirst(s, fs, aliases);
      ScanDirectory(first, fs[1..], aliases[1..]);
      var r := ScanAll(s, DirEntries(fs, aliases)).out;
      if Hidden(fs[0]) {
        assert Shown(fs) == Shown(fs[1..]);
      } else {
        OneMore(r, s.out, first.out, fs[0], Ends(fs[0].name, s.buffer), Shown(fs[1..]),
                Readable(first.buffer, fs[1..]));
      }
    }
  }

  // ----- the reader -----

  /** The entries in use in a chain's clusters. */
  function UsedIn(d: Disk, chain: seq<nat>): (es: seq<DirEnt>) {
    if chain == [] then [] else Used(ClusterData(d, chain[0]), 0) + UsedIn(d, chain[1..])
  }

  lemma UsedInAt(d: Disk, cluster: nat, chain: seq<nat>, k: nat)
    requires k < |chain| && chain[k] == cluster
    ensures UsedIn(d, chain[k..]) == Used(ClusterData(d, cluster), 0) + UsedIn(d, chain[k + 1..])
  {
    assert chain[k..][1..] == chain[k + 1..];
  }

  lemma {:induction false} TailScannable(a: seq<DirEnt>, b: seq<DirEnt>)
    requires AllScannable(a + b)
    ensures AllScannable(a) && AllScannable(b)
  {
    forall i | 0 <= i < |a|
      ensures Scannable(a[i])
    {
      assert (a + b)[i] == a[i];
    }
    forall i | 0 <= i < |b|
      ensures Scannable(b[i])
    {
      assert (a + b)[|a| + i] == b[i];
    }
  }

  class Directory {
    const volume: Volume
    const firstCluster: nat

    constructor (volume: Volume, firstCluster: nat)
      ensures this.volume == volume && this.firstCluster == firstCluster
    {
      this.volume, this.firstCluster := volume, firstCluster;
    }

    /** The inner loop: one cluster's entries up to the first free one. */
    method ScanCluster(data: Sector, s: Scan) returns (r: Scan)
      requires AllScannable(Used(data, 0))
      ensures r == ScanAll(s, Used(data, 0))
    {
      r := s;
      var i := 0;
      while i < 16 && !Decode(data, i).End?
        invariant i <= 16 && AllScannable(Used(data, i))
        invariant ScanAll(r, Used(data, i)) == ScanAll(s, Used(data, 0))
      {
        NextUsed(data, i);
        r := Step(r, Decode(data, i));
        i := i + 1;
      }
    }

    /** FAT_readdir on a directory: everything in use in its clusters is scanned, in
        order, with a name buffer that is never cleared. */
    method Readdir(buffer: Buffer, ghost chain: seq<nat>) returns (out: seq<Found>)
      requires volume.Valid() && IsChain(volume.disk, firstCluster, chain)
      requires AllScannable(UsedIn(volume.disk, chain))
      modifies volume`cache
      ensures volume.Valid()
      ensures out == ScanAll(Scan(buffer, true, []), UsedIn(volume.disk, chain)).out
    {
      hide ScanAll, Step, Used, UsedIn, AllScannable, IsChain, ClusterData, Link;
      var s := Scan(buffer, true, []);
      var cluster: nat := firstCluster;
      ghost var k := 0;
      ghost var whole := ScanAll(s, UsedIn(volume.disk, chain));
      assert chain[0..] == chain;
      while cluster < TABLE_VAL_MAX
        invariant volume.Valid() && k <= |chain| && IsChain(volume.disk, cluster, chain[k..])
        invariant AllScannable(UsedIn(volume.disk, chain[k..]))
        invariant ScanAll(s, UsedIn(volume.disk, chain[k..])) == whole
        decreases |chain| - k
      {
        ChainAt(volume.disk, cluster, chain, k);
        ChainHead(volume.disk, cluster, chain, k);
        UsedInAt(volume.disk, cluster, chain, k);
        var data := ClusterData(volume.disk, cluster);
        TailScannable(Used(data, 0), UsedIn(volume.disk, chain[k + 1..]));
        ScanAppend(s, Used(data, 0), UsedIn(volume.disk, chain[k + 1..]));
        s := ScanCluster(data, s);
        cluster := volume.GetNextClusterNum(cluster);
        k := k + 1;
      }
      ChainEnded(volume.disk, cluster, chain, k);
      NothingLeft(volume.disk, chain, k, s);
      out := s.out;
    }
  }

  lemma NextUsed(data: Sector, i: nat)
    requires i < 16 && !Decode(data, i).End? && AllScannable(Used(data, i))
    ensures Used(data, i) == [Decode(data, i)] + Used(data, i + 1)
    ensures Scannable(Decode(data, i)) && AllScannable(Used(data, i + 1))
    ensures forall s :: ScanAll(s, Used(data, i)) == ScanAll(Step(s, Decode(data, i)), Used(data, i + 1))
  {
    hide Decode, Step;
    var es := Used(data, i);
    assert es[0] == Decode(data, i);
    assert es[1..] == Used(data, i + 1);
    TailScannable([es[0]], es[1..]);
  }

  lemma ChainHead(d: Disk, cluster: nat, chain: seq<nat>, k: nat)
    requires k < |chain| && IsChain(d, cluster, chain[k..])
    ensures chain[k] == cluster
  {
    assert chain[k..][0] == chain[k];
  }

  lemma NothingLeft(d: Disk, chain: seq<nat>, k: nat, s: Scan)
    requires k == |chain|
    ensures AllScannable(UsedIn(d, chain[k..])) && ScanAll(s, UsedIn(d, chain[k..])) == s
  {
  }

  // ----- from the bytes on disk -----

  function EncodeAll(es: seq<DirEnt>): (b: seq<byte>)
    requires AllEncodable(es)
    ensures |b| == 32 * |es|
  {
    if es == [] then [] else Encode(es[0]) + EncodeAll(es[1..])
  }

  predicate AllEncodable(es: seq<DirEnt>) {
    forall i :: 0 <= i < |es| ==> Encodable(es[i])
  }

  lemma {:induction false} EncodeAppend(a: seq<DirEnt>, b: seq<DirEnt>)
    requires AllEncodable(a) && AllEncodable(b)
    ensures AllEncodable(a + b) && EncodeAll(a + b) == EncodeAll(a) + EncodeAll(b)
    decreases |a|
  {
    hide Encode, Encodable;
    if a == [] {
      assert a + b == b;
    } else {
      assert (a + b)[1..] == a[1..] + b;
      EncodeAppend(a[1..], b);
    }
  }

  /** What is written in a cluster behind its first i records, up to zeroes. */
  ghost predicate Holds(s: Sector, i: nat, es: seq<DirEnt>) {
    && i + |es| <= 16 && AllEncodable(es)
    && s[32 * i..] == EncodeAll(es) + Zeros(512 - 32 * i - 32 * |es|)
  }

  lemma RecordAt(s: Sector, i: nat, es: seq<DirEnt>)
    requires Holds(s, i, es) && i < 16
    ensures es == [] ==> Decode(s, i).End?
    ensures es != [] ==> Decode(s, i) == es[0] && !es[0].End? && Holds(s, i + 1, es[1..])
  {
    hide DecodeRecord, Encode, Encodable;
    var rest := EncodeAll(if es == [] then [] else es[1..]);
    if es == [] {
      TailOfRecords(s, i, [], Zeros(512 - 32 * i));
      EndIsZero(s[32 * i..32 * i + 32]);
    } else {
      assert Encodable(es[0]);
      DecodeEncode(es[0]);
      NotEnd(es[0]);
      TailOfRecords(s, i, Encode(es[0]), rest + Zeros(512 - 32 * i - 32 * |es|));
    }
  }

  lemma NotEnd(e: DirEnt)
    requires Encodable(e)
    ensures !e.End?
  {
  }

  /** The record number i of a cluster, and what follows it. */
  lemma TailOfRecords(s: Sector, i: nat, r: seq<byte>, rest: seq<byte>)
    requires i < 16 && (|r| == 32 || r == []) && |rest| >= 32 - |r|
    requires s[32 * i..] == r + rest
    ensures s[32 * i..32 * i + 32] == (r + rest)[..32] && s[32 * (i + 1)..] == (r + rest)[32..]
    ensures |r| == 32 ==> (r + rest)[..32] == r && (r + rest)[32..] == rest
  {
    var tail := s[32 * i..];
    assert s[32 * i..32 * i + 32] == tail[..32];
    assert s[32 * (i + 1)..] == tail[32..];
  }

  lemma EndIsZero(r: seq<byte>)
    requires |r| == 32 && r[0] == 0
    ensures DecodeRecord(r) == End
  {
  }

  lemma {:induction false} UsedHolds(s: Sector, i: nat, es: seq<DirEnt>)
    requires Holds(s, i, es)
    ensures Used(s, i) == es
    decreases |es|
  {
    hide Decode, Holds;
    if i < 16 {
      RecordAt(s, i, es);
      if es != [] {
        UsedHolds(s, i + 1, es[1..]);
        assert es == [es[0]] + es[1..];
      }
    } else {
      HoldsNothing(s, i, es);
    }
  }

  lemma HoldsNothing(s: Sector, i: nat, es: seq<DirEnt>)
    requires Holds(s, i, es) && i >= 16
    ensures es == [] && i == 16
  {
  }

  /** A chain whose bytes are these records, up to zeroes, is read as these entries,
      wherever the boundaries between its clusters fall. */
  lemma {:induction false} UsedInBytes(d: Disk, chain: seq<nat>, es: seq<DirEnt>)
    requires AllEncodable(es) && |es| <= 16 * |chain|
    requires Bytes(d, chain) == EncodeAll(es) + Zeros(512 * |chain| - 32 * |es|)
    ensures UsedIn(d, chain) == es
    decreases |chain|
  {
    if chain != [] {
      var k := if |es| < 16 then |es| else 16;
      FirstCluster(d, chain, es, k);
      hide Bytes, Zeros, EncodeAll, Holds;
      UsedHolds(ClusterData(d, chain[0]), 0, es[..k]);
      UsedInBytes(d, chain[1..], es[k..]);
      assert es == es[..k] + es[k..];
    }
  }

  lemma FirstCluster(d: Disk, chain: seq<nat>, es: seq<DirEnt>, k: nat)
    requires AllEncodable(es) && |es| <= 16 * |chain| && chain != []
    requires Bytes(d, chain) == EncodeAll(es) + Zeros(512 * |chain| - 32 * |es|)
    requires k == if |es| < 16 then |es| else 16
    ensures AllEncodable(es[k..]) && Holds(ClusterData(d, chain[0]), 0, es[..k])
    ensures Bytes(d, chain[1..]) == EncodeAll(es[k..]) + Zeros(512 * (|chain| - 1) - 32 * (|es| - k))
  {
    hide EncodeAll, ClusterData, AllEncodable, Bytes;
    EncodeSplit(es, k);
    BytesSplit(d, chain);
    var x, y := EncodeAll(es[..k]), EncodeAll(es[k..]);
    var c := ClusterData(d, chain[0]);
    assert c[32 * 0..] == c;
    SplitAt512(Bytes(d, chain), x, y, 512 * |chain| - 32 * |es|);
  }

  lemma EncodeSplit(es: seq<DirEnt>, k: nat)
    requires AllEncodable(es) && k <= |es|
    ensures AllEncodable(es[..k]) && AllEncodable(es[k..])
    ensures EncodeAll(es) == EncodeAll(es[..k]) + EncodeAll(es[k..])
  {
    hide Encodable, EncodeAll;
    assert AllEncodable(es[..k]) && AllEncodable(es[k..]);
    hide AllEncodable;
    EncodeAppend(es[..k], es[k..]);
    assert es[..k] + es[k..] == es;
  }

  lemma BytesSplit(d: Disk, chain: seq<nat>)
    requires chain != []
    ensures Bytes(d, chain)[..512] == ClusterData(d, chain[0]) && Bytes(d, chain)[512..] == Bytes(d, chain[1..])
  {
    hide ClusterData;
  }

  lemma SplitAt512(b: seq<byte>, x: seq<byte>, y: seq<byte>, n: nat)
    requires |b| >= 512 && b == x + y + Zeros(n)
    requires |x| == 512 || (|x| < 512 && y == [])
    ensures b[..512] == x + Zeros(512 - |x|)
    ensures b[512..] == y + Zeros(|b| - 512 - |y|)
  {
  }

  /** The fields of a file fit its records. */
  ghost predicate FieldsFit(f: Found, alias: seq<byte>) {
    |f.name| <= 247 && |alias| == 11 && alias[0] != 0 && f.cluster < 0x8000_0000 && f.size < 0x1_0000_0000
  }

  ghost predicate AllFit(fs: seq<Found>, aliases: seq<seq<byte>>) {
    |fs| == |aliases| && forall i :: 0 <= i < |fs| ==> FieldsFit(fs[i], aliases[i])
  }

  lemma {:induction false} DirEncodable(fs: seq<Found>, aliases: seq<seq<byte>>)
    requires AllFit(fs, aliases)
    ensures AllEncodable(DirEntries(fs, aliases))
    decreases |fs|
  {
    if fs != [] {
      DirEncodable(fs[1..], aliases[1..]);
      FileEncodable(fs[0], aliases[0]);
    }
  }

  lemma FileEncodable(f: Found, alias: seq<byte>)
    requires FieldsFit(f, alias)
    ensures AllEncodable(FileEntries(f, alias))
  {
    hide Entry, Encodable, Entries;
    forall k: nat | k < Entries(f.name)
      ensures Encodable(Long(Entry(f.name, k)))
    {
      EntryEncodable(f.name, k);
    }
    ClassicEncodable(f, alias);
  }

  lemma ClassicEncodable(f: Found, alias: seq<byte>)
    requires FieldsFit(f, alias)
    ensures Encodable(ClassicOf(f, alias))
  {
  }

  lemma EntryEncodable(name: seq<byte>, k: nat)
    requires |name| <= 247 && k < Entries(name)
    ensures Encodable(Long(Entry(name, k)))
  {
    var e := Entry(name, k);
    assert e.order != 0;
    assert forall i :: 0 <= i < 13 ==> e.Units()[i] < 0x1_0000;
    assert forall i :: 0 <= i < 5 ==> e.first[i] == e.Units()[i];
    assert forall i :: 0 <= i < 6 ==> e.middle[i] == e.Units()[5 + i];
    assert forall i :: 0 <= i < 2 ==> e.last[i] == e.Units()[11 + i];
  }

  /** So many clusters' bytes are the records of these files, one after the other, and
      zeroes. */
  ghost predicate Written(bytes: seq<byte>, clusters: nat, fs: seq<Found>, aliases: seq<seq<byte>>)
    requires AllFit(fs, aliases)
  {
    DirEncodable(fs, aliases);
    var es := DirEntries(fs, aliases);
    |es| <= 16 * clusters && bytes == EncodeAll(es) + Zeros(512 * clusters - 32 * |es|)
  }

  /** So a directory whose files are written to clusters of the data area is read back
      without its hidden files, however its records fall onto clusters, and as it was
      written exactly if the names end. */
  lemma DirectoryRoundTrip(d: Disk, boot: seq<Sector>, fats: seq<Sector>, data: seq<Sector>, chain: seq<nat>,
                           buffer: Buffer, fs: seq<Found>, aliases: seq<seq<byte>>)
    requires LaidOut(d, boot, fats, data) && InArea(data, chain)
    requires AllFit(fs, aliases) && forall i :: 0 <= i < |fs| ==> Storable(fs[i])
    requires Written(AreaBytes(data, chain), |chain|, fs, aliases)
    ensures AllScannable(UsedIn(d, chain))
    ensures ScanAll(Scan(buffer, true, []), UsedIn(d, chain)).out == Shown(fs) <==> Readable(buffer, fs)
  {
    BytesAreArea(d, boot, fats, data, chain);
    DirEncodable(fs, aliases);
    UsedInBytes(d, chain, DirEntries(fs, aliases));
    ScanDirectory(Scan(buffer, true, []), fs, aliases);
  }
}
