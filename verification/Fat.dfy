/** The FAT32 file reader (fs/fat.c): cluster chains followed through a one-sector
    cache of the FAT, and reads through a cursor. One sector per cluster, on a
    device whose reads succeed. */
module Fat {
  type byte = x: nat | x < 256

  /** off_t: file sizes and cursors. */
  type offset = x: nat | x < 0x1_0000_0000_0000_0000

  /** Cluster numbers from here on end a chain. */
  const TABLE_VAL_MAX: nat := 0x0FFF_FFF8

  type Sector = s: seq<byte> | |s| == 512 witness seq(512, _ => 0)

  /** The device's sectors and the geometry found in the boot sector. */
  datatype Disk = Disk(sectors: seq<Sector>, reserved: nat, sectorsPerFat: nat, numFats: nat)

  function Le32(s: seq<byte>, o: nat): (v: nat)
    requires o + 4 <= |s|
    ensures v < 0x1_0000_0000
  {
    var b: seq<nat> := s;
    b[o] + 0x100 * b[o + 1] + 0x1_0000 * b[o + 2] + 0x100_0000 * b[o + 3]
  }

  /** The sector of the FAT that holds cluster c's entry, and its offset there. */
  function FatSector(d: Disk, c: nat): (s: nat) {
    d.reserved + c * 4 / 512
  }

  function EntryOffset(c: nat): (o: nat)
    ensures o + 4 <= 512
  {
    c * 4 % 512
  }

  /** FAT entry c, masked to 28 bits. */
  function Link(d: Disk, c: nat): (n: nat)
    requires FatSector(d, c) < |d.sectors|
    ensures n < 0x1000_0000
  {
    Le32(d.sectors[FatSector(d, c)], EntryOffset(c)) % 0x1000_0000
  }

  /** Every entry of a chainable cluster lies whole in its sector, and neither its
      byte offset nor its sector number overflows 32 bits. */
  lemma EntryFits(d: Disk, c: nat)
    requires c < TABLE_VAL_MAX && d.reserved < 0x1_0000
    ensures c * 4 < 0x1_0000_0000 && FatSector(d, c) < 0x1_0000_0000
    ensures EntryOffset(c) % 4 == 0 && EntryOffset(c) <= 508
    ensures 512 * (FatSector(d, c) - d.reserved) + EntryOffset(c) == 4 * c
  {
    var q := c / 128;
    assert c * 4 == 512 * q + 4 * (c % 128);
  }

  // ----- the FAT cache -----

  datatype Cache = Cache(sector: nat, data: Sector)

  /** The static variables at boot: sector number 0, all bytes zero. */
  function BootCache(): (c: Cache) {
    Cache(0, Blank())
  }

  /** get_FAT. */
  function Fetch(c: Cache, d: Disk, sector: nat): (r: Cache)
    requires sector < |d.sectors|
  {
    if c.sector != sector then Cache(sector, d.sectors[sector]) else c
  }

  ghost predicate Coherent(c: Cache, d: Disk) {
    c.sector == 0 || (c.sector < |d.sectors| && c.data == d.sectors[c.sector])
  }

  /** Since 0 doubles as "nothing cached", the first fetch is right exactly for the
      other sectors, or if sector 0 happens to be blank. So a reserved sector in
      front of the FAT is what makes the cache transparent. */
  lemma FirstFetchIff(d: Disk, sector: nat)
    requires sector < |d.sectors|
    ensures Fetch(BootCache(), d, sector).data == d.sectors[sector]
        <==> sector != 0 || d.sectors[0] == BootCache().data
  {
  }

  lemma FetchCoherent(c: Cache, d: Disk, sector: nat)
    requires Coherent(c, d) && 0 < sector < |d.sectors|
    ensures Coherent(Fetch(c, d, sector), d) && Fetch(c, d, sector).data == d.sectors[sector]
  {
  }

  // ----- chains and file contents -----

  function ClusterSector(d: Disk, c: nat): (s: int) {
    d.reserved + d.sectorsPerFat * d.numFats + (c - 2)
  }

  ghost predicate ClusterOk(d: Disk, c: nat) {
    c < TABLE_VAL_MAX && FatSector(d, c) < |d.sectors| && 0 <= ClusterSector(d, c) < |d.sectors|
  }

  /** Following links from `first` runs through `chain` and then ends. */
  ghost predicate IsChain(d: Disk, first: nat, chain: seq<nat>)
    decreases |chain|
  {
    if chain == [] then first >= TABLE_VAL_MAX
    else first == chain[0] && ClusterOk(d, first) && IsChain(d, Link(d, first), chain[1..])
  }

  function Blank(): (s: Sector) {
    seq(512, _ => 0)
  }

  /** What FAT_read_cluster reads; blank outside the device. */
  function ClusterData(d: Disk, c: nat): (s: Sector) {
    if 0 <= ClusterSector(d, c) < |d.sectors| then d.sectors[ClusterSector(d, c)] else Blank()
  }

  /** The bytes stored in a chain's clusters. */
  function Bytes(d: Disk, chain: seq<nat>): (b: seq<byte>)
    ensures |b| == 512 * |chain|
  {
    if chain == [] then [] else ClusterData(d, chain[0]) + Bytes(d, chain[1..])
  }

  // ----- the volume as it is laid out -----

  /** Reserved sectors, the FATs, and the data area, one behind the other. */
  ghost predicate LaidOut(d: Disk, boot: seq<Sector>, fats: seq<Sector>, data: seq<Sector>) {
    d.sectors == boot + fats + data && |boot| == d.reserved && |fats| == d.numFats * d.sectorsPerFat
  }

  /** The sectors of a FAT as one sequence of bytes. */
  function Flat(ss: seq<Sector>): (b: seq<byte>)
    ensures |b| == 512 * |ss|
  {
    if ss == [] then [] else ss[0] + Flat(ss[1..])
  }

  /** The data area's clusters are numbered from 2 on. */
  ghost predicate InArea(data: seq<Sector>, chain: seq<nat>) {
    forall i :: 0 <= i < |chain| ==> 2 <= chain[i] < |data| + 2
  }

  /** What the clusters of a chain hold, in the data area. */
  function AreaBytes(data: seq<Sector>, chain: seq<nat>): (b: seq<byte>)
    requires InArea(data, chain)
    ensures |b| == 512 * |chain|
  {
    if chain == [] then [] else data[chain[0] - 2] + AreaBytes(data, chain[1..])
  }

  /** Cluster c is sector c - 2 of the data area. */
  lemma ClusterIsData(d: Disk, boot: seq<Sector>, fats: seq<Sector>, data: seq<Sector>, c: nat)
    requires LaidOut(d, boot, fats, data) && 2 <= c < |data| + 2
    ensures ClusterData(d, c) == data[c - 2] && 0 <= ClusterSector(d, c) < |d.sectors|
  {
    assert (boot + fats + data)[|boot| + |fats| + (c - 2)] == data[c - 2];
  }

  lemma {:induction false} BytesAreArea(d: Disk, boot: seq<Sector>, fats: seq<Sector>, data: seq<Sector>,
                                        chain: seq<nat>)
    requires LaidOut(d, boot, fats, data) && InArea(data, chain)
    ensures Bytes(d, chain) == AreaBytes(data, chain)
    decreases |chain|
  {
    if chain != [] {
      hide LaidOut, ClusterData;
      assert InArea(data, chain[1..]);
      ClusterIsData(d, boot, fats, data, chain[0]);
      BytesAreArea(d, boot, fats, data, chain[1..]);
    }
  }

  lemma {:induction false} FlatAt(ss: seq<Sector>, k: nat, o: nat)
    requires k < |ss| && o < 512
    ensures Flat(ss)[512 * k + o] == ss[k][o]
    decreases k
  {
    if k > 0 {
      FlatAt(ss[1..], k - 1, o);
    }
  }

  /** The entry of cluster c is the 32-bit number at byte 4 c of the first FAT, its
      upper four bits not counted. */
  lemma LinkIsEntry(d: Disk, boot: seq<Sector>, fats: seq<Sector>, data: seq<Sector>, c: nat)
    requires LaidOut(d, boot, fats, data) && c < 128 * |fats|
    ensures FatSector(d, c) < |d.sectors| && 4 * c + 4 <= |Flat(fats)|
    ensures Link(d, c) == Le32(Flat(fats), 4 * c) % 0x1000_0000
  {
    var k, o := c / 128, 4 * (c % 128);
    EntryAt(d, c, k, o);
    assert (boot + fats + data)[|boot| + k] == fats[k];
    hide LaidOut;
    FlatAt(fats, k, o);
    FlatAt(fats, k, o + 1);
    FlatAt(fats, k, o + 2);
    FlatAt(fats, k, o + 3);
  }

  lemma EntryAt(d: Disk, c: nat, k: nat, o: nat)
    requires k == c / 128 && o == 4 * (c % 128)
    ensures FatSector(d, c) == d.reserved + k && EntryOffset(c) == o && 4 * c == 512 * k + o && o <= 508
  {
    assert c == 128 * k + c % 128;
    assert c * 4 == 512 * k + o;
  }

  /** The FAT's entry for a cluster. */
  function EntryOf(fats: seq<Sector>, c: nat): (n: nat)
    requires c < 128 * |fats|
  {
    Le32(Flat(fats), 4 * c) % 0x1000_0000
  }

  /** The FAT leads from `first` through the chain, and from its last cluster to an end
      mark. */
  ghost predicate Chained(fats: seq<Sector>, first: nat, chain: seq<nat>)
    decreases |chain|
  {
    if chain == [] then first >= TABLE_VAL_MAX
    else first == chain[0] && first < TABLE_VAL_MAX && first < 128 * |fats|
         && Chained(fats, EntryOf(fats, first), chain[1..])
  }

  /** So what the driver follows is what the FAT says. */
  lemma {:induction false} ChainIsChained(d: Disk, boot: seq<Sector>, fats: seq<Sector>, data: seq<Sector>,
                                          first: nat, chain: seq<nat>)
    requires LaidOut(d, boot, fats, data) && InArea(data, chain) && Chained(fats, first, chain)
    ensures IsChain(d, first, chain)
    decreases |chain|
  {
    if chain != [] {
      assert 2 <= chain[0] < |data| + 2;
      assert InArea(data, chain[1..]);
      hide LaidOut, Link, ClusterSector, Le32, Flat, InArea;
      LinkIsEntry(d, boot, fats, data, first);
      ClusterIsData(d, boot, fats, data, first);
      ChainIsChained(d, boot, fats, data, Link(d, first), chain[1..]);
    }
  }

  /** A chain determines its clusters: there is only one way to follow it. */
  lemma {:induction false} ChainUnique(d: Disk, first: nat, a: seq<nat>, b: seq<nat>)
    requires IsChain(d, first, a) && IsChain(d, first, b)
    ensures a == b
    decreases |a|
  {
    if a != [] && b != [] {
      ChainStep(d, first, a);
      ChainStep(d, first, b);
      hide IsChain, Link;
      ChainUnique(d, Link(d, first), a[1..], b[1..]);
      assert a == [a[0]] + a[1..] && b == [b[0]] + b[1..];
    }
  }

  lemma ChainStep(d: Disk, first: nat, chain: seq<nat>)
    requires IsChain(d, first, chain) && chain != []
    ensures first == chain[0] && first < TABLE_VAL_MAX && FatSector(d, first) < |d.sectors|
    ensures 0 <= ClusterSector(d, first) < |d.sectors|
    ensures IsChain(d, Link(d, first), chain[1..])
  {
    hide Link;
  }

  lemma {:induction false} ChainFrom(d: Disk, first: nat, chain: seq<nat>, k: nat)
    requires IsChain(d, first, chain) && k < |chain|
    ensures IsChain(d, chain[k], chain[k..])
    decreases k
  {
    ChainStep(d, first, chain);
    if k > 0 {
      ChainFrom(d, Link(d, first), chain[1..], k - 1);
      assert chain[1..][k - 1..] == chain[k..];
    } else {
      assert chain[0..] == chain;
    }
  }

  /** A chain that ends visits no cluster twice. */
  lemma ChainAcyclic(d: Disk, first: nat, chain: seq<nat>, i: nat, j: nat)
    requires IsChain(d, first, chain) && i < j < |chain|
    ensures chain[i] != chain[j]
  {
    hide IsChain;
    ChainFrom(d, first, chain, i);
    ChainFrom(d, first, chain, j);
    if chain[i] == chain[j] {
      ChainUnique(d, chain[i], chain[i..], chain[j..]);
    }
  }

  lemma {:induction false} BytesAt(d: Disk, chain: seq<nat>, k: nat)
    requires k < |chain|
    ensures Bytes(d, chain)[512 * k..512 * k + 512] == ClusterData(d, chain[k])
  {
    if k > 0 {
      BytesAt(d, chain[1..], k - 1);
      var rest := Bytes(d, chain[1..]);
      assert Bytes(d, chain)[512 * k..512 * k + 512] == rest[512 * (k - 1)..512 * (k - 1) + 512];
    }
  }

  /** Where a read that starts at `cursor` must stop. Past the end of the file the
      unsigned remainder st_size - cursor is huge, and only the end of the chain
      stops the read. */
  function Limit(size: nat, stored: nat, cursor: nat): (e: nat) {
    if cursor <= size then size
    else if cursor <= stored then stored
    else cursor
  }

  /** The number of bytes a read of `len` bytes delivers. */
  function ReadCount(size: nat, stored: nat, cursor: nat, len: int): (k: nat)
    requires size <= stored
  {
    var room := Limit(size, stored, cursor) - cursor;
    if len <= 0 then 0 else if len < room then len else room
  }

  /** A read delivers only bytes of the file exactly when the cursor is not past
      its end, or nothing is stored there. */
  lemma ReadInFileIff(size: nat, stored: nat, cursor: nat, len: int)
    requires size <= stored && len > 0
    ensures cursor + ReadCount(size, stored, cursor, len) <= size || ReadCount(size, stored, cursor, len) == 0
        <==> cursor <= size || stored <= cursor
    ensures cursor <= size ==>
              ReadCount(size, stored, cursor, len) == if cursor + len <= size then len else size - cursor
  {
  }

  class Volume {
    const disk: Disk
    var cache: Cache

    ghost predicate Valid()
      reads this
    {
      disk.reserved > 0 && Coherent(cache, disk)
    }

    constructor (disk: Disk)
      requires disk.reserved > 0
      ensures Valid() && this.disk == disk
    {
      this.disk := disk;
      cache := BootCache();
    }

    /** get_next_cluster_num: after any sequence of lookups, the FAT's own entry. */
    method GetNextClusterNum(c: nat) returns (n: nat)
      requires Valid() && FatSector(disk, c) < |disk.sectors|
      modifies this`cache
      ensures Valid() && n == Link(disk, c)
    {
      FetchCoherent(cache, disk, FatSector(disk, c));
      cache := Fetch(cache, disk, FatSector(disk, c));
      n := Le32(cache.data, EntryOffset(c)) % 0x1000_0000;
    }
  }

  /** The size of one pass: what is wanted, up to the end of the cluster and the
      remainder of the file, an unsigned 64-bit difference. */
  function StepCount(cursor: nat, size: nat, want: nat): (n: nat)
    ensures n <= want && n <= 512 - cursor % 512
  {
    var room := (size - cursor) % 0x1_0000_0000_0000_0000;
    var inCluster := if 512 - cursor % 512 < room then 512 - cursor % 512 else room;
    if want < inCluster then want else inCluster
  }

  /** What holds before each pass over cluster number k of the chain. */
  predicate Reading(size: nat, clusters: nat, c0: nat, count: nat, len: int, k: nat) {
    var stored := 512 * clusters;
    && k <= clusters && size <= stored && count <= ReadCount(size, stored, c0, len)
    && (count < len && c0 <= stored ==> (c0 + count) / 512 == k || (c0 <= size && c0 + count == size))
    && (stored < c0 ==> k == clusters)
  }

  lemma ReadingStart(size: nat, clusters: nat, c0: nat, len: int)
    requires size <= 512 * clusters && c0 / 512 <= clusters
    ensures Reading(size, clusters, c0, 0, len, c0 / 512)
  {
  }

  lemma ReadingStep(size: nat, clusters: nat, c0: nat, count: nat, len: int, k: nat)
    requires Reading(size, clusters, c0, count, len, k) && k < clusters && count < len < 0x8000_0000
    requires c0 < 0x100_0000_0000 && size < 0x1_0000_0000_0000_0000
    ensures var n := StepCount(c0 + count, size, len - count);
      && Reading(size, clusters, c0, count + n, len, k + 1)
      && count + n <= ReadCount(size, 512 * clusters, c0, len) && c0 + count + n < 0x200_0000_0000
      && (n > 0 ==> (c0 + count) / 512 == k && c0 + count + n <= 512 * (k + 1))
  {
  }

  lemma ReadingDone(size: nat, clusters: nat, c0: nat, count: nat, len: int, k: nat)
    requires Reading(size, clusters, c0, count, len, k) && (k == clusters || count >= len)
    ensures count == ReadCount(size, 512 * clusters, c0, len)
  {
  }

  /** A read that starts behind the end of the chain delivers nothing. */
  lemma NothingThere(size: nat, clusters: nat, c0: nat, len: int)
    requires size <= 512 * clusters && clusters < c0 / 512
    ensures ReadCount(size, 512 * clusters, c0, len) == 0
  {
  }

  lemma SliceOfSlice(b: seq<byte>, at: nat, width: nat, off: nat, n: nat)
    requires at + width <= |b| && off + n <= width
    ensures b[at..at + width][off..off + n] == b[at + off..at + off + n]
  {
    var inner, outer := b[at..at + width][off..off + n], b[at + off..at + off + n];
    assert forall i :: 0 <= i < n ==> inner[i] == outer[i];
  }

  /** `s` with `piece` written over it from index `at` on. */
  function Spliced(s: seq<byte>, at: nat, piece: seq<byte>): (r: seq<byte>)
    requires at + |piece| <= |s|
  {
    s[..at] + piece + s[at + |piece|..]
  }

  lemma SplicedNothing(s: seq<byte>, at: nat, data: Sector, from: nat)
    requires at <= |s| && from <= 512
    ensures Spliced(s, at, data[from..from + 0]) == s
  {
  }

  lemma SplicedNext(s: seq<byte>, at: nat, data: Sector, from: nat, i: nat)
    requires at + i < |s| && from + i < 512
    ensures |Spliced(s, at, data[from..from + i])| == |s|
    ensures Spliced(s, at, data[from..from + i])[at + i := data[from + i]]
         == Spliced(s, at, data[from..from + (i + 1)])
  {
    assert data[from..from + (i + 1)] == data[from..from + i] + [data[from + i]];
  }

  /** The first `count` bytes of `now` are the slice of b at c0, the others are
      still those of `was`. */
  predicate Delivered(b: seq<byte>, c0: nat, was: seq<byte>, now: seq<byte>, count: nat) {
    && count <= |now| == |was| && now[count..] == was[count..]
    && (count > 0 ==> c0 + count <= |b| && now[..count] == b[c0..c0 + count])
  }

  lemma NothingDelivered(b: seq<byte>, c0: nat, was: seq<byte>)
    ensures Delivered(b, c0, was, was, 0)
  {
  }

  /** Reading x bytes and then y bytes delivers, in two buffers, what reading x + y
      bytes delivers in one. */
  lemma ReadTwice(b: seq<byte>, size: nat, c0: nat, x: nat, y: nat,
                  one: seq<byte>, two: seq<byte>, both: seq<byte>, was: seq<seq<byte>>)
    requires size <= |b| && |was| == 3
    requires Delivered(b, c0, was[0], one, ReadCount(size, |b|, c0, x))
    requires var k := ReadCount(size, |b|, c0, x); Delivered(b, c0 + k, was[1], two, ReadCount(size, |b|, c0 + k, y))
    requires Delivered(b, c0, was[2], both, ReadCount(size, |b|, c0, x + y))
    ensures var k := ReadCount(size, |b|, c0, x); var m := ReadCount(size, |b|, c0 + k, y);
      ReadCount(size, |b|, c0, x + y) == k + m && both[..k + m] == one[..k] + two[..m]
  {
    var k := ReadCount(size, |b|, c0, x);
    var m := ReadCount(size, |b|, c0 + k, y);
    assert ReadCount(size, |b|, c0, x + y) == k + m;
    if k > 0 && m > 0 {
      assert b[c0..c0 + k + m] == b[c0..c0 + k] + b[c0 + k..c0 + k + m];
    }
  }

  /** The next cluster's data follows what has been delivered so far. */
  lemma CopyStep(b: seq<byte>, c0: nat, was: seq<byte>, now: seq<byte>, count: nat, data: Sector, n: nat)
    requires Delivered(b, c0, was, now, count)
    requires count + n <= |now| && (c0 + count) % 512 + n <= 512
    requires n > 0 ==> 512 * ((c0 + count) / 512) + 512 <= |b|
                       && b[512 * ((c0 + count) / 512)..512 * ((c0 + count) / 512) + 512] == data
    ensures var off := (c0 + count) % 512;
      Delivered(b, c0, was, Spliced(now, count, data[off..off + n]), count + n)
  {
    var at, off := 512 * ((c0 + count) / 512), (c0 + count) % 512;
    var after := Spliced(now, count, data[off..off + n]);
    assert after[count + n..] == now[count + n..] == now[count..][n..] == was[count..][n..] == was[count + n..];
    if n > 0 {
      SliceOfSlice(b, at, 512, off, n);
      assert after[..count + n] == now[..count] + data[off..off + n];
      assert b[c0..c0 + count + n] == b[c0..c0 + count] + b[c0 + count..c0 + count + n];
    } else {
      assert after == now;
    }
  }

  /** The chain seen from its k-th cluster. */
  lemma ChainAt(d: Disk, cluster: nat, chain: seq<nat>, k: nat)
    requires k <= |chain| && IsChain(d, cluster, chain[k..]) && cluster < TABLE_VAL_MAX
    ensures k < |chain| && FatSector(d, cluster) < |d.sectors|
    ensures Bytes(d, chain)[512 * k..512 * k + 512] == ClusterData(d, cluster)
    ensures IsChain(d, Link(d, cluster), chain[k + 1..])
  {
    hide ClusterData, Link, Bytes;
    ChainStep(d, cluster, chain[k..]);
    assert chain[k..][1..] == chain[k + 1..];
    BytesAt(d, chain, k);
  }

  lemma ChainEnded(d: Disk, cluster: nat, chain: seq<nat>, k: nat)
    requires k <= |chain| && IsChain(d, cluster, chain[k..]) && cluster >= TABLE_VAL_MAX
    ensures k == |chain|
  {
  }

  lemma AreaOf(d: Disk, chain: seq<nat>)
    ensures forall boot, fats, data :: LaidOut(d, boot, fats, data) && InArea(data, chain) ==>
              AreaBytes(data, chain) == Bytes(d, chain)
  {
    hide LaidOut, InArea, AreaBytes, Bytes;
    forall boot, fats, data | LaidOut(d, boot, fats, data) && InArea(data, chain)
      ensures AreaBytes(data, chain) == Bytes(d, chain)
    {
      BytesAreArea(d, boot, fats, data, chain);
    }
  }

  class File {
    const volume: Volume
    const firstCluster: nat
    const size: offset
    var cursor: offset

    constructor (volume: Volume, firstCluster: nat, size: offset)
      ensures this.volume == volume && this.firstCluster == firstCluster && this.size == size && cursor == 0
    {
      this.volume := volume;
      this.firstCluster := firstCluster;
      this.size := size;
      cursor := 0;
    }

    /** FAT_file_lseek. */
    method Lseek(to: offset)
      modifies this`cursor
      ensures cursor == to
    {
      cursor := to;
    }

    /** The loop that finds the cluster where the read begins; `found` is false if
        the chain ends first. */
    method Seek(ghost chain: seq<nat>) returns (found: bool, cluster: nat)
      requires volume.Valid() && IsChain(volume.disk, firstCluster, chain)
      modifies volume`cache
      ensures volume.Valid()
      ensures found <==> cursor / 512 <= |chain|
      ensures found ==> IsChain(volume.disk, cluster, chain[cursor / 512..])
    {
      cluster := firstCluster;
      var i := 0;
      while i < cursor / 512
        invariant 0 <= i <= cursor / 512 && i <= |chain| && volume.Valid()
        invariant IsChain(volume.disk, cluster, chain[i..])
      {
        if cluster >= TABLE_VAL_MAX {
          return false, cluster;
        }
        assert chain[i..][1..] == chain[i + 1..];
        cluster := volume.GetNextClusterNum(cluster);
        i := i + 1;
      }
      found := true;
    }

    method Copy(dst: array<byte>, at: nat, data: Sector, from: nat, n: nat)
      requires at + n <= dst.Length && from + n <= 512
      modifies dst
      ensures dst[..] == Spliced(old(dst[..]), at, data[from..from + n])
    {
      hide Spliced;
      var i := 0;
      SplicedNothing(dst[..], at, data, from);
      while i < n
        invariant 0 <= i <= n
        invariant dst[..] == Spliced(old(dst[..]), at, data[from..from + i])
      {
        SplicedNext(old(dst[..]), at, data, from, i);
        dst[at + i] := data[from + i];
        i := i + 1;
      }
    }

    /** FAT_file_read: the slice of the stored bytes from the cursor on, the cursor
        moved behind it, and the rest of the destination untouched. */
    method Read(dst: array<byte>, len: int, ghost chain: seq<nat>) returns (count: nat)
      requires volume.Valid() && IsChain(volume.disk, firstCluster, chain)
      requires size <= 512 * |chain| && cursor < 0x100_0000_0000 && len < 0x8000_0000
      requires ReadCount(size, 512 * |chain|, cursor, len) <= dst.Length
      modifies this`cursor, volume`cache, dst
      ensures volume.Valid()
      ensures count == ReadCount(size, 512 * |chain|, old(cursor), len)
      ensures cursor == old(cursor) + count && count <= dst.Length
      ensures Delivered(Bytes(volume.disk, chain), old(cursor), old(dst[..]), dst[..], count)
      ensures forall boot, fats, data :: LaidOut(volume.disk, boot, fats, data) && InArea(data, chain) ==>
                Delivered(AreaBytes(data, chain), old(cursor), old(dst[..]), dst[..], count)
    {
      hide LaidOut, InArea, AreaBytes;
      hide IsChain, Bytes, ClusterData, Link, Reading, StepCount, ReadCount, Limit, Spliced, Delivered;
      ghost var c0, total := cursor, |chain|;
      count := 0;
      NothingDelivered(Bytes(volume.disk, chain), c0, dst[..]);
      var found, first := Seek(chain);
      if !found {
        NothingThere(size, total, c0, len);
        AreaOf(volume.disk, chain);
        return;
      }
      var cluster: nat := first;
      ghost var k := cursor / 512;
      ReadingStart(size, total, c0, len);
      while cluster < TABLE_VAL_MAX && count < len
        invariant volume.Valid() && k <= total && IsChain(volume.disk, cluster, chain[k..])
        invariant Reading(size, total, c0, count, len, k)
        invariant cursor == c0 + count && count <= dst.Length
        invariant Delivered(Bytes(volume.disk, chain), c0, old(dst[..]), dst[..], count)
        decreases total - k
      {
        ChainAt(volume.disk, cluster, chain, k);
        ReadingStep(size, total, c0, count, len, k);
        var data := ClusterData(volume.disk, cluster);
        var n := StepCount(cursor, size, len - count);
        CopyStep(Bytes(volume.disk, chain), c0, old(dst[..]), dst[..], count, data, n);
        Copy(dst, count, data, cursor % 512, n);
        count := count + n;
        cursor := cursor + n;
        cluster := volume.GetNextClusterNum(cluster);
        k := k + 1;
      }
      if cluster >= TABLE_VAL_MAX {
        ChainEnded(volume.disk, cluster, chain, k);
      }
      ReadingDone(size, total, c0, count, len, k);
      AreaOf(volume.disk, chain);
    }

    /** FAT_file_mmap: reads the file from its start, for the int that st_size
        becomes as an argument, and puts the cursor back. */
    method Mmap(dst: array<byte>, ghost chain: seq<nat>)
      requires volume.Valid() && IsChain(volume.disk, firstCluster, chain)
      requires size <= 512 * |chain| && size <= dst.Length
      modifies this`cursor, volume`cache, dst
      ensures volume.Valid() && cursor == old(cursor)
      ensures Delivered(Bytes(volume.disk, chain), 0, old(dst[..]), dst[..],
                        ReadCount(size, 512 * |chain|, 0, ToInt(size)))
      ensures forall boot, fats, data :: LaidOut(volume.disk, boot, fats, data) && InArea(data, chain) ==>
                Delivered(AreaBytes(data, chain), 0, old(dst[..]), dst[..],
                          ReadCount(size, 512 * |chain|, 0, ToInt(size)))
    {
      hide IsChain, Bytes, ToInt, Delivered, ReadCount, LaidOut, InArea, AreaBytes;
      var original := cursor;
      Lseek(0);
      MmapCount(size, 512 * |chain|);
      var count := Read(dst, ToInt(size), chain);
      Lseek(original);
    }
  }

  /** An unsigned 64-bit value passed as a C int. */
  function ToInt(x: nat): (i: int)
    ensures -0x8000_0000 <= i < 0x8000_0000
  {
    var low := x % 0x1_0000_0000;
    if low < 0x8000_0000 then low else low - 0x1_0000_0000
  }

  lemma MmapCount(size: nat, stored: nat)
    requires size <= stored
    ensures ReadCount(size, stored, 0, ToInt(size)) <= size
  {
  }

  /** Mapping delivers the whole file exactly when it is smaller than 2 GiB. */
  lemma MmapWholeIff(size: nat, stored: nat)
    requires size <= stored
    ensures ReadCount(size, stored, 0, ToInt(size)) == size <==> size < 0x8000_0000
  {
  }
}
