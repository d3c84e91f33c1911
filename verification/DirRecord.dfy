/** The 32-byte directory records (fs/fat.c): how FAT_readdir reads one, and how one
    is written. */
module DirRecord {
  import opened Fat
  import opened LongName

  const ATTR_LFN: byte := 0x0F
  const ATTR_DIRECTORY: byte := 0x10

  /** A classic entry's name is taken as the 12 bytes that get_dir_ent_name copies:
      the 11 of its field, and the attribute behind them. */
  datatype DirEnt = End | Long(entry: LongEntry) | Classic(name: seq<byte>, attr: byte, cluster: nat, size: nat)

  predicate WellShaped(e: DirEnt) {
    !e.End? && (e.Long? ==> e.entry.Valid()) && (e.Classic? ==> |e.name| == 12)
  }

  function Le16(s: seq<byte>, o: nat): (v: nat)
    requires o + 2 <= |s|
    ensures v < 0x1_0000
  {
    var b: seq<nat> := s;
    b[o] + 0x100 * b[o + 1]
  }

  /** cluster_hi << 16 | cluster_lo, an int, widened to 64 bits with its sign. */
  function JoinCluster(hi: nat, lo: nat): (c: nat)
    requires hi < 0x1_0000 && lo < 0x1_0000
  {
    var word := 0x1_0000 * hi + lo;
    if hi < 0x8000 then word else word + 0xFFFF_FFFF_0000_0000
  }

  /** The two halves give the 32-bit number exactly if it is below 2^31. */
  lemma JoinClusterIff(hi: nat, lo: nat)
    requires hi < 0x1_0000 && lo < 0x1_0000
    ensures JoinCluster(hi, lo) == 0x1_0000 * hi + lo <==> 0x1_0000 * hi + lo < 0x8000_0000
  {
  }

  function DecodeLong(r: seq<byte>): (e: LongEntry)
    requires |r| == 32
    ensures e.Valid()
  {
    LongEntry(r[0],
              [Le16(r, 1), Le16(r, 3), Le16(r, 5), Le16(r, 7), Le16(r, 9)],
              [Le16(r, 14), Le16(r, 16), Le16(r, 18), Le16(r, 20), Le16(r, 22), Le16(r, 24)],
              [Le16(r, 28), Le16(r, 30)])
  }

  /** How the loop of FAT_readdir sees a record. */
  function DecodeRecord(r: seq<byte>): (e: DirEnt)
    requires |r| == 32
    ensures !e.End? ==> WellShaped(e)
  {
    if r[0] == 0 then End
    else if r[11] == ATTR_LFN then Long(DecodeLong(r))
    else Classic(r[..12], r[11], JoinCluster(Le16(r, 20), Le16(r, 26)), Le32(r, 28))
  }

  // ----- writing records -----

  function Put16(v: nat): (b: seq<byte>)
    requires v < 0x1_0000
    ensures |b| == 2 && Le16(b, 0) == v
  {
    [v % 256, v / 256]
  }

  function Put32(v: nat): (b: seq<byte>)
    requires v < 0x1_0000_0000
    ensures |b| == 4
  {
    Put16(v % 0x1_0000) + Put16(v / 0x1_0000)
  }

  function PutUnits(us: seq<nat>): (b: seq<byte>)
    requires forall i :: 0 <= i < |us| ==> us[i] < 0x1_0000
    ensures |b| == 2 * |us|
    ensures forall i :: 0 <= i < |us| ==> Le16(b, 2 * i) == us[i]
  {
    if us == [] then []
    else
      var rest := PutUnits(us[1..]);
      var b := Put16(us[0]) + rest;
      assert forall i :: 1 <= i < |us| ==> us[i] == us[1..][i - 1] == Le16(rest, 2 * (i - 1)) == Le16(b, 2 * i);
      b
  }

  function Zeros(n: nat): (b: seq<byte>)
    ensures |b| == n && forall i :: 0 <= i < n ==> b[i] == 0
  {
    seq(n, _ => 0)
  }

  predicate Units16(us: seq<nat>) {
    forall i :: 0 <= i < |us| ==> us[i] < 0x1_0000
  }

  /** Entries a record can hold: a first byte other than 0, 16-bit units, and for a
      classic entry an attribute of its own and a cluster number below 2^31. */
  predicate Encodable(e: DirEnt) {
    match e
    case End => false
    case Long(l) => l.Valid() && l.order != 0 && Units16(l.first) && Units16(l.middle) && Units16(l.last)
    case Classic(name, attr, cluster, size) =>
      && |name| == 12 && name[0] != 0 && name[11] == attr && attr != ATTR_LFN
      && cluster < 0x8000_0000 && size < 0x1_0000_0000
  }

  /** The record of an entry; fields that are not read back are zero. */
  function Encode(e: DirEnt): (r: seq<byte>)
    requires Encodable(e)
    ensures |r| == 32
  {
    match e
    case Long(l) =>
      [l.order] + PutUnits(l.first) + [ATTR_LFN, 0, 0] + PutUnits(l.middle) + Zeros(2) + PutUnits(l.last)
    case Classic(name, attr, cluster, size) =>
      name + Zeros(8) + Put16(cluster / 0x1_0000) + Zeros(4) + Put16(cluster % 0x1_0000) + Put32(size)
  }

  /** A record is read as the entry it was written for. */
  lemma DecodeEncode(e: DirEnt)
    requires Encodable(e)
    ensures DecodeRecord(Encode(e)) == e
  {
    match e {
      case Long(l) => DecodeEncodeLong(l);
      case Classic(name, attr, cluster, size) => DecodeEncodeClassic(name, attr, cluster, size);
    }
  }

  lemma Le16Part(a: seq<byte>, b: seq<byte>, c: seq<byte>, o: nat)
    requires o + 2 <= |b|
    ensures Le16(a + b + c, |a| + o) == Le16(b, o)
  {
  }

  lemma DecodeEncodeLong(l: LongEntry)
    requires Encodable(Long(l))
    ensures DecodeRecord(Encode(Long(l))) == Long(l)
  {
    var r := Encode(Long(l));
    var f, m, z := PutUnits(l.first), PutUnits(l.middle), PutUnits(l.last);
    assert r[0] == l.order && r[11] == ATTR_LFN;
    assert r == [l.order] + f + ([ATTR_LFN, 0, 0] + m + Zeros(2) + z);
    assert r == ([l.order] + f + [ATTR_LFN, 0, 0]) + m + (Zeros(2) + z);
    assert r == ([l.order] + f + [ATTR_LFN, 0, 0] + m + Zeros(2)) + z + [];
    hide Encode, PutUnits;
    var d := DecodeLong(r);
    forall i | 0 <= i < 5
      ensures d.first[i] == l.first[i]
    {
      Le16Part([l.order], f, [ATTR_LFN, 0, 0] + m + Zeros(2) + z, 2 * i);
    }
    forall i | 0 <= i < 6
      ensures d.middle[i] == l.middle[i]
    {
      Le16Part([l.order] + f + [ATTR_LFN, 0, 0], m, Zeros(2) + z, 2 * i);
    }
    forall i | 0 <= i < 2
      ensures d.last[i] == l.last[i]
    {
      Le16Part([l.order] + f + [ATTR_LFN, 0, 0] + m + Zeros(2), z, [], 2 * i);
    }
    assert d.first == l.first && d.middle == l.middle && d.last == l.last;
  }

  lemma DecodeEncodeClassic(name: seq<byte>, attr: byte, cluster: nat, size: nat)
    requires Encodable(Classic(name, attr, cluster, size))
    ensures DecodeRecord(Encode(Classic(name, attr, cluster, size))) == Classic(name, attr, cluster, size)
  {
    var r := Encode(Classic(name, attr, cluster, size));
    assert r[..12] == name && r[0] == name[0] && r[11] == name[11];
    assert Le16(r, 20) == cluster / 0x1_0000 && Le16(r, 26) == cluster % 0x1_0000;
    assert Le32(r, 28) == Le16(r, 28) + 0x1_0000 * Le16(r, 30);
    assert Le16(r, 28) == size % 0x1_0000 && Le16(r, 30) == size / 0x1_0000;
  }
}
