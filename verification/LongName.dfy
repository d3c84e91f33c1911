/** Long file names (fs/fat.c): a name is spread over directory entries of 13
    characters, which get_long_dir_ent_name puts back into one buffer. */
module LongName {
  import opened CString
  import opened Fat

  /** The name buffer of FAT_readdir, MAX_LDE_LEN + 1 bytes. */
  const BUFFER: nat := 256

  type Buffer = s: seq<byte> | |s| == 256 witness seq(256, _ => 0)

  /** A long directory entry; the character fields hold 16-bit units. */
  datatype LongEntry = LongEntry(order: byte, first: seq<nat>, middle: seq<nat>, last: seq<nat>) {
    predicate Valid() {
      |first| == 5 && |middle| == 6 && |last| == 2
    }

    function Units(): (u: seq<nat>)
      requires Valid()
      ensures |u| == 13
    {
      first + middle + last
    }

    /** The entry's number from 0 on; the "last entry" bit 0x40 is masked off. */
    function Number(): (k: int) {
      order % 64 - 1
    }
  }

  /** The entry's 13 bytes lie inside the name buffer. */
  predicate InBuffer(e: LongEntry) {
    0 <= 13 * e.Number() && 13 * e.Number() + 13 <= BUFFER
  }

  /** An entry with a higher number does not fit the buffer, so names of more than
      247 characters, which need 20 entries, cannot be reassembled in it. */
  lemma InBufferIff(e: LongEntry)
    ensures InBuffer(e) <==> 1 <= e.order % 64 <= 19
  {
  }

  /** The buffer with the entry's characters, cut to 8 bits, at their place. */
  function Place(e: LongEntry, b: Buffer): (r: Buffer)
    requires e.Valid() && InBuffer(e)
  {
    var at := 13 * e.Number();
    seq(BUFFER, i requires 0 <= i < BUFFER => if at <= i < at + 13 then e.Units()[i - at] % 256 else b[i])
  }

  /** get_long_dir_ent_name. */
  method PlaceEntry(e: LongEntry, buffer: array<byte>)
    requires e.Valid() && InBuffer(e) && buffer.Length == BUFFER
    modifies buffer
    ensures buffer[..] == Place(e, old(buffer[..]))
  {
    ghost var was := buffer[..];
    var at := 13 * e.Number();
    var i := 0;
    while i < 5
      invariant 0 <= i <= 5 && Partly(e, was, buffer[..], at, i)
    {
      buffer[at + i] := e.first[i] % 256;
      i := i + 1;
    }
    while i < 11
      invariant 5 <= i <= 11 && Partly(e, was, buffer[..], at, i)
    {
      buffer[at + i] := e.middle[i - 5] % 256;
      i := i + 1;
    }
    while i < 13
      invariant 11 <= i <= 13 && Partly(e, was, buffer[..], at, i)
    {
      buffer[at + i] := e.last[i - 11] % 256;
      i := i + 1;
    }
  }

  ghost predicate Partly(e: LongEntry, was: Buffer, now: seq<byte>, at: nat, done: nat)
    requires e.Valid() && done <= 13
  {
    && |now| == BUFFER
    && forall i :: 0 <= i < BUFFER ==>
         now[i] == if at <= i < at + done then e.Units()[i - at] % 256 else was[i]
  }

  // ----- how a name is spread over entries -----

  /** Characters are 7-bit and not the terminator. */
  ghost predicate Ascii(name: seq<byte>) {
    forall i :: 0 <= i < |name| ==> 0 < name[i] < 128
  }

  function Entries(name: seq<byte>): (n: nat) {
    (|name| + 12) / 13
  }

  /** The 16-bit unit at position p: the name, one terminator, then padding. */
  function Unit(name: seq<byte>, p: nat): (u: nat) {
    if p < |name| then name[p] else if p == |name| then 0 else 0xFFFF
  }

  /** Entry number k of a name; the last one is marked with 0x40. */
  function Entry(name: seq<byte>, k: nat): (e: LongEntry)
    requires |name| <= 247 && k < Entries(name)
    ensures e.Valid() && e.Number() == k && InBuffer(e)
    ensures forall i :: 0 <= i < 13 ==> e.Units()[i] == Unit(name, 13 * k + i)
  {
    var order := if k + 1 == Entries(name) then k + 1 + 64 else k + 1;
    LongEntry(order,
              seq<nat>(5, i requires i >= 0 => Unit(name, 13 * k + i)),
              seq<nat>(6, i requires i >= 0 => Unit(name, 13 * k + 5 + i)),
              seq<nat>(2, i requires i >= 0 => Unit(name, 13 * k + 11 + i)))
  }

  predicate EntriesOf(name: seq<byte>, order: seq<nat>) {
    forall i :: 0 <= i < |order| ==> order[i] < Entries(name)
  }

  /** All of the name's entries, in some order. */
  predicate EveryEntry(name: seq<byte>, order: seq<nat>) {
    EntriesOf(name, order) && forall k: nat :: k < Entries(name) ==> k in order
  }

  /** The buffer after the entries with these numbers were placed one by one. */
  function PlaceAll(name: seq<byte>, order: seq<nat>, b: Buffer): (r: Buffer)
    requires |name| <= 247 && EntriesOf(name, order)
    decreases |order|
  {
    if order == [] then b
    else PlaceAll(name, order[1..], Place(Entry(name, order[0]), b))
  }

  /** Each position holds its own character once its entry was placed. */
  lemma {:induction false} PlaceAllAt(name: seq<byte>, order: seq<nat>, b: Buffer, p: nat)
    requires |name| <= 247 && p < BUFFER && EntriesOf(name, order)
    ensures PlaceAll(name, order, b)[p] == if p / 13 in order then Unit(name, p) % 256 else b[p]
    decreases |order|
  {
    if order != [] {
      var next := Place(Entry(name, order[0]), b);
      PlaceAllAt(name, order[1..], next, p);
      assert order == [order[0]] + order[1..];
      if order[0] == p / 13 {
        assert next[p] == Unit(name, 13 * order[0] + p % 13) % 256;
      }
    }
  }

  /** With all entries placed, the buffer starts with the name, and a terminator
      follows if an entry has room for one; otherwise it is unchanged from there on. */
  lemma Placed(name: seq<byte>, order: seq<nat>, b: Buffer)
    requires Ascii(name) && |name| <= 247
    requires EveryEntry(name, order)
    ensures var r := PlaceAll(name, order, b);
      && r[..|name|] == name
      && if |name| % 13 != 0 then r[|name|] == 0 else r[|name|..] == b[|name|..]
  {
    hide PlaceAll;
    var r := PlaceAll(name, order, b);
    forall p: nat | p < BUFFER
      ensures r[p] == if p / 13 < Entries(name) then Unit(name, p) % 256 else b[p]
    {
      PlaceAllAt(name, order, b, p);
    }
  }

  /** Whatever the order in which a name's entries are placed, the buffer holds the
      name, followed by whatever it held there if the length is a multiple of 13. */
  lemma Reassembled(name: seq<byte>, order: seq<nat>, b: Buffer)
    requires Ascii(name) && |name| <= 247
    requires EveryEntry(name, order)
    ensures Until(PlaceAll(name, order, b), 0)
         == if |name| % 13 != 0 then name else name + Until(b[|name|..], 0)
  {
    hide PlaceAll;
    var r := PlaceAll(name, order, b);
    Placed(name, order, b);
    UntilPast(r, name, 0);
    if |name| % 13 != 0 {
      assert r[|name|..][0] == 0;
    }
  }

  /** So the name comes back exactly when its length is no multiple of 13, or the
      buffer happened to hold a terminator behind it. */
  lemma RoundTripIff(name: seq<byte>, order: seq<nat>, b: Buffer)
    requires Ascii(name) && |name| <= 247
    requires EveryEntry(name, order)
    ensures Until(PlaceAll(name, order, b), 0) == name <==> |name| % 13 != 0 || b[|name|] == 0
  {
    Reassembled(name, order, b);
    assert |name| % 13 == 0 ==> (Until(b[|name|..], 0) == [] <==> b[|name|] == 0);
  }

  /** The buffer is not cleared between names: a name whose length is a multiple of
      13 comes out with the tail of a longer name read before it. */
  lemma StaleTail(before: seq<byte>, name: seq<byte>, o1: seq<nat>, o2: seq<nat>, b: Buffer)
    requires Ascii(before) && Ascii(name) && |name| % 13 == 0 && |before| % 13 != 0
    requires |name| < |before| <= 247
    requires EveryEntry(before, o1)
    requires EveryEntry(name, o2)
    ensures Until(PlaceAll(name, o2, PlaceAll(before, o1, b)), 0) == name + before[|name|..]
  {
    hide PlaceAll, Until;
    var mid := PlaceAll(before, o1, b);
    Reassembled(before, o1, b);
    Reassembled(name, o2, mid);
    Front(mid, before, |name|);
    UntilPast(mid, before[..|name|], 0);
    Behind(before[..|name|], Until(mid[|name|..], 0));
  }

  lemma Front(b: Buffer, t: seq<byte>, n: nat)
    requires n <= |t| && t <= b && 0 !in t
    ensures b[..n] == t[..n] && 0 !in t[..n]
  {
  }

  lemma Behind(t: seq<byte>, u: seq<byte>)
    ensures (t + u)[|t|..] == u
  {
  }
}
