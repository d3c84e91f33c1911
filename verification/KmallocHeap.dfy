/** The value-level theory of the kernel allocator's heap (lib/kmalloc.c): block
    headers and free-list nodes are words of the very memory that is handed out.

    A unit is a pool block or a run of whole pages. Every unit is either free, as
    one node of its pool's list, or live, with a 16-byte header at its start and
    the caller's payload behind it. */
module KmallocHeap {
  import opened MemDef

  const NUM_POOLS: nat := 7
  const HEADER: nat := 16

  /** The largest allocation, header included, whose page count fits an int. */
  const MAX_FULL: nat := 0x7ff_ffff_f000

  /** Virtual memory as 8-byte words at addresses that are multiples of 8. */
  type Words = map<nat, word>

  /** A store of one word. */
  function Put(words: Words, a: nat, v: word): (r: Words) {
    words[a := v]
  }

  function BlockSize(i: nat): (s: nat)
    requires i < NUM_POOLS
    ensures 32 <= s <= 2048 && s % 32 == 0
  {
    match i
    case 0 => 32
    case 1 => 64
    case 2 => 128
    case 3 => 256
    case 4 => 512
    case 5 => 1024
    case _ => 2048
  }

  function BlocksPerPage(i: nat): (n: nat)
    requires i < NUM_POOLS
    ensures n * BlockSize(i) == 4096
  {
    match i
    case 0 => 128
    case 1 => 64
    case 2 => 32
    case 3 => 16
    case 4 => 8
    case 5 => 4
    case _ => 2
  }

  /** The smallest pool whose blocks hold `full` bytes; NUM_POOLS if none does. */
  function PoolFor(full: nat): (i: nat)
    ensures i <= NUM_POOLS
    ensures i < NUM_POOLS ==> full <= BlockSize(i)
    ensures forall j :: 0 <= j < i ==> BlockSize(j) < full
  {
    if full <= 32 then 0
    else if full <= 64 then 1
    else if full <= 128 then 2
    else if full <= 256 then 3
    else if full <= 512 then 4
    else if full <= 1024 then 5
    else if full <= 2048 then 6
    else 7
  }

  /** A live allocation: its pool (NUM_POOLS for a page run) and its size
      including the header. */
  datatype Block = Block(pool: nat, full: nat)

  function RunPages(full: nat): (n: nat) {
    (full + 4095) / 4096
  }

  function UnitSize(b: Block): (s: nat)
    ensures b.pool >= NUM_POOLS ==> b.full <= s
  {
    if b.pool < NUM_POOLS then BlockSize(b.pool) else 4096 * RunPages(b.full)
  }

  /** Ghost bookkeeping: carved units with their sizes, each pool's free list,
      and the live allocations by header address. */
  datatype Layout = Layout(units: map<nat, nat>, free: seq<seq<nat>>, live: map<nat, Block>)

  /** The four fields of the pool table that matter here. */
  datatype Pools = Pools(avail: seq<nat>, head: seq<word>)

  /** Units do not overlap and lie on 32-byte boundaries below the break. */
  ghost predicate Separate(units: map<nat, nat>) {
    forall a, b :: a in units && b in units && a < b ==> a + units[a] <= b
  }

  ghost predicate UnitsIn(units: map<nat, nat>, brk: nat) {
    forall a :: a in units ==> KERNEL_HEAP_START <= a && a % 32 == 0 && 32 <= units[a] && a + units[a] <= brk
  }

  ghost predicate FreeOk(l: Layout) {
    && |l.free| == NUM_POOLS
    && (forall i, b :: 0 <= i < NUM_POOLS && b in l.free[i] ==>
          b in l.units && l.units[b] == BlockSize(i) && b !in l.live)
    && (forall i :: 0 <= i < NUM_POOLS ==> NoDup(l.free[i]))
  }

  ghost predicate LiveOk(l: Layout) {
    forall h :: h in l.live ==>
      && h in l.units && l.units[h] == UnitSize(l.live[h])
      && l.live[h].full <= MAX_FULL && l.live[h].pool == PoolFor(l.live[h].full)
  }

  ghost predicate InSomeList(free: seq<seq<nat>>, a: nat) {
    exists i :: 0 <= i < |free| && a in free[i]
  }

  /** Nothing carved is lost. */
  ghost predicate Covered(l: Layout) {
    forall a :: a in l.units ==> a in l.live || InSomeList(l.free, a)
  }

  ghost predicate LayoutOk(l: Layout, brk: nat) {
    Separate(l.units) && UnitsIn(l.units, brk) && FreeOk(l) && LiveOk(l) && Covered(l)
  }

  /** `list` is what following next-pointers from `head` runs through. */
  ghost predicate Chain(words: Words, head: nat, list: seq<nat>)
    decreases |list|
  {
    if list == [] then head == 0
    else head == list[0] && head in words && Chain(words, words[head], list[1..])
  }

  /** Where the pool table lies; a header holds the address of its pool's row. */
  function PoolPtr(table: nat, pool: nat): (p: nat) {
    if pool < NUM_POOLS then table + 16 * pool else 0
  }

  ghost predicate Headers(words: Words, live: map<nat, Block>, table: nat) {
    forall h :: h in live ==>
      && h in words && words[h] == PoolPtr(table, live[h].pool)
      && h + 8 in words && words[h + 8] == live[h].full
  }

  ghost predicate Lists(words: Words, pools: Pools, free: seq<seq<nat>>) {
    && |pools.avail| == |pools.head| == |free| == NUM_POOLS
    && (forall i :: 0 <= i < NUM_POOLS ==>
          Chain(words, pools.head[i], free[i]) && pools.avail[i] == |free[i]|)
  }

  ghost predicate HeapInv(words: Words, pools: Pools, l: Layout, brk: nat, table: nat) {
    LayoutOk(l, brk) && Headers(words, l.live, table) && Lists(words, pools, l.free)
  }

  // ----- what the invariant gives a caller -----

  /** The words a caller may use: those that start inside its payload. */
  ghost predicate InPayload(l: Layout, h: nat, w: nat)
    requires h in l.live
  {
    h + HEADER <= w < h + l.live[h].full && w % 8 == 0
  }

  /** The words the allocator itself relies on. */
  ghost predicate IsMeta(l: Layout, w: nat) {
    (exists h :: h in l.live && (w == h || w == h + 8)) || InSomeList(l.free, w)
  }

  lemma BlockFits(b: Block)
    requires b.pool == PoolFor(b.full)
    ensures b.full <= UnitSize(b)
  {
  }

  /** A live payload is aligned, stays inside its unit, and shares no word with
      another payload or with any header or list node. */
  lemma Separation(l: Layout, brk: nat, h: nat, w: nat)
    requires LayoutOk(l, brk) && h in l.live && InPayload(l, h, w)
    ensures (h + HEADER) % 16 == 0 && w + 8 <= h + l.units[h] <= brk
    ensures !IsMeta(l, w)
    ensures forall g :: g in l.live && g != h ==> !InPayload(l, g, w)
  {
    PayloadInUnit(l, brk, h, w);
    PayloadIsNoNode(l, brk, h, w);
    hide LayoutOk;
    forall g | g in l.live && g != h
      ensures !InPayload(l, g, w) && w != g && w != g + 8
    {
      PayloadApart(l, brk, h, w, g);
    }
  }

  lemma PayloadIsNoNode(l: Layout, brk: nat, h: nat, w: nat)
    requires LayoutOk(l, brk) && h in l.live && InPayload(l, h, w)
    ensures !InSomeList(l.free, w)
  {
    PayloadInUnit(l, brk, h, w);
    assert FreeOk(l);
    hide LayoutOk, FreeOk, InSomeList;
    if InSomeList(l.free, w) {
      NodeInUnits(l, w);
      UnitApart(l, brk, h, w, w);
    }
  }

  lemma NodeInUnits(l: Layout, w: nat)
    requires FreeOk(l) && InSomeList(l.free, w)
    ensures w in l.units && l.units[w] > 0
  {
    hide BlockSize;
    var i :| 0 <= i < |l.free| && w in l.free[i];
  }

  lemma PayloadInUnit(l: Layout, brk: nat, h: nat, w: nat)
    requires LayoutOk(l, brk) && h in l.live && InPayload(l, h, w)
    ensures h in l.units && (h + HEADER) % 16 == 0 && h % 8 == 0
    ensures h + HEADER <= w && w + 8 <= h + l.units[h] <= brk
  {
    hide FreeOk, Separate, Covered, UnitSize, PoolFor, BlockSize, RunPages;
    BlockFits(l.live[h]);
    UnitMultiple(l.live[h]);
    assert l.units[h] == UnitSize(l.live[h]);
    EightRoom(h, w, l.live[h].full, l.units[h]);
  }

  lemma EightRoom(h: nat, w: nat, full: nat, size: nat)
    requires h % 32 == 0 && w % 8 == 0 && size % 8 == 0 && w < h + full && full <= size
    ensures w + 8 <= h + size && (h + HEADER) % 16 == 0 && h % 8 == 0
  {
    var a, b, c := h / 32, w / 8, size / 8;
    Room(h, w, size, a, b, c);
    Multiple16(h + HEADER, 2 * a + 1);
    Multiple8(h, 4 * a);
  }

  lemma Room(h: nat, w: nat, size: nat, a: nat, b: nat, c: nat)
    requires h == 32 * a && w == 8 * b && size == 8 * c && w < h + size
    ensures w + 8 <= h + size
  {
  }

  lemma Multiple16(x: nat, k: nat)
    requires x == 16 * k
    ensures x % 16 == 0
  {
  }

  lemma Multiple8(x: nat, k: nat)
    requires x == 8 * k
    ensures x % 8 == 0
  {
  }

  /** A word inside one unit is outside every other. */
  lemma UnitApart(l: Layout, brk: nat, h: nat, w: nat, a: nat)
    requires LayoutOk(l, brk) && h in l.units && a in l.units && a != h
    requires h <= w < h + l.units[h]
    ensures w < a || a + l.units[a] <= w
  {
    hide FreeOk, LiveOk, Covered;
    assert a < h ==> a + l.units[a] <= h;
  }

  lemma PayloadApart(l: Layout, brk: nat, h: nat, w: nat, g: nat)
    requires LayoutOk(l, brk) && h in l.live && InPayload(l, h, w) && g in l.live && g != h
    ensures !InPayload(l, g, w) && w != g && w != g + 8
  {
    PayloadInUnit(l, brk, h, w);
    UnitApart(l, brk, h, w, g);
    if InPayload(l, g, w) {
      PayloadInUnit(l, brk, g, w);
    }
  }

  lemma UnitMultiple(b: Block)
    ensures UnitSize(b) % 8 == 0
  {
    if b.pool < NUM_POOLS {
      Multiple8(BlockSize(b.pool), 4 * (BlockSize(b.pool) / 32));
    } else {
      Multiple8(4096 * RunPages(b.full), 512 * RunPages(b.full));
    }
  }

  lemma {:induction false} ChainFrame(words: Words, words': Words, head: nat, list: seq<nat>)
    requires Chain(words, head, list)
    requires forall a :: a in list && a in words ==> a in words' && words'[a] == words[a]
    ensures Chain(words', head, list)
    decreases |list|
  {
    if list != [] {
      assert list[0] in list;
      ChainFrame(words, words', words[head], list[1..]);
    }
  }

  /** Memory may change at will outside the allocator's own words. */
  lemma MetaFrame(words: Words, words': Words, pools: Pools, l: Layout, brk: nat, table: nat)
    requires HeapInv(words, pools, l, brk, table)
    requires forall w :: IsMeta(l, w) && w in words ==> w in words' && words'[w] == words[w]
    ensures HeapInv(words', pools, l, brk, table)
  {
    hide LayoutOk;
    forall i | 0 <= i < NUM_POOLS
      ensures Chain(words', pools.head[i], l.free[i])
    {
      forall a | a in l.free[i]
        ensures IsMeta(l, a)
      {
        assert InSomeList(l.free, a);
      }
      ChainFrame(words, words', pools.head[i], l.free[i]);
    }
    forall h | h in l.live
      ensures IsMeta(l, h) && IsMeta(l, h + 8)
    {
    }
  }

  /** A block of this size that is on a free list. */
  ghost predicate IsFreed(l: Layout, b: nat, size: nat) {
    InSomeList(l.free, b) && b in l.units && l.units[b] == size
  }

  /** A word of a free block, other than its first, belongs to nobody. */
  lemma FreedApart(l: Layout, brk: nat, b: nat, size: nat, w: nat)
    requires LayoutOk(l, brk) && IsFreed(l, b, size) && b < w < b + size
    ensures !IsMeta(l, w) && forall g :: g in l.live ==> !InPayload(l, g, w)
  {
    FreedNotLive(l, b);
    assert UnitsIn(l.units, brk) && FreeOk(l) && LiveOk(l);
    hide LayoutOk, FreeOk, UnitsIn, InSomeList, BlockSize, PoolFor, UnitSize;
    if InSomeList(l.free, w) {
      NodeInUnits(l, w);
      UnitApart(l, brk, b, w, w);
    }
    forall g | g in l.live
      ensures !InPayload(l, g, w) && w != g && w != g + 8
    {
      UnitApart(l, brk, b, w, g);
      UnitRoom(l, brk, g);
      if InPayload(l, g, w) {
        PayloadInUnit(l, brk, g, w);
      }
    }
  }

  lemma FreedNotLive(l: Layout, b: nat)
    requires FreeOk(l) && InSomeList(l.free, b)
    ensures b !in l.live
  {
    hide BlockSize;
    var i :| 0 <= i < |l.free| && b in l.free[i];
  }

  lemma UnitRoom(l: Layout, brk: nat, g: nat)
    requires UnitsIn(l.units, brk) && g in l.units
    ensures g + 32 <= g + l.units[g]
  {
  }

  /** So a store there, by whoever had the block before, does no harm. */
  lemma FreedWrite(words: Words, pools: Pools, l: Layout, brk: nat, table: nat, b: nat, size: nat, w: nat, v: word)
    requires HeapInv(words, pools, l, brk, table) && IsFreed(l, b, size) && b < w < b + size
    ensures HeapInv(words[w := v], pools, l, brk, table)
    ensures forall g, x :: g in l.live && InPayload(l, g, x) && x in words ==> words[w := v][x] == words[x]
  {
    FreedApart(l, brk, b, size, w);
    hide LayoutOk, Lists, Headers, IsMeta, IsFreed, InPayload;
    MetaFrame(words, words[w := v], pools, l, brk, table);
  }

  /** A caller's store into its own payload disturbs nothing. */
  lemma PayloadWrite(words: Words, pools: Pools, l: Layout, brk: nat, table: nat, h: nat, w: nat, v: word)
    requires HeapInv(words, pools, l, brk, table) && h in l.live && InPayload(l, h, w)
    ensures HeapInv(words[w := v], pools, l, brk, table)
    ensures forall g, x :: g in l.live && g != h && InPayload(l, g, x) && x in words ==> words[w := v][x] == words[x]
  {
    Separation(l, brk, h, w);
    hide LayoutOk, Lists, Headers, IsMeta;
    MetaFrame(words, words[w := v], pools, l, brk, table);
  }
}
