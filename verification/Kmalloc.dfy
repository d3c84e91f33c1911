/** The kernel allocator (lib/kmalloc.c) as an object over the page-granular heap. */
module Kmalloc {
  import opened MemDef
  import opened PfAlloc
  import opened PageTree
  import opened PageTable
  import opened HeapAlloc
  import opened KmallocHeap
  import opened KmallocSteps
  import opened KmallocPages
  import opened HeapMemory

  /** num_pages: 64-bit rounding, returned as a 32-bit signed int. */
  function NumPages(size: nat): (n: int) {
    var p := (size + 4095) % 0x1_0000_0000_0000_0000 / 4096 % 0x1_0000_0000;
    if p < 0x8000_0000 then p else p - 0x1_0000_0000
  }

  /** The count is right exactly below 8 TiB; beyond, the int truncates it. */
  lemma NumPagesIff(size: nat)
    requires size < TWO_64
    ensures NumPages(size) == RunPages(size) <==> size <= MAX_FULL
  {
    if size <= MAX_FULL {
    } else if size + 4095 < TWO_64 {
      assert RunPages(size) >= 0x8000_0000;
    } else {
      assert RunPages(size) >= 0x8000_0000;
    }
  }

  /** The request with its header, as a size_t: the sum wraps. */
  function Full(size: nat): (full: word) {
    (size + HEADER) % 0x1_0000_0000_0000_0000
  }

  /** What the code hands out for a request with its header: a block of the pool, or
      the pages that the int counts, which may be none. */
  function Given(full: word): (bytes: nat) {
    var i := PoolFor(full);
    if i < NUM_POOLS then BlockSize(i) else if NumPages(full) > 0 then 4096 * NumPages(full) else 0
  }

  /** There is room for the request behind its header. */
  predicate Holds(full: word, request: nat) {
    HEADER + request <= Given(full)
  }

  /** Up to MAX_FULL the code hands out what the allocator's books say. */
  lemma GivenIsUnit(full: word)
    ensures full <= MAX_FULL ==> Given(full) == UnitSize(Block(PoolFor(full), full)) >= full
    ensures full > MAX_FULL ==> Given(full) < full
  {
    NumPagesIff(full);
    BlockFits(Block(PoolFor(full), full));
    if full > MAX_FULL {
      CountedShort(full);
    }
  }

  /** Beyond it the count, cut to an int, is short of the request. */
  lemma CountedShort(full: word)
    requires full > MAX_FULL
    ensures 4096 * NumPages(full) < full
  {
    var r := (full + 4095) % 0x1_0000_0000_0000_0000 / 4096;
    assert 4096 * r <= full + 4095;
    if r >= 0x1_0000_0000 {
      assert r % 0x1_0000_0000 <= r - 0x1_0000_0000;
    }
  }

  /** kmalloc hands out enough exactly if the pages of the sum fit an int. */
  lemma KmallocHoldsIff(size: nat)
    requires size < TWO_64
    ensures Holds(Full(size), size) <==> size <= MAX_FULL - HEADER
  {
    GivenIsUnit(Full(size));
    if size >= TWO_64 - HEADER {
      assert PoolFor(Full(size)) == 0;
    }
  }

  /** For the largest requests it hands out a block of 32 bytes, */
  lemma HugeRequest()
    ensures Full(TWO_64 - 16) == 0 && PoolFor(0) == 0 && !Holds(Full(TWO_64 - 16), TWO_64 - 16)
  {
  }

  /** for 16 TiB one page, and for 8 TiB no page at all. */
  lemma TerabyteRequest()
    ensures var full := Full(0x1000_0000_0000);
      NumPages(full) == 1 && Given(full) == 4096 && !Holds(full, 0x1000_0000_0000)
    ensures var full := Full(0x800_0000_0000);
      NumPages(full) < 0 && Given(full) == 0 && !Holds(full, 0x800_0000_0000)
  {
  }

  /** kcalloc's product, as a size_t. */
  function Product(nmemb: nat, size: nat): (n: word) {
    nmemb * size % 0x1_0000_0000_0000_0000
  }

  /** kcalloc hands out enough exactly if the pages of the true product fit an int. */
  lemma KcallocHoldsIff(nmemb: nat, size: nat)
    ensures Holds(Full(Product(nmemb, size)), nmemb * size) <==> nmemb * size <= MAX_FULL - HEADER
  {
    ProductHoldsIff(nmemb * size);
  }

  lemma ProductHoldsIff(p: nat)
    ensures Holds(Full(p % 0x1_0000_0000_0000_0000), p) <==> p <= MAX_FULL - HEADER
  {
    var n := p % 0x1_0000_0000_0000_0000;
    KmallocHoldsIff(n);
    if p >= TWO_64 {
      assert p >= n + TWO_64;
      GivenBound(Full(n));
    }
  }

  lemma GivenBound(full: word)
    ensures Given(full) <= 0x800_0000_0000
  {
  }

  /** An array of 2^32 elements of 2^32 bytes gets a block of 32 bytes, and one of
      2^22 elements of 2^22 bytes a page. */
  lemma HugeArray()
    ensures Full(Product(0x1_0000_0000, 0x1_0000_0000)) == HEADER
    ensures !Holds(HEADER, 0x1_0000_0000 * 0x1_0000_0000)
    ensures var full := Full(Product(0x40_0000, 0x40_0000));
      Given(full) == 4096 && !Holds(full, 0x40_0000 * 0x40_0000)
  {
  }

  /** The blocks of pool i, as a set of addresses. */
  ghost function Carved(l: Layout, i: nat): (s: set<nat>)
    requires i < NUM_POOLS
  {
    set a | a in l.units && l.units[a] == BlockSize(i)
  }

  ghost function LiveIn(l: Layout, i: nat): (s: set<nat>) {
    set h | h in l.live && l.live[h].pool == i
  }

  ghost function Elements(s: seq<nat>): (r: set<nat>) {
    set b | b in s
  }

  /** Pool accounting: the pool's counter is the length of its list, and every
      block carved for it is on the list, once, or live. */
  lemma PoolAccounting(words: Words, pools: Pools, l: Layout, brk: nat, table: nat, i: nat)
    requires HeapInv(words, pools, l, brk, table) && i < NUM_POOLS
    ensures Carved(l, i) == Elements(l.free[i]) + LiveIn(l, i)
    ensures Elements(l.free[i]) !! LiveIn(l, i)
    ensures |Carved(l, i)| == pools.avail[i] + |LiveIn(l, i)|
  {
    CarvedSplit(l, brk, i);
    hide LayoutOk, Headers, BlockSize, Elements, LiveIn, Carved, Chain;
    LayoutFree(l, brk, i);
    NoDupCard(l.free[i]);
    UnionCard(Carved(l, i), Elements(l.free[i]), LiveIn(l, i));
  }

  lemma UnionCard(s: set<nat>, a: set<nat>, b: set<nat>)
    requires s == a + b && a !! b
    ensures |s| == |a| + |b|
  {
  }

  lemma CarvedSplit(l: Layout, brk: nat, i: nat)
    requires LayoutOk(l, brk) && i < NUM_POOLS
    ensures Carved(l, i) == Elements(l.free[i]) + LiveIn(l, i)
    ensures Elements(l.free[i]) !! LiveIn(l, i)
  {
    assert |l.free| == NUM_POOLS;
    hide LayoutOk, BlockSize;
    forall a: nat
      ensures a in Carved(l, i) <==> a in Elements(l.free[i]) || a in LiveIn(l, i)
      ensures !(a in Elements(l.free[i]) && a in LiveIn(l, i))
    {
      CarvedIff(l, brk, i, a);
    }
  }

  lemma CarvedIff(l: Layout, brk: nat, i: nat, a: nat)
    requires LayoutOk(l, brk) && i < NUM_POOLS
    ensures a in l.units && l.units[a] == BlockSize(i) <==> a in l.free[i] || (a in l.live && l.live[a].pool == i)
    ensures a in l.free[i] ==> a !in l.live
  {
    if a in l.live {
      LiveNotFree(l, brk, a);
      var j := l.live[a].pool;
      if j < NUM_POOLS {
        SizesDiffer(i, j);
      } else {
        RunIsLarge(l.live[a]);
      }
    } else if a in l.units {
      var j :| 0 <= j < |l.free| && a in l.free[j];
      InListIsUnit(l, brk, j, a);
      SizesDiffer(i, j);
    }
  }

  lemma RunIsLarge(b: Block)
    requires b.pool == PoolFor(b.full) == NUM_POOLS
    ensures UnitSize(b) >= 4096
  {
    assert BlockSize(6) < b.full;
  }

  lemma {:induction false} NoDupCard(s: seq<nat>)
    requires NoDup(s)
    ensures |Elements(s)| == |s|
  {
    if s != [] {
      NoDupCard(s[1..]);
      assert s[0] !in s[1..];
      assert Elements(s) == {s[0]} + Elements(s[1..]);
    }
  }

  /** 256 to the power r. */
  function ByteModulus(r: nat): (m: nat)
    requires r < 8
    ensures m > 0
  {
    match r
    case 0 => 1
    case 1 => 0x100
    case 2 => 0x1_0000
    case 3 => 0x100_0000
    case 4 => 0x1_0000_0000
    case 5 => 0x100_0000_0000
    case 6 => 0x1_0000_0000_0000
    case _ => 0x100_0000_0000_0000
  }

  /** Little-endian memory: a word whose first r bytes have been zeroed. */
  function ClearBytes(w: word, r: nat): (v: word)
    requires r < 8
    ensures v <= w
  {
    w - w % ByteModulus(r)
  }

  lemma ClearBytesZeroes(w: word, r: nat)
    requires r < 8
    ensures ClearBytes(w, r) % ByteModulus(r) == 0
  {
  }

  /** The n bytes from `start` on are zero. */
  ghost predicate ZeroBytes(words: Words, start: nat, n: nat) {
    forall x: nat :: x % 8 == 0 && start <= x < start + n ==>
      x in words && if x + 8 <= start + n then words[x] == 0 else words[x] % ByteModulus(start + n - x) == 0
  }

  /** Clearing a new allocation's payload keeps those of the older ones. */
  lemma ClearKeepsPayloads(words: Words, words1: Words, words2: Words, l: Layout, l': Layout, brk: nat, h: nat, n: nat)
    requires PayloadsKept(words, words1, l) && LayoutOk(l', brk) && Cleared(words1, words2, h + HEADER, n)
    requires h !in l.live && h in l'.live && l'.live == l.live[h := l'.live[h]]
    requires n + HEADER <= l'.live[h].full
    ensures PayloadsKept(words, words2, l)
  {
    hide LayoutOk, IsMeta, ClearBytes;
    forall g, w | g in l.live && InPayload(l, g, w) && w in words
      ensures w in words2 && words2[w] == words[w]
    {
      assert InPayload(l', g, w);
      Separation(l', brk, g, w);
      assert !InPayload(l', h, w);
    }
  }

  /** Every payload word of the allocations in `l` has kept its value. */
  ghost predicate PayloadsKept(words: Words, words': Words, l: Layout) {
    forall h, w :: h in l.live && InPayload(l, h, w) && w in words ==> w in words' && words'[w] == words[w]
  }

  ghost predicate Unless(words: Words, words': Words, brk: nat, h: nat) {
    forall w :: w in words && w < brk && w != h && w != h + 8 ==> w in words' && words'[w] == words[w]
  }

  /** A step that writes, below the old break, only the first two words of a unit
      that was not live keeps all payloads. */
  lemma PayloadsKeptBut(words: Words, words': Words, l: Layout, l': Layout, brk: nat, brk': nat, h: nat)
    requires LayoutOk(l, brk) && LayoutOk(l', brk')
    requires h in l'.live && l'.live == l.live[h := l'.live[h]]
    requires h !in l.live
    requires Unless(words, words', brk, h)
    ensures PayloadsKept(words, words', l)
  {
    hide LayoutOk, IsMeta;
    forall g, w | g in l.live && InPayload(l, g, w) && w in words
      ensures w in words' && words'[w] == words[w]
    {
      Separation(l, brk, g, w);
      assert InPayload(l', g, w);
      Separation(l', brk', g, w);
      HeaderIsMeta(l', h);
    }
  }

  lemma HeaderIsMeta(l: Layout, h: nat)
    requires h in l.live
    ensures IsMeta(l, h) && IsMeta(l, h + 8)
  {
  }

  /** n bytes from `start` are zero, and what was there of other words stays. */
  ghost predicate Cleared(words: Words, words': Words, start: nat, n: nat) {
    && (forall x :: x in words && (x % 8 != 0 || x < start || start + n <= x) ==>
          x in words' && words'[x] == words[x])
    && ZeroBytes(words', start, n)
    && (forall x :: x in words && x % 8 == 0 && start <= x < start + n < x + 8 ==>
          x in words' && words'[x] == ClearBytes(words[x], start + n - x))
  }

  /** More words, and the old ones as they were. */
  ghost predicate Extends(words: Words, words': Words) {
    forall w :: w in words ==> w in words' && words'[w] == words[w]
  }

  /** The header in front of a payload. */
  function HeaderOf(addr: nat): (h: nat)
    requires addr >= HEADER
  {
    addr - HEADER
  }

  /** Which row of the table a header points at. */
  function PoolIndex(ptr: word, table: word): (i: nat) {
    if ptr < table then 0 else (ptr - table) / 16
  }

  class Allocator {
    const heap: KernelHeap
    /** Address of the pool table. */
    const table: word
    var pools: Pools

    /** The heap's memory as the processor sees it, and what is where. */
    ghost var words: Words
    ghost var layout: Layout

    /** The words are those behind the page tables. */
    ghost predicate Memory()
      reads this, heap, heap.space, heap.space.fa, heap.space.mem
    {
      heap.Valid() && WordsAre(heap.space.view, words)
    }

    ghost predicate Valid()
      reads this, heap, heap.space, heap.space.fa, heap.space.mem
    {
      && Memory()
      && 0 < table && table + 16 * NUM_POOLS < TWO_64
      && HeapInv(words, pools, layout, heap.kernelBrk, table)
      && UnitsBacked(heap.space.mem.ram, heap.space.nodes, heap.space.owner, layout)
    }

    constructor (heap: KernelHeap, table: word)
      requires heap.Valid() && heap.kernelBrk == KERNEL_HEAP_START
      requires 0 < table && table + 16 * NUM_POOLS < TWO_64
      ensures Valid() && this.heap == heap && layout.live == map[] && words == map[]
    {
      hide KernelHeap.Valid, HeapInv, WordsAre, UnitsBacked;
      this.heap := heap;
      this.table := table;
      words := map[];
      pools := Pools([0, 0, 0, 0, 0, 0, 0], [0, 0, 0, 0, 0, 0, 0]);
      layout := Layout(map[], [[], [], [], [], [], [], []], map[]);
      new;
      EmptyHeap(words, table);
      NoWords(heap);
      NothingBacked(heap.space.mem.ram, heap.space.nodes, heap.space.owner, layout);
    }

    // ----- access through the page tables -----

    /** A load. */
    method Peek(va: nat) returns (v: word)
      requires Memory() && va in words
      ensures v == words[va]
    {
      hide KernelHeap.Valid, Pack, PathOf, IsDemand;
      WordIsDemand(va);
      v := heap.space.Load(va, Slot(va));
    }

    lemma WordIsDemand(va: nat)
      requires Memory() && va in words
      ensures heap.space.Valid() && IsDemand(heap.space.owner, PathOf(va)) && PathOf(va) in heap.space.view
      ensures words[va] == Pack(heap.space.view[PathOf(va)][Slot(va)])
    {
      hide HeapPages, TreeInv, FrameAllocator.Valid, Pack, PathOf, IsDemand;
    }

    /** A store to a page that holds a frame. */
    method Poke(va: nat, v: word)
      requires Memory() && va in words
      modifies this`words, heap.space`view, heap.space.mem
      ensures Memory() && words == old(words)[va := v]
      ensures SameLeaves(old(heap.space.mem.ram), heap.space.nodes, heap.space.mem.ram, heap.space.nodes)
    {
      hide HeapPages, AddressSpace.Valid, SameLeaves, Pack, Unpack, PathOf, IsDemand, WordsAre;
      WordIsDemand(va);
      heap.space.Store(va, Slot(va), v);
      PokeWords(old(heap.space.view), words, va, v);
      PagesSame(old(heap.space.mem.ram), heap.space.nodes, heap.space.owner, heap.space.mem.ram, heap.kernelBrk);
      words := words[va := v];
    }

    /** An access to a page of the heap: if the page is pending, a page fault gives it
        a frame, and its words are what that frame happens to hold. */
    method TouchPage(va: nat) returns (handled: bool)
      requires Memory() && KERNEL_HEAP_START <= va < heap.kernelBrk
      requires heap.space.LeafAt(va).alloc ==> heap.space.fa.Available() > 0
      modifies this`words, heap.space`owner, heap.space`view, heap.space.fa, heap.space.mem
      ensures Memory() && Extends(old(words), words)
      ensures handled <==> old(heap.space.LeafAt(va)).alloc
      ensures handled ==>
                && heap.space.LeafAt(va).present && IsDemand(heap.space.owner, PathOf(va))
                && KeptBut(old(heap.space.mem.ram), heap.space.nodes, old(heap.space.owner),
                           heap.space.mem.ram, heap.space.nodes, heap.space.owner, PathOf(va))
      ensures !handled ==> words == old(words) && heap.space.mem.ram == old(heap.space.mem.ram)
                           && heap.space.owner == old(heap.space.owner) && heap.space.view == old(heap.space.view)
      ensures handled ==> PathOf(va) in heap.space.view
      ensures heap.space.fa.Available() == old(heap.space.fa.Available()) - if handled then 1 else 0
      ensures heap.space.Total() == old(heap.space.Total())
    {
      hide HeapPages, AddressSpace.Valid, WordsAre, PathOf, IsDemand, Leaf, KeptBut, PageWords, Extends;
      BrkInRegion(heap.space.mem.ram, heap.space.nodes, heap.space.owner, heap.kernelBrk);
      PendingNotViewed(va);
      handled := heap.Touch(va);
      if handled {
        ghost var c := heap.space.view[PathOf(va)];
        TouchWords(old(heap.space.view), words, c, va);
        MoreWords(words, PageWords(c, PageOf(va)));
        words := words + PageWords(c, PageOf(va));
      } else {
        MoreWords(words, map[]);
        assert words + map[] == words;
      }
    }

    lemma PendingNotViewed(va: nat)
      requires Memory() && KERNEL_HEAP_START <= va < heap.kernelBrk
      ensures heap.space.LeafAt(va).alloc ==> PathOf(va) !in heap.space.view
    {
      hide HeapPages, FrameAllocator.Valid, PathOf;
      if IsDemand(heap.space.owner, PathOf(va)) {
        DemandFrame(heap.space.mem.ram, heap.space.nodes, heap.space.owner, PathOf(va));
      }
    }

    /** So afterwards the word is there, if the page is pending or has a frame. */
    method Fault(va: nat)
      requires Memory() && KERNEL_HEAP_START <= va < heap.kernelBrk && va % 8 == 0
      requires Backed(heap.space.mem.ram, heap.space.nodes, heap.space.owner, PathOf(va))
      requires va in words || heap.space.fa.Available() > 0
      modifies this`words, heap.space`owner, heap.space`view, heap.space.fa, heap.space.mem
      ensures Memory() && va in words && Extends(old(words), words)
      ensures Backed(heap.space.mem.ram, heap.space.nodes, heap.space.owner, PathOf(va))
      ensures KeptBut(old(heap.space.mem.ram), heap.space.nodes, old(heap.space.owner),
                      heap.space.mem.ram, heap.space.nodes, heap.space.owner, PathOf(va))
      ensures heap.space.fa.Available() == old(heap.space.fa.Available()) - if va in old(words) then 0 else 1
      ensures heap.space.Total() == old(heap.space.Total())
    {
      hide HeapPages, FrameAllocator.Valid, PathOf, IsDemand, Leaf, KeptBut, Extends, WordsAre;
      hide TreeInv, DirectOk, ViewOk;
      BrkInRegion(heap.space.mem.ram, heap.space.nodes, heap.space.owner, heap.kernelBrk);
      TouchedIff(heap.space.mem.ram, heap.space.nodes, heap.space.owner, heap.space.view, words, va);
      AnyKept(heap.space.mem.ram, heap.space.nodes, heap.space.owner, PathOf(va));
      var handled := TouchPage(va);
      if handled {
        StillEntry(old(heap.space.mem.ram), heap.space.nodes, old(heap.space.owner), PathOf(va));
        InsideIsPageable(heap.space.mem.ram, heap.space.nodes, heap.space.owner, heap.kernelBrk, va);
        TouchedIsBacked(heap.space.mem.ram, heap.space.nodes, heap.space.owner, PathOf(va));
      }
      TouchedIff(heap.space.mem.ram, heap.space.nodes, heap.space.owner, heap.space.view, words, va);
    }

    /** The same for a word of a unit, while the allocator is in order. */
    method Reach(va: nat, ghost a: nat)
      requires Valid() && a in layout.units && a <= va < a + layout.units[a] && va % 8 == 0
      requires va in words || heap.space.fa.Available() > 0
      modifies this`words, heap.space`owner, heap.space`view, heap.space.fa, heap.space.mem
      ensures Valid() && va in words && Extends(old(words), words)
      ensures KeptOutside(old(heap.space.mem.ram), heap.space.nodes, old(heap.space.owner),
                          heap.space.mem.ram, heap.space.nodes, heap.space.owner)
      ensures heap.space.fa.Available() == old(heap.space.fa.Available()) - if va in old(words) then 0 else 1
      ensures heap.space.Total() == old(heap.space.Total())
    {
      hide KernelHeap.Valid, PathOf, Backed, KeptBut, KeptOutside, Extends, WordsAre, HeapInv, LayoutOk;
      InvIsLayout(words, pools, layout, heap.kernelBrk, table);
      InUnit(va, a);
      Fault(va);
      ExtendKeeps(old(words), words, pools, layout, heap.kernelBrk, table);
      HeapChangeOutside(old(heap.space.mem.ram), heap.space.nodes, old(heap.space.owner),
                        heap.space.mem.ram, heap.space.nodes, heap.space.owner, va);
      UnitsKept(old(heap.space.mem.ram), heap.space.nodes, old(heap.space.owner),
                heap.space.mem.ram, heap.space.nodes, heap.space.owner, layout, heap.kernelBrk, va);
    }

    lemma InUnit(va: nat, a: nat)
      requires Valid() && a in layout.units && a <= va < a + layout.units[a]
      ensures KERNEL_HEAP_START <= va < heap.kernelBrk && InHeap(va) && Canonical(va)
      ensures Aligned(heap.kernelBrk) && heap.kernelBrk <= KERNEL_STACKS_START
      ensures Backed(heap.space.mem.ram, heap.space.nodes, heap.space.owner, PathOf(va))
    {
      hide AddressSpace.Valid, HeapPages, PathOf, Backed, HeapInv, LayoutOk, UnitsBacked, WordsAre;
      BrkInRegion(heap.space.mem.ram, heap.space.nodes, heap.space.owner, heap.kernelBrk);
      InvIsLayout(words, pools, layout, heap.kernelBrk, table);
      UnitBackedAt(heap.space.mem.ram, heap.space.nodes, heap.space.owner, layout, heap.kernelBrk, a, va);
    }

    /** A block's page has been touched as a whole. */
    lemma BlockTouched(a: nat, w: nat)
      requires Valid() && a in layout.units && a in words && layout.units[a] < 4096
      requires a <= w < a + layout.units[a] && w % 8 == 0
      ensures w in words
    {
      hide KernelHeap.Valid, HeapInv, WordsAre, UnitsBacked;
      BlockOnPage(heap.space.mem.ram, heap.space.nodes, heap.space.owner, layout, a);
      InUnit(w, a);
      OnePage(a, layout.units[a], w);
      SamePageIn(heap.space.view, words, a, w);
    }

    /** So all payload words of a pool's block are there. */
    lemma PayloadTouched(h: nat, w: nat)
      requires Valid() && h in layout.live && layout.live[h].pool < NUM_POOLS && InPayload(layout, h, w)
      ensures w in words
    {
      hide KernelHeap.Valid, HeapInv, UnitsBacked, WordsAre, BlockSize, LayoutOk;
      InvIsLayout(words, pools, layout, heap.kernelBrk, table);
      LiveBlock(layout, heap.kernelBrk, h);
      HeaderWords(words, pools, layout, heap.kernelBrk, table, h);
      PayloadInUnit(layout, heap.kernelBrk, h, w);
      BlockTouched(h, w);
    }

    /** And all words of a free one. */
    lemma FreedTouched(b: nat, size: nat, w: nat)
      requires Valid() && IsFreed(layout, b, size) && size < 4096 && b <= w < b + size && w % 8 == 0
      ensures w in words
    {
      hide KernelHeap.Valid, HeapInv, UnitsBacked, WordsAre, InSomeList;
      FreedInWords(words, pools, layout, heap.kernelBrk, table, b);
      BlockTouched(b, w);
    }

    /** Every payload lies on pages that are pending or hold a frame of their own. */
    lemma PayloadBacked(h: nat, va: nat)
      requires Valid() && h in layout.live && h <= va < h + layout.live[h].full
      ensures Backed(heap.space.mem.ram, heap.space.nodes, heap.space.owner, PathOf(va))
    {
      hide HeapPages, TreeInv, Backed, AddressSpace.Valid, Headers, Lists, PathOf, WordsAre;
      LiveNotFree(layout, heap.kernelBrk, h);
      BlockFits(layout.live[h]);
      assert layout.units[h] == UnitSize(layout.live[h]);
      assert RangeBacked(heap.space.mem.ram, heap.space.nodes, heap.space.owner, h, layout.units[h]);
    }

    // ----- kmalloc -----

    /** What must be left for an allocation of `full` bytes to go through: break
        space, frames for the tables that map new pages, and one for each page that the
        allocator, or kcalloc, writes to. */
    ghost predicate Room(full: nat)
      reads this, heap, heap.space.fa
    {
      var i := PoolFor(full);
      if i < NUM_POOLS then
        |pools.avail| == NUM_POOLS && (pools.avail[i] == 0 ==>
          heap.kernelBrk + PAGE_SIZE <= KERNEL_STACKS_START && heap.space.fa.Available() >= 4)
      else
        && full <= MAX_FULL
        && PageAt(heap.kernelBrk, RunPages(full)) <= KERNEL_STACKS_START
        && heap.space.fa.Available() >= 4 * RunPages(full)
    }

    /** A new page for blocks: mapped as pending, and touched by the first store. */
    method NewBlockPage(i: nat) returns (page: nat)
      requires Valid() && i < NUM_POOLS && pools.avail[i] == 0
      requires heap.kernelBrk + PAGE_SIZE <= KERNEL_STACKS_START && heap.space.fa.Available() >= 4
      modifies this`words, heap, heap.space`nodes, heap.space`owner, heap.space`view, heap.space.fa, heap.space.mem
      ensures Memory() && Extends(old(words), words) && page in words
      ensures page == old(heap.kernelBrk) && heap.kernelBrk == page + PAGE_SIZE
      ensures |layout.free| == NUM_POOLS && LayoutOk(CarveLayout(layout, i, page), heap.kernelBrk)
      ensures UnitsBacked(heap.space.mem.ram, heap.space.nodes, heap.space.owner, CarveLayout(layout, i, page))
      ensures heap.space.fa.Available() >= old(heap.space.fa.Available()) - 4
      ensures heap.space.Total() == old(heap.space.Total())
      ensures KeptOutside(old(heap.space.mem.ram), old(heap.space.nodes), old(heap.space.owner),
                          heap.space.mem.ram, heap.space.nodes, heap.space.owner)
    {
      hide HeapPages, AddressSpace.Valid, KeptOutside, LayoutOk, HeapInv, WordsAre, UnitsBacked, KeptBut, Extends;
      hide PathOf, RawEntry, Leaf, IsDemand, CarveLayout, Backed, IsEntry;
      BrkBasics(heap.space.mem.ram, heap.space.nodes, heap.space.owner, heap.kernelBrk);
      ListLengths(words, pools, layout, heap.kernelBrk, table);
      InvIsLayout(words, pools, layout, heap.kernelBrk, table);
      CarvedOk(words, pools, layout, heap.kernelBrk, table, i);
      PageNumber(heap.kernelBrk);
      page := heap.AllocPage();
      InsideIsPageable(heap.space.mem.ram, heap.space.nodes, heap.space.owner, heap.kernelBrk, page);
      CarveBacked(old(heap.space.mem.ram), old(heap.space.nodes), old(heap.space.owner),
                  heap.space.mem.ram, heap.space.nodes, heap.space.owner, layout, page, i);
      PendingIsBacked(heap.space.mem.ram, heap.space.nodes, heap.space.owner, PathOf(page));
      ghost var r1, n1, o1 := heap.space.mem.ram, heap.space.nodes, heap.space.owner;
      Fault(page);
      OutsideTrans(old(heap.space.mem.ram), old(heap.space.nodes), old(heap.space.owner), r1, n1, o1,
                   heap.space.mem.ram, heap.space.nodes, heap.space.owner, page);
      UnitsKept(r1, n1, o1, heap.space.mem.ram, heap.space.nodes, heap.space.owner,
                CarveLayout(layout, i, page), heap.kernelBrk, page);
    }

    method AllocateBlocks(i: nat)
      requires Valid() && i < NUM_POOLS && pools.avail[i] == 0
      requires heap.kernelBrk + PAGE_SIZE <= KERNEL_STACKS_START && heap.space.fa.Available() >= 4
      modifies this, heap, heap.space`nodes, heap.space`owner, heap.space`view, heap.space.fa, heap.space.mem
      ensures Valid()
      ensures layout.live == old(layout.live) && heap.kernelBrk == old(heap.kernelBrk) + PAGE_SIZE
      ensures pools.avail == old(pools.avail)[i := BlocksPerPage(i)]
      ensures forall w :: w in old(words) && w < old(heap.kernelBrk) ==> w in words && words[w] == old(words)[w]
      ensures heap.space.fa.Available() >= old(heap.space.fa.Available()) - 4
      ensures heap.space.Total() == old(heap.space.Total())
      ensures KeptOutside(old(heap.space.mem.ram), old(heap.space.nodes), old(heap.space.owner),
                          heap.space.mem.ram, heap.space.nodes, heap.space.owner)
    {
      hide HeapPages, AddressSpace.Valid, KeptOutside, LayoutOk, HeapInv, WordsAre, UnitsBacked, SameLeaves;
      hide Blocks, NextIn, BlocksPerPage, BlockSize, Extends;
      BrkBasics(heap.space.mem.ram, heap.space.nodes, heap.space.owner, heap.kernelBrk);
      ListLengths(words, pools, layout, heap.kernelBrk, table);
      var page := NewBlockPage(i);
      ghost var r1, words1 := heap.space.mem.ram, words;
      CarvePage(page, i);
      BelowKept(old(words), words1, words, page);
      CarveKeeps(old(words), words, pools, layout, page, table, i);
      UnitsSame(r1, heap.space.nodes, heap.space.owner, heap.space.mem.ram, CarveLayout(layout, i, page));
      OutsideSame(old(heap.space.mem.ram), old(heap.space.nodes), old(heap.space.owner),
                  r1, heap.space.nodes, heap.space.owner, heap.space.mem.ram);
      pools := Pools(pools.avail[i := BlocksPerPage(i)], pools.head[i := page]);
      layout := CarveLayout(layout, i, page);
    }

    /** kmalloc: a block of the smallest pool that holds the request and its
        header, or exactly the pages it needs. */
    method Kmalloc(size: nat) returns (addr: nat)
      requires Valid() && size < TWO_64 && Room(Full(size))
      modifies this, heap, heap.space`nodes, heap.space`owner, heap.space`view, heap.space.fa, heap.space.mem
      ensures Valid()
      ensures HEADER <= addr && HeaderOf(addr) !in old(layout.live)
      ensures layout.live == old(layout.live)[HeaderOf(addr) := Block(PoolFor(Full(size)), Full(size))]
      ensures PayloadsKept(old(words), words, old(layout))
      ensures PoolFor(Full(size)) == NUM_POOLS ==>
                && HeaderOf(addr) == old(heap.kernelBrk)
                && heap.kernelBrk == PageAt(old(heap.kernelBrk), RunPages(Full(size)))
      ensures heap.space.fa.Available() >= old(heap.space.fa.Available())
                                           - if PoolFor(Full(size)) < NUM_POOLS then 4 else 3 * RunPages(Full(size)) + 1
      ensures heap.space.Total() == old(heap.space.Total())
      ensures KeptOutside(old(heap.space.mem.ram), old(heap.space.nodes), old(heap.space.owner),
                          heap.space.mem.ram, heap.space.nodes, heap.space.owner)
    {
      hide Memory, HeapInv, KeptOutside, PayloadsKept, WordsAre;
      hide UnitSize, PoolFor, BlockSize, Room, Full, UnitsBacked, RunPages;
      var full := Full(size);
      var i := 0;
      while i < NUM_POOLS && full > BlockSize(i)
        invariant 0 <= i <= NUM_POOLS
        invariant forall j :: 0 <= j < i ==> BlockSize(j) < full
      {
        i := i + 1;
      }
      PoolForUnique(full, i);
      var h;
      if i < NUM_POOLS {
        h := TakeBlock(i, full);
      } else {
        h := TakeRun(full);
      }
      addr := h + HEADER;
    }

    method TakeBlock(i: nat, full: nat) returns (h: nat)
      requires Valid() && i < NUM_POOLS && i == PoolFor(full) && full < TWO_64 && Room(full)
      modifies this, heap, heap.space`nodes, heap.space`owner, heap.space`view, heap.space.fa, heap.space.mem
      ensures Valid()
      ensures h !in old(layout.live)
      ensures layout.live == old(layout.live)[h := Block(i, full)]
      ensures PayloadsKept(old(words), words, old(layout))
      ensures heap.space.fa.Available() >= old(heap.space.fa.Available()) - 4
      ensures heap.space.Total() == old(heap.space.Total())
      ensures KeptOutside(old(heap.space.mem.ram), old(heap.space.nodes), old(heap.space.owner),
                          heap.space.mem.ram, heap.space.nodes, heap.space.owner)
    {
      hide Memory, KeptOutside, LayoutOk, Headers, Chain, InPayload, SameLeaves;
      hide UnitSize, PoolFor, BlockSize, BlocksPerPage, UnitsBacked, PayloadsKept;
      KeptOutsideRefl(heap.space.mem.ram, heap.space.nodes, heap.space.owner);
      ListLengths(words, pools, layout, heap.kernelBrk, table);
      if pools.avail[i] == 0 {
        AllocateBlocks(i);
        PagePositive(i);
      }
      ghost var r1 := heap.space.mem.ram;
      h := PopAndStamp(i, full);
      OutsideSame(old(heap.space.mem.ram), old(heap.space.nodes), old(heap.space.owner),
                  r1, heap.space.nodes, heap.space.owner, heap.space.mem.ram);
      PayloadsKeptBut(old(words), words, old(layout), layout, old(heap.kernelBrk), heap.kernelBrk, h);
    }

    /** pop_free_block, then the two header words. */
    method PopAndStamp(i: nat, full: nat) returns (h: nat)
      requires Valid() && i < NUM_POOLS && i == PoolFor(full) && full < TWO_64
      requires pools.avail[i] > 0
      modifies this`words, this`pools, this`layout, heap.space`view, heap.space.mem
      ensures words == Put(Put(old(words), h, PoolPtr(table, i)), h + 8, full)
      ensures layout.live == old(layout.live)[h := Block(i, full)]
      ensures SameLeaves(old(heap.space.mem.ram), heap.space.nodes, heap.space.mem.ram, heap.space.nodes)
      ensures h == old(pools.head[i]) && h !in old(layout.live)
      ensures Valid()
    {
      hide KernelHeap.Valid, LayoutOk, Headers, Chain, WordsAre, SameLeaves;
      hide UnitSize, PoolFor, BlockSize, UnitsBacked;
      ListLengths(words, pools, layout, heap.kernelBrk, table);
      PopKeeps(words, pools, layout, heap.kernelBrk, table, i, full, PoolPtr(table, i));
      InListIsUnit(layout, heap.kernelBrk, i, layout.free[i][0]);
      PopBacked(heap.space.mem.ram, heap.space.nodes, heap.space.owner, layout, i, full);
      h := pools.head[i];
      InvIsLayout(words, pools, layout, heap.kernelBrk, table);
      UnitStart(layout, heap.kernelBrk, h);
      SecondWord(h);
      var next := Peek(h);
      Stamp(h, PoolPtr(table, i), full);
      UnitsSame(old(heap.space.mem.ram), heap.space.nodes, heap.space.owner, heap.space.mem.ram,
                PopLayout(layout, i, full));
      pools := Pools(pools.avail[i := pools.avail[i] - 1], pools.head[i := next]);
      layout := PopLayout(layout, i, full);
    }

    /** The second word of a unit is on the page of the first. */
    lemma SecondWord(h: nat)
      requires Memory() && h in words && h % 32 == 0
      ensures h + 8 in words
    {
      hide KernelHeap.Valid, WordsAre;
      SecondInPage(h);
      WordInHeap(heap.space.view, words, h);
      SamePageIn(heap.space.view, words, h, h + 8);
    }

    /** The header: two stores. */
    method Stamp(h: nat, ptr: word, full: word)
      requires Memory() && h in words && h + 8 in words
      modifies this`words, heap.space`view, heap.space.mem
      ensures Memory() && words == Put(Put(old(words), h, ptr), h + 8, full)
      ensures SameLeaves(old(heap.space.mem.ram), heap.space.nodes, heap.space.mem.ram, heap.space.nodes)
    {
      hide Memory, SameLeaves;
      Poke(h, ptr);
      ghost var r1 := heap.space.mem.ram;
      Poke(h + 8, full);
      SameLeavesTrans(old(heap.space.mem.ram), heap.space.nodes, r1, heap.space.nodes,
                      heap.space.mem.ram, heap.space.nodes);
    }

    /** The pages of a run, the first of them touched by the stores of the header. */
    method NewRun(full: nat) returns (h: nat)
      requires Valid() && PoolFor(full) == NUM_POOLS && full < TWO_64 && Room(full)
      modifies this`words, heap, heap.space`nodes, heap.space`owner, heap.space`view, heap.space.fa, heap.space.mem
      ensures Memory() && Extends(old(words), words) && h in words
      ensures h == old(heap.kernelBrk) && heap.kernelBrk == PageAt(h, RunPages(full))
      ensures LayoutOk(RunLayout(layout, h, full), heap.kernelBrk)
      ensures UnitsBacked(heap.space.mem.ram, heap.space.nodes, heap.space.owner, RunLayout(layout, h, full))
      ensures heap.space.fa.Available() >= old(heap.space.fa.Available()) - (3 * RunPages(full) + 1)
      ensures heap.space.Total() == old(heap.space.Total())
      ensures KeptOutside(old(heap.space.mem.ram), old(heap.space.nodes), old(heap.space.owner),
                          heap.space.mem.ram, heap.space.nodes, heap.space.owner)
    {
      hide AddressSpace.Valid, HeapPages, KeptOutside, LayoutOk, HeapInv, WordsAre, KeptBut, Extends, NewPages;
      hide UnitSize, NumPages, Fitting, UnitsBacked, PathOf, Backed, RunLayout, RunPages;
      NumPagesIff(full);
      RunNotEmpty(full);
      hide PoolFor;
      BrkBasics(heap.space.mem.ram, heap.space.nodes, heap.space.owner, heap.kernelBrk);
      InvIsLayout(words, pools, layout, heap.kernelBrk, table);
      RunFresh(layout, heap.kernelBrk, full);
      RunLayoutOk(layout, heap.kernelBrk, full);
      PageNumber(heap.kernelBrk);
      FittingFits(heap.kernelBrk, RunPages(full));
      h := heap.AllocPages(NumPages(full));
      NewPagesOutside(old(heap.space.mem.ram), old(heap.space.nodes), old(heap.space.owner),
                      heap.space.mem.ram, heap.space.nodes, heap.space.owner, h, RunPages(full));
      RunBacked(old(heap.space.mem.ram), old(heap.space.nodes), old(heap.space.owner),
                heap.space.mem.ram, heap.space.nodes, heap.space.owner, layout, h, full);
      RunStart(heap.space.mem.ram, heap.space.nodes, heap.space.owner, layout, h, full);
      ghost var r1, n1, o1 := heap.space.mem.ram, heap.space.nodes, heap.space.owner;
      Fault(h);
      OutsideTrans(old(heap.space.mem.ram), old(heap.space.nodes), old(heap.space.owner), r1, n1, o1,
                   heap.space.mem.ram, heap.space.nodes, heap.space.owner, h);
      UnitsKept(r1, n1, o1, heap.space.mem.ram, heap.space.nodes, heap.space.owner,
                RunLayout(layout, h, full), heap.kernelBrk, h);
    }

    method TakeRun(full: nat) returns (h: nat)
      requires Valid() && PoolFor(full) == NUM_POOLS && full < TWO_64 && Room(full)
      modifies this, heap, heap.space`nodes, heap.space`owner, heap.space`view, heap.space.fa, heap.space.mem
      ensures Valid()
      ensures h !in old(layout.live) && h == old(heap.kernelBrk)
      ensures layout.live == old(layout.live)[h := Block(NUM_POOLS, full)]
      ensures heap.kernelBrk == PageAt(h, RunPages(full))
      ensures PayloadsKept(old(words), words, old(layout))
      ensures heap.space.fa.Available() >= old(heap.space.fa.Available()) - (3 * RunPages(full) + 1)
      ensures heap.space.Total() == old(heap.space.Total())
      ensures KeptOutside(old(heap.space.mem.ram), old(heap.space.nodes), old(heap.space.owner),
                          heap.space.mem.ram, heap.space.nodes, heap.space.owner)
    {
      hide HeapPages, AddressSpace.Valid, KeptOutside, LayoutOk, HeapInv, WordsAre, UnitsBacked, SameLeaves, Extends;
      hide PayloadsKept, PoolFor, RunPages, Room;
      BrkBasics(heap.space.mem.ram, heap.space.nodes, heap.space.owner, heap.kernelBrk);
      InvIsLayout(words, pools, layout, heap.kernelBrk, table);
      RunFresh(layout, heap.kernelBrk, full);
      LiveInUnits(layout, heap.kernelBrk);
      PageNumber(heap.kernelBrk);
      RoomIsSize(full);
      h := NewRun(full);
      ghost var r1, words1 := heap.space.mem.ram, words;
      ExtendKeeps(old(words), words, pools, layout, old(heap.kernelBrk), table);
      RunKeeps(words, pools, layout, old(heap.kernelBrk), table, full);
      SecondWord(h);
      Stamp(h, 0, full);
      UnitsSame(r1, heap.space.nodes, heap.space.owner, heap.space.mem.ram, RunLayout(layout, h, full));
      OutsideSame(old(heap.space.mem.ram), old(heap.space.nodes), old(heap.space.owner),
                  r1, heap.space.nodes, heap.space.owner, heap.space.mem.ram);
      layout := RunLayout(layout, h, full);
      StampUnless(old(words), words1, old(heap.kernelBrk), h, 0, full);
      InvIsLayout(old(words), pools, old(layout), old(heap.kernelBrk), table);
      InvIsLayout(words, pools, layout, heap.kernelBrk, table);
      PayloadsKeptBut(old(words), words, old(layout), layout, old(heap.kernelBrk), heap.kernelBrk, h);
    }

    /** kfree. A pool block goes back to the pool it was taken from, and of all of
        memory only its first header word changes; a run gives back exactly its
        own pages. */
    method Kfree(addr: nat)
      requires Valid()
      requires addr != 0 ==> addr >= HEADER && HeaderOf(addr) in layout.live
      modifies this`words, this`pools, this`layout, heap.space`owner, heap.space`view, heap.space.fa, heap.space.mem
      ensures Valid()
      ensures addr == 0 ==> words == old(words) && layout == old(layout)
      ensures addr != 0 && old(layout).live[HeaderOf(addr)].pool < NUM_POOLS ==>
                && layout == PushLayout(old(layout), HeaderOf(addr))
                && words == Put(old(words), HeaderOf(addr), old(pools.head)[old(layout).live[HeaderOf(addr)].pool])
      ensures addr != 0 && old(layout).live[HeaderOf(addr)].pool >= NUM_POOLS ==>
                && layout == DropLayout(old(layout), HeaderOf(addr))
                && Released(heap.space.mem.ram, heap.space.nodes, HeaderOf(addr),
                            RunPages(old(layout).live[HeaderOf(addr)].full))
                && KeptButPages(old(heap.space.mem.ram), heap.space.nodes, old(heap.space.owner),
                                heap.space.mem.ram, heap.space.nodes, heap.space.owner,
                                HeaderOf(addr), RunPages(old(layout).live[HeaderOf(addr)].full))
      ensures PayloadsKept(old(words), words, layout)
      ensures heap.space.fa.Available() >= old(heap.space.fa.Available())
      ensures heap.space.Total() == old(heap.space.Total())
      ensures KeptOutside(old(heap.space.mem.ram), heap.space.nodes, old(heap.space.owner),
                          heap.space.mem.ram, heap.space.nodes, heap.space.owner)
    {
      hide HeapPages, AddressSpace.Valid, KeptOutside, HeapInv, WordsAre, InPayload, SameLeaves;
      hide UnitSize, PoolFor, BlockSize, Released, KeptButPages, PoolPtr, PushLayout, DropLayout, Put;
      hide PayloadsKept, UnitsBacked;
      BrkBasics(heap.space.mem.ram, heap.space.nodes, heap.space.owner, heap.kernelBrk);
      PayloadsRefl(words, layout);
      KeptOutsideRefl(heap.space.mem.ram, heap.space.nodes, heap.space.owner);
      if addr == 0 {
        return;
      }
      var h := HeaderOf(addr);
      HeaderWords(words, pools, layout, heap.kernelBrk, table, h);
      HeaderIsWord(words, h);
      var ptr := Peek(h);
      if ptr != 0 {
        PushBlock(PoolIndex(ptr, table), h);
        OutsideSame(old(heap.space.mem.ram), heap.space.nodes, heap.space.owner,
                    old(heap.space.mem.ram), heap.space.nodes, heap.space.owner, heap.space.mem.ram);
      } else {
        var full := Peek(h + 8);
        FreeRun(h, full);
      }
    }

    method FreeRun(h: nat, full: word)
      requires Valid() && h in layout.live && layout.live[h] == Block(NUM_POOLS, full)
      modifies this`words, this`layout, heap.space`owner, heap.space`view, heap.space.fa, heap.space.mem
      ensures Valid()
      ensures layout == DropLayout(old(layout), h)
      ensures Released(heap.space.mem.ram, heap.space.nodes, h, RunPages(full))
      ensures KeptButPages(old(heap.space.mem.ram), heap.space.nodes, old(heap.space.owner),
                           heap.space.mem.ram, heap.space.nodes, heap.space.owner, h, RunPages(full))
      ensures PayloadsKept(old(words), words, layout)
      ensures heap.space.fa.Available() >= old(heap.space.fa.Available())
      ensures heap.space.Total() == old(heap.space.Total())
      ensures KeptOutside(old(heap.space.mem.ram), heap.space.nodes, old(heap.space.owner),
                          heap.space.mem.ram, heap.space.nodes, heap.space.owner)
    {
      hide AddressSpace.Valid, HeapPages, KeptOutside, HeapInv, WordsAre, ViewWithout, PayloadsKept, LayoutOk;
      hide UnitSize, PoolFor, BlockSize, NumPages, Released, KeptButPages, DropLayout, RunPages, UnitsBacked;
      BrkBasics(heap.space.mem.ram, heap.space.nodes, heap.space.owner, heap.kernelBrk);
      RunOnPages(heap.space.mem.ram, heap.space.nodes, heap.space.owner, layout, h);
      LiveRange(words, pools, layout, heap.kernelBrk, table, h);
      DropKeeps(words, pools, layout, heap.kernelBrk, table, h);
      NumPagesIff(full);
      heap.FreePages(h, NumPages(full));
      HeapPagesOutside(old(heap.space.mem.ram), heap.space.nodes, old(heap.space.owner),
                       heap.space.mem.ram, heap.space.nodes, heap.space.owner, h, RunPages(full));
      RunUnit(words, pools, layout, heap.kernelBrk, table, h);
      DropBacked(old(heap.space.mem.ram), heap.space.mem.ram, heap.space.nodes, old(heap.space.owner),
                 heap.space.owner, layout, heap.kernelBrk, h, RunPages(full));
      WithoutIsLess(old(heap.space.view), heap.space.view, h, RunPages(full));
      DropWords(old(heap.space.view), heap.space.view, words);
      RestrictKeeps(old(heap.space.view), heap.space.view, words, pools, layout, heap.kernelBrk, table, h,
                    RunPages(full));
      words := Restrict(words, heap.space.view);
      layout := DropLayout(layout, h);
    }

    /** push_free_block. */
    method PushBlock(i: nat, h: word)
      requires Valid() && h in layout.live && i == layout.live[h].pool < NUM_POOLS
      modifies this`words, this`pools, this`layout, heap.space`view, heap.space.mem
      ensures Valid()
      ensures layout == PushLayout(old(layout), h)
      ensures words == Put(old(words), h, old(pools.head)[i])
      ensures PayloadsKept(old(words), words, layout)
      ensures SameLeaves(old(heap.space.mem.ram), heap.space.nodes, heap.space.mem.ram, heap.space.nodes)
    {
      hide KernelHeap.Valid, HeapInv, PushLayout, WordsAre, SameLeaves;
      hide UnitSize, PoolFor, BlockSize, PayloadsKept, UnitsBacked;
      ListLengths(words, pools, layout, heap.kernelBrk, table);
      HeaderWords(words, pools, layout, heap.kernelBrk, table, h);
      PushKeeps(words, pools, layout, heap.kernelBrk, table, h, pools.head[i]);
      PushKeepsPayloads(words, pools, layout, heap.kernelBrk, table, h, pools.head[i]);
      PushBacked(heap.space.mem.ram, heap.space.nodes, heap.space.owner, layout, h);
      Poke(h, pools.head[i]);
      UnitsSame(old(heap.space.mem.ram), heap.space.nodes, heap.space.owner, heap.space.mem.ram, PushLayout(layout, h));
      pools := Pools(pools.avail[i := pools.avail[i] + 1], pools.head[i := h]);
      layout := PushLayout(layout, h);
    }

    // ----- stores -----

    /** A store by the owner of a live allocation into its own payload, on a page that
        has been touched. */
    method Store(h: nat, w: nat, v: word)
      requires Valid() && h in layout.live && InPayload(layout, h, w) && w in words
      modifies this`words, heap.space`view, heap.space.mem
      ensures Valid() && words == old(words)[w := v]
      ensures forall g, x :: g in layout.live && g != h && InPayload(layout, g, x) && x in old(words) ==>
                words[x] == old(words)[x]
      ensures SameLeaves(old(heap.space.mem.ram), heap.space.nodes, heap.space.mem.ram, heap.space.nodes)
    {
      hide KernelHeap.Valid, HeapInv, InPayload, IsMeta, UnitsBacked, WordsAre, SameLeaves;
      PayloadWrite(words, pools, layout, heap.kernelBrk, table, h, w, v);
      Poke(w, v);
      UnitsSame(old(heap.space.mem.ram), heap.space.nodes, heap.space.owner, heap.space.mem.ram, layout);
    }

    /** A store into a block that has been freed, behind its link: nobody minds. */
    method StoreFreed(b: nat, size: nat, w: nat, v: word)
      requires Valid() && IsFreed(layout, b, size) && size < 4096 && b < w < b + size && w % 8 == 0
      modifies this`words, heap.space`view, heap.space.mem
      ensures Valid() && words == old(words)[w := v]
      ensures PayloadsKept(old(words), words, layout)
      ensures SameLeaves(old(heap.space.mem.ram), heap.space.nodes, heap.space.mem.ram, heap.space.nodes)
    {
      hide KernelHeap.Valid, HeapInv, InPayload, IsFreed, UnitsBacked, WordsAre, SameLeaves;
      FreedTouched(b, size, w);
      FreedWrite(words, pools, layout, heap.kernelBrk, table, b, size, w, v);
      Poke(w, v);
      UnitsSame(old(heap.space.mem.ram), heap.space.nodes, heap.space.owner, heap.space.mem.ram, layout);
    }

    /** One word of memset, r bytes of it: the page may have to be touched first. */
    method ClearWord(h: nat, w: nat, r: nat)
      requires Valid() && h in layout.live && InPayload(layout, h, w) && 0 < r <= 8
      requires w in words || heap.space.fa.Available() > 0
      modifies this`words, heap.space`owner, heap.space`view, heap.space.fa, heap.space.mem
      ensures Valid() && w in words
      ensures forall x :: x in old(words) && x != w ==> x in words && words[x] == old(words)[x]
      ensures if r == 8 then words[w] == 0 else
                words[w] % ByteModulus(r) == 0 && (w in old(words) ==> words[w] == ClearBytes(old(words)[w], r))
      ensures heap.space.fa.Available() == old(heap.space.fa.Available()) - if w in old(words) then 0 else 1
      ensures heap.space.Total() == old(heap.space.Total())
      ensures KeptOutside(old(heap.space.mem.ram), heap.space.nodes, old(heap.space.owner),
                          heap.space.mem.ram, heap.space.nodes, heap.space.owner)
    {
      hide Memory, HeapInv, UnitsBacked, LayoutOk, SameLeaves, KeptOutside, ClearBytes, ByteModulus, Extends;
      InvIsLayout(words, pools, layout, heap.kernelBrk, table);
      PayloadInUnit(layout, heap.kernelBrk, h, w);
      Reach(w, h);
      ExtendedBut(old(words), words, w);
      ghost var r1, o1 := heap.space.mem.ram, heap.space.owner;
      if r == 8 {
        Store(h, w, 0);
      } else {
        var v := Peek(w);
        ClearBytesZeroes(v, r);
        Store(h, w, ClearBytes(v, r));
      }
      OutsideSame(old(heap.space.mem.ram), heap.space.nodes, old(heap.space.owner),
                  r1, heap.space.nodes, o1, heap.space.mem.ram);
    }

    /** How many pages of a payload, behind the header's, memset may still have to touch. */
    ghost function Untouched(h: nat): (n: nat)
      requires h in layout.live
      reads this`layout
    {
      var b := layout.live[h];
      if b.pool < NUM_POOLS then 0 else RunPages(b.full) - if b.full == 0 then 0 else 1
    }

    /** Memset has come to byte `done`, with at most one page fault for each page it
        has entered behind the header's. */
    ghost predicate ClearedTo(words0: Words, available: nat, r0: Ram, o0: Owners, h: nat, last: nat, done: nat)
      reads this, heap, heap.space, heap.space.fa, heap.space.mem
    {
      && h in layout.live && Faulted(available, h, last) && last in words
      && Cleared(words0, words, h + HEADER, done)
      && KeptOutside(r0, heap.space.nodes, o0, heap.space.mem.ram, heap.space.nodes, heap.space.owner)
    }

    ghost predicate Faulted(available: nat, h: nat, last: nat)
      requires h in layout.live
      reads this`layout, heap, heap.space, heap.space.fa
    {
      && h <= last
      && available >= Untouched(h)
      && heap.space.fa.Available() >= available -
           if layout.live[h].pool < NUM_POOLS then 0 else last / 4096 - h / 4096
    }

    /** memset(addr, 0, n) on a live payload, word by word; the bytes of a last
        partial word beyond n stay. */
    method Clear(h: nat, n: nat)
      requires Valid() && h in layout.live && n + HEADER <= layout.live[h].full
      requires heap.space.fa.Available() >= Untouched(h)
      modifies this`words, heap.space`owner, heap.space`view, heap.space.fa, heap.space.mem
      ensures Valid()
      ensures Cleared(old(words), words, h + HEADER, n)
      ensures heap.space.fa.Available() >= old(heap.space.fa.Available()) - Untouched(h)
      ensures heap.space.Total() == old(heap.space.Total())
      ensures KeptOutside(old(heap.space.mem.ram), heap.space.nodes, old(heap.space.owner),
                          heap.space.mem.ram, heap.space.nodes, heap.space.owner)
    {
      hide Valid, ClearedTo, KeptOutside, InPayload, Untouched, Cleared, Faulted;
      ghost var w0, a0, r0, o0 := words, heap.space.fa.Available(), heap.space.mem.ram, heap.space.owner;
      var done := 0;
      BeforePayload(h);
      ghost var last := h + HEADER - 8;
      while done + 8 <= n
        invariant done <= n && done % 8 == 0 && last == h + HEADER + done - 8
        invariant Valid() && ClearedTo(w0, a0, r0, o0, h, last, done)
        invariant heap.space.Total() == old(heap.space.Total())
      {
        ClearNext(w0, a0, r0, o0, h, n, last, done, 8);
        last := h + HEADER + done;
        done := done + 8;
      }
      if done < n {
        ClearNext(w0, a0, r0, o0, h, n, last, done, n - done);
        last := h + HEADER + done;
      }
      AllCleared(w0, a0, r0, o0, h, last, n);
    }

    lemma AllCleared(words0: Words, available: nat, r0: Ram, o0: Owners, h: nat, last: nat, n: nat)
      requires Valid() && ClearedTo(words0, available, r0, o0, h, last, n) && last < h + HEADER + n
      requires n + HEADER <= layout.live[h].full
      ensures Cleared(words0, words, h + HEADER, n)
      ensures heap.space.fa.Available() >= available - Untouched(h)
      ensures KeptOutside(r0, heap.space.nodes, o0, heap.space.mem.ram, heap.space.nodes, heap.space.owner)
    {
      hide Memory, HeapInv, UnitsBacked, RunPages, KeptOutside, Cleared;
      if layout.live[h].pool >= NUM_POOLS {
        RunOnPages(heap.space.mem.ram, heap.space.nodes, heap.space.owner, layout, h);
        PagesEntered(h, last, layout.live[h].full);
      }
    }

    /** The next word of memset. */
    method ClearNext(ghost words0: Words, ghost available: nat, ghost r0: Ram, ghost o0: Owners,
                     h: nat, n: nat, ghost last: nat, done: nat, r: nat)
      requires done < n && done % 8 == 0 && r == if n - done < 8 then n - done else 8
      requires last == h + HEADER + done - 8 && h in layout.live && n + HEADER <= layout.live[h].full
      requires Valid() && ClearedTo(words0, available, r0, o0, h, last, done)
      modifies this`words, heap.space`owner, heap.space`view, heap.space.fa, heap.space.mem
      ensures Valid() && ClearedTo(words0, available, r0, o0, h, h + HEADER + done, done + r)
      ensures heap.space.Total() == old(heap.space.Total())
    {
      hide Valid, Cleared, KeptOutside, InPayload, ClearBytes, ByteModulus, Untouched;
      var w := h + HEADER + done;
      NextPayload(h, n, done);
      MayFault(available, h, n, w);
      ClearWord(h, w, r);
      ClearedNext(words0, old(words), words, h + HEADER, done, r);
      OutsideBoth(r0, heap.space.nodes, o0, old(heap.space.mem.ram), old(heap.space.owner),
                  heap.space.mem.ram, heap.space.owner);
    }

    lemma NextPayload(h: nat, n: nat, done: nat)
      requires Valid() && h in layout.live && n + HEADER <= layout.live[h].full && done < n && done % 8 == 0
      ensures InPayload(layout, h, h + HEADER + done) && h % 8 == 0
    {
      hide Memory, UnitsBacked, HeapInv, LayoutOk;
      InvIsLayout(words, pools, layout, heap.kernelBrk, table);
      PayloadWord(layout, heap.kernelBrk, h, done, n);
    }

    /** A word that is not there is on a page not entered before. */
    lemma MayFault(available: nat, h: nat, n: nat, w: nat)
      requires Valid() && h in layout.live && n + HEADER <= layout.live[h].full
      requires InPayload(layout, h, w) && w - 8 in words && h <= w - 8 && w < h + HEADER + n && h % 8 == 0
      requires Faulted(available, h, w - 8)
      ensures w !in words ==> heap.space.fa.Available() > 0 && layout.live[h].pool >= NUM_POOLS
      ensures w !in words ==> w / 4096 == (w - 8) / 4096 + 1
      ensures w / 4096 <= (w - 8) / 4096 + 1 && w / 4096 >= (w - 8) / 4096
    {
      hide KernelHeap.Valid, HeapInv, UnitsBacked, LayoutOk, WordsAre, RunPages;
      if layout.live[h].pool < NUM_POOLS {
        PayloadTouched(h, w);
      } else if w !in words {
        InvIsLayout(words, pools, layout, heap.kernelBrk, table);
        RunOnPages(heap.space.mem.ram, heap.space.nodes, heap.space.owner, layout, h);
        PayloadInUnit(layout, heap.kernelBrk, h, w);
        InUnit(w, h);
        if w / 4096 == (w - 8) / 4096 {
          SamePageIn(heap.space.view, words, w - 8, w);
        }
        PagesEntered(h, w, layout.live[h].full);
      }
    }

    lemma BeforePayload(h: nat)
      requires Valid() && h in layout.live && heap.space.fa.Available() >= Untouched(h)
      ensures ClearedTo(words, heap.space.fa.Available(), heap.space.mem.ram, heap.space.owner, h, h + HEADER - 8, 0)
    {
      hide Memory, HeapInv, UnitsBacked, LayoutOk;
      HeaderWords(words, pools, layout, heap.kernelBrk, table, h);
      InvIsLayout(words, pools, layout, heap.kernelBrk, table);
      LiveStart(layout, heap.kernelBrk, h);
      SecondInPage(h);
      ClearedStart(words, h + HEADER);
      KeptOutsideRefl(heap.space.mem.ram, heap.space.nodes, heap.space.owner);
    }

    /** kcalloc: as kmalloc, with a payload of zeroes. */
    method Kcalloc(nmemb: nat, size: nat) returns (addr: nat)
      requires Valid() && Product(nmemb, size) + HEADER < TWO_64 && Room(Full(Product(nmemb, size)))
      modifies this, heap, heap.space`nodes, heap.space`owner, heap.space`view, heap.space.fa, heap.space.mem
      ensures Valid()
      ensures HEADER <= addr && HeaderOf(addr) !in old(layout.live)
      ensures var full := Full(Product(nmemb, size));
        && layout.live == old(layout.live)[HeaderOf(addr) := Block(PoolFor(full), full)]
        && (PoolFor(full) == NUM_POOLS ==>
              && HeaderOf(addr) == old(heap.kernelBrk)
              && heap.kernelBrk == PageAt(old(heap.kernelBrk), RunPages(full)))
        && (PoolFor(full) < NUM_POOLS ==> heap.space.fa.Available() >= old(heap.space.fa.Available()) - 4)
      ensures PayloadsKept(old(words), words, old(layout))
      ensures ZeroBytes(words, addr, Product(nmemb, size))
      ensures heap.space.Total() == old(heap.space.Total())
      ensures KeptOutside(old(heap.space.mem.ram), old(heap.space.nodes), old(heap.space.owner),
                          heap.space.mem.ram, heap.space.nodes, heap.space.owner)
    {
      hide Valid, KeptOutside, PayloadsKept, ZeroBytes, LayoutOk, Room, PoolFor, RunPages, Product;
      var n := Product(nmemb, size);
      RoomToClear(Full(n));
      addr := Kmalloc(n);
      ghost var words1, r1, o1 := words, heap.space.mem.ram, heap.space.owner;
      InOrder();
      Clear(HeaderOf(addr), n);
      ClearKeepsPayloads(old(words), words1, words, old(layout), layout, heap.kernelBrk, HeaderOf(addr), n);
      OutsideThree(old(heap.space.mem.ram), old(heap.space.nodes), old(heap.space.owner), r1, o1,
                   heap.space.mem.ram, heap.space.nodes, heap.space.owner);
    }

    lemma RoomIsSize(full: nat)
      requires Room(full) && PoolFor(full) == NUM_POOLS
      ensures full <= MAX_FULL
    {
    }

    lemma InOrder()
      requires Valid()
      ensures LayoutOk(layout, heap.kernelBrk)
    {
      hide Memory, UnitsBacked;
    }

    lemma RoomToClear(full: nat)
      requires Room(full)
      ensures PoolFor(full) == NUM_POOLS ==> heap.space.fa.Available() >= 4 * RunPages(full) && RunPages(full) >= 1
    {
      if PoolFor(full) == NUM_POOLS {
        RunNotEmpty(full);
      }
    }

    /** First access to a page under the heap: it gets a frame, and nothing that was
        there changes. */
    method Touch(va: nat) returns (handled: bool)
      requires Valid() && KERNEL_HEAP_START <= va < heap.kernelBrk && heap.space.fa.Available() > 0
      modifies this`words, heap.space`owner, heap.space`view, heap.space.fa, heap.space.mem
      ensures Valid() && Extends(old(words), words)
      ensures handled <==> old(heap.space.LeafAt(va)).alloc
      ensures handled ==> heap.space.LeafAt(va).present && IsDemand(heap.space.owner, PathOf(va))
      ensures heap.space.Total() == old(heap.space.Total())
      ensures KeptOutside(old(heap.space.mem.ram), heap.space.nodes, old(heap.space.owner),
                          heap.space.mem.ram, heap.space.nodes, heap.space.owner)
    {
      hide AddressSpace.Valid, HeapPages, HeapInv, KeptOutside, UnitsBacked, KeptBut, PathOf, IsDemand, Leaf, WordsAre;
      hide Extends, LayoutOk, Backed, IsEntry;
      BrkBasics(heap.space.mem.ram, heap.space.nodes, heap.space.owner, heap.kernelBrk);
      KeptOutsideRefl(heap.space.mem.ram, heap.space.nodes, heap.space.owner);
      InvIsLayout(words, pools, layout, heap.kernelBrk, table);
      handled := TouchPage(va);
      if handled {
        ExtendKeeps(old(words), words, pools, layout, heap.kernelBrk, table);
        HeapChangeOutside(old(heap.space.mem.ram), heap.space.nodes, old(heap.space.owner),
                          heap.space.mem.ram, heap.space.nodes, heap.space.owner, va);
        InsideIsPageable(heap.space.mem.ram, heap.space.nodes, heap.space.owner, heap.kernelBrk, va);
        TouchedIsBacked(heap.space.mem.ram, heap.space.nodes, heap.space.owner, PathOf(va));
        UnitsKept(old(heap.space.mem.ram), heap.space.nodes, old(heap.space.owner),
                  heap.space.mem.ram, heap.space.nodes, heap.space.owner, layout, heap.kernelBrk, va);
      }
    }

    /** The loop of allocate_blocks: a list node at the start of every block. */
    method CarvePage(page: nat, i: nat)
      requires Memory() && page in words && i < NUM_POOLS
      requires KERNEL_HEAP_START <= page && page + PAGE_SIZE <= KERNEL_STACKS_START && page % 4096 == 0
      modifies this`words, heap.space`view, heap.space.mem
      ensures Memory()
      ensures forall w :: w in old(words) && w < page ==> w in words && words[w] == old(words)[w]
      ensures forall b :: b in Blocks(page, BlockSize(i), BlocksPerPage(i)) ==>
                b in words && words[b] == NextIn(b, BlockSize(i), page + 4096)
      ensures SameLeaves(old(heap.space.mem.ram), heap.space.nodes, heap.space.mem.ram, heap.space.nodes)
    {
      hide Memory, BlockSize, BlocksPerPage, CarvedTo, SameLeaves;
      var s := BlockSize(i);
      var offset := 0;
      ghost var n := BlocksPerPage(i);
      ghost var left := n;
      ghost var done: seq<nat> := [];
      CarveStart(words, page, s, n);
      LeavesRefl(heap.space.mem.ram, heap.space.nodes);
      while offset < 4096
        invariant CarvedTo(old(words), words, page, s, n, offset, left, done) && offset % 32 == 0
        invariant Memory() && page in words
        invariant SameLeaves(old(heap.space.mem.ram), heap.space.nodes, heap.space.mem.ram, heap.space.nodes)
        decreases left
      {
        CarveStep(old(words), words, page, s, n, offset, left, done);
        ghost var r1 := heap.space.mem.ram;
        InTouchedPage(page, offset);
        Sum32(offset, s);
        Poke(page + offset, if offset < 4096 - s then page + offset + s else 0);
        SameLeavesTrans(old(heap.space.mem.ram), heap.space.nodes, r1, heap.space.nodes,
                        heap.space.mem.ram, heap.space.nodes);
        done := done + [page + offset];
        left := left - 1;
        offset := offset + s;
      }
      CarveEnd(old(words), words, page, s, n, offset, left, done);
    }

    lemma InTouchedPage(page: nat, offset: nat)
      requires Memory() && page in words && page % 4096 == 0 && offset < 4096 && offset % 32 == 0
      requires KERNEL_HEAP_START <= page && page + PAGE_SIZE <= KERNEL_STACKS_START
      ensures page + offset in words
    {
      hide KernelHeap.Valid, WordsAre;
      OffsetInPage(page, offset);
      SamePageIn(heap.space.view, words, page, page + offset);
    }
  }

  /** After `offset` bytes: the blocks in `done` carry their list nodes, `left`
      blocks remain, and the memory below the page is as it was. */
  ghost predicate CarvedTo(words: Words, ws: Words, page: nat, s: nat, n: nat,
                           offset: nat, left: nat, done: seq<nat>) {
    && left * s + offset == 4096
    && words.Keys <= ws.Keys
    && (forall w :: w in words && w < page ==> ws[w] == words[w])
    && done + Blocks(page + offset, s, left) == Blocks(page, s, n)
    && (forall b :: b in done ==> b < page + offset && b in ws && ws[b] == NextIn(b, s, page + 4096))
  }

  lemma CarveStart(words: Words, page: nat, s: nat, n: nat)
    requires n * s == 4096
    ensures CarvedTo(words, words, page, s, n, 0, n, [])
  {
    assert [] + Blocks(page, s, n) == Blocks(page, s, n);
  }

  lemma BlocksLeft(left: nat, s: nat, offset: nat)
    requires left * s + offset == 4096 && 0 < s
    ensures left > 0 <==> offset < 4096
  {
    if left > 0 {
      assert left * s >= s;
    }
  }

  lemma CarveStep(words: Words, ws: Words, page: nat, s: nat, n: nat, offset: nat, left: nat, done: seq<nat>)
    requires CarvedTo(words, ws, page, s, n, offset, left, done)
    requires offset < 4096 && 0 < s && page + 4096 < TWO_64
    ensures left > 0 && s <= 4096
    ensures CarvedTo(words, ws[page + offset := if offset < 4096 - s then page + offset + s else 0],
                     page, s, n, offset + s, left - 1, done + [page + offset])
  {
    BlocksLeft(left, s, offset);
    StepTo(offset, s, left, 4096);
    assert Blocks(page + offset, s, left) == [page + offset] + Blocks(page + offset + s, s, left - 1);
    assert done + ([page + offset] + Blocks(page + offset + s, s, left - 1))
        == (done + [page + offset]) + Blocks(page + offset + s, s, left - 1);
  }

  lemma CarveEnd(words: Words, ws: Words, page: nat, s: nat, n: nat, offset: nat, left: nat, done: seq<nat>)
    requires CarvedTo(words, ws, page, s, n, offset, left, done) && offset >= 4096 && 0 < s
    ensures forall w :: w in words && w < page ==> w in ws && ws[w] == words[w]
    ensures forall b :: b in Blocks(page, s, n) ==> b in ws && ws[b] == NextIn(b, s, page + 4096)
  {
    BlocksLeft(left, s, offset);
  }

  lemma InvIsLayout(words: Words, pools: Pools, l: Layout, brk: nat, table: nat)
    requires HeapInv(words, pools, l, brk, table)
    ensures LayoutOk(l, brk)
  {
  }

  lemma TouchedIsBacked(ram: Ram, nodes: Nodes, owner: Owners, p: Path)
    requires IsEntry(nodes, p) && Leaf(ram, nodes, p).present && IsDemand(owner, p)
    requires KernelData(Leaf(ram, nodes, p))
    ensures Backed(ram, nodes, owner, p)
  {
  }

  lemma RunUnit(words: Words, pools: Pools, l: Layout, brk: nat, table: nat, h: nat)
    requires HeapInv(words, pools, l, brk, table) && h in l.live && l.live[h].pool >= NUM_POOLS
    ensures LayoutOk(l, brk) && h in l.units && l.units[h] == 4096 * RunPages(l.live[h].full)
  {
    LiveNotFree(l, brk, h);
  }

  lemma PoolForUnique(full: nat, i: nat)
    requires i <= NUM_POOLS && (i < NUM_POOLS ==> full <= BlockSize(i))
    requires forall j :: 0 <= j < i ==> BlockSize(j) < full
    ensures PoolFor(full) == i
  {
  }

  lemma PagePositive(i: nat)
    requires i < NUM_POOLS
    ensures BlocksPerPage(i) > 0
  {
  }

  lemma ListLengths(words: Words, pools: Pools, l: Layout, brk: nat, table: nat)
    requires HeapInv(words, pools, l, brk, table)
    ensures |pools.avail| == |pools.head| == |l.free| == NUM_POOLS
    ensures forall i :: 0 <= i < NUM_POOLS ==> pools.avail[i] == |l.free[i]|
  {
  }

  lemma HeaderWords(words: Words, pools: Pools, l: Layout, brk: nat, table: nat, h: nat)
    requires HeapInv(words, pools, l, brk, table) && h in l.live && 0 < table
    ensures h in words && h + 8 in words && words[h + 8] == l.live[h].full
    ensures l.live[h].pool < NUM_POOLS ==>
              words[h] != 0 && words[h] >= table && (words[h] - table) / 16 == l.live[h].pool
    ensures l.live[h].pool >= NUM_POOLS ==> words[h] == 0 && l.live[h].pool == NUM_POOLS
    ensures h < brk && |pools.head| == NUM_POOLS && |l.free| == NUM_POOLS
  {
    LiveRange(words, pools, l, brk, table, h);
    hide LayoutOk, Chain;
  }

  lemma PayloadsRefl(words: Words, l: Layout)
    ensures PayloadsKept(words, words, l)
    ensures forall h :: h in l.live ==> PayloadsKept(words, words, DropLayout(l, h))
  {
  }

  lemma LiveRange(words: Words, pools: Pools, l: Layout, brk: nat, table: nat, h: nat)
    requires HeapInv(words, pools, l, brk, table) && h in l.live
    ensures KERNEL_HEAP_START <= h < brk
    ensures l.live[h].pool >= NUM_POOLS ==> PageAt(h, RunPages(l.live[h].full)) <= brk
    ensures l.live[h].full <= MAX_FULL
  {
    LiveNotFree(l, brk, h);
    assert l.units[h] == UnitSize(l.live[h]) && h + l.units[h] <= brk;
  }

  lemma PushKeepsPayloads(words: Words, pools: Pools, l: Layout, brk: nat, table: nat, h: word, next: word)
    requires HeapInv(words, pools, l, brk, table) && h in l.live && l.live[h].pool < NUM_POOLS
    requires next == pools.head[l.live[h].pool]
    ensures PayloadsKept(words, Put(words, h, next), PushLayout(l, h))
  {
    hide LayoutOk, IsMeta, InPayload, Headers, Lists, PushLayout;
    LayoutFree(l, brk, 0);
    var l' := PushLayout(l, h);
    PushLayoutOk(l, brk, h);
    PushedIsMeta(l, h);
    forall g, w | g in l'.live && InPayload(l', g, w) && w in words
      ensures Put(words, h, next)[w] == words[w]
    {
      Separation(l', brk, g, w);
    }
  }

  lemma PushedIsMeta(l: Layout, h: nat)
    requires h in l.live && l.live[h].pool < |l.free|
    ensures IsMeta(PushLayout(l, h), h)
  {
    assert h in PushLayout(l, h).free[l.live[h].pool];
  }

  lemma LiveStart(l: Layout, brk: nat, h: nat)
    requires LayoutOk(l, brk) && h in l.live
    ensures h % 32 == 0 && KERNEL_HEAP_START <= h
  {
    LiveNotFree(l, brk, h);
    hide FreeOk, LiveOk, Covered, Separate;
  }

  lemma PayloadGrid(h: nat, done: nat)
    requires h % 32 == 0 && done % 8 == 0
    ensures (h + HEADER) % 8 == 0 && (h + HEADER + done) % 8 == 0
  {
    var a, b := h / 32, done / 8;
    assert h == 32 * a && done == 8 * b;
    Multiple8(h + HEADER, 4 * a + 2);
    Multiple8(h + HEADER + done, 4 * a + 2 + b);
  }

  lemma PayloadWord(l: Layout, brk: nat, h: nat, done: nat, n: nat)
    requires LayoutOk(l, brk) && h in l.live
    requires done < n && n + HEADER <= l.live[h].full && done % 8 == 0
    ensures InPayload(l, h, h + HEADER + done) && (h + HEADER) % 8 == 0 && h % 8 == 0
  {
    LiveStart(l, brk, h);
    hide LayoutOk;
    PayloadGrid(h, done);
    Multiple8(h, 4 * (h / 32));
  }

  lemma ClearedStart(words: Words, start: nat)
    ensures Cleared(words, words, start, 0)
  {
  }

  /** One more word of memset, or the bytes of a last partial one. */
  lemma ClearedNext(words: Words, words1: Words, words2: Words, start: nat, done: nat, r: nat)
    requires Cleared(words, words1, start, done) && start % 8 == 0 && done % 8 == 0 && 0 < r <= 8
    requires start + done in words2
    requires forall x :: x in words1 && x != start + done ==> x in words2 && words2[x] == words1[x]
    requires if r == 8 then words2[start + done] == 0 else
               && words2[start + done] % ByteModulus(r) == 0
               && (start + done in words1 ==> words2[start + done] == ClearBytes(words1[start + done], r))
    ensures Cleared(words, words2, start, done + r)
  {
    hide ClearBytes, ByteModulus;
    forall x: nat
      ensures x in words && (x % 8 != 0 || x < start || start + (done + r) <= x) ==>
                x in words2 && words2[x] == words[x]
      ensures x % 8 == 0 && start <= x < start + (done + r) ==>
                x in words2 && if x + 8 <= start + (done + r) then words2[x] == 0
                               else words2[x] % ByteModulus(start + (done + r) - x) == 0
      ensures x in words && x % 8 == 0 && start <= x < start + (done + r) < x + 8 ==>
                x in words2 && words2[x] == ClearBytes(words[x], start + (done + r) - x)
    {
      if x % 8 == 0 {
        GridPoint(x, start, done);
      } else {
        NotOnGrid(x, start, done);
      }
    }
  }

  lemma GridPoint(x: nat, start: nat, done: nat)
    requires x % 8 == 0 && start % 8 == 0 && done % 8 == 0
    ensures x < start + done ==> x + 8 <= start + done
    ensures start + done < x ==> start + done + 8 <= x
  {
    var a, b, c := x / 8, start / 8, done / 8;
    assert x == 8 * a && start == 8 * b && done == 8 * c;
  }

  lemma NotOnGrid(x: nat, start: nat, done: nat)
    requires x % 8 != 0 && start % 8 == 0 && done % 8 == 0
    ensures x != start + done
  {
    var b, c := start / 8, done / 8;
    assert start == 8 * b && done == 8 * c;
    Multiple8(start + done, b + c);
  }

  // ----- words and pages -----

  /** Before anything is mapped. */
  lemma NothingBacked(ram: Ram, nodes: Nodes, owner: Owners, l: Layout)
    requires l.units == map[] && l.live == map[]
    ensures UnitsBacked(ram, nodes, owner, l)
  {
  }

  lemma NoWords(heap: KernelHeap)
    requires heap.Valid() && heap.kernelBrk == KERNEL_HEAP_START
    ensures WordsAre(heap.space.view, map[])
  {
    hide PathOf, Pack, TreeInv, FrameAllocator.Valid, DirectOk;
    forall w: nat | HeapWord(w)
      ensures PathOf(w) !in heap.space.view
    {
      assert !IsDemand(heap.space.owner, PathOf(w));
    }
  }

  lemma BelowKept(words: Words, words1: Words, words2: Words, page: nat)
    requires Extends(words, words1)
    requires forall w :: w in words1 && w < page ==> w in words2 && words2[w] == words1[w]
    ensures forall w :: w in words && w < page ==> w in words2 && words2[w] == words[w]
  {
  }

  lemma ExtendedBut(words: Words, words': Words, w: nat)
    requires Extends(words, words')
    ensures forall x :: x in words && x != w ==> x in words' && words'[x] == words[x]
    ensures w in words ==> w in words' && words'[w] == words[w]
  {
  }

  lemma MoreWords(words: Words, more: Words)
    requires forall w :: w in words ==> w !in more
    ensures Extends(words, words + more)
  {
  }

  /** More words do not disturb the allocator. */
  lemma ExtendKeeps(words: Words, words': Words, pools: Pools, l: Layout, brk: nat, table: nat)
    requires HeapInv(words, pools, l, brk, table) && Extends(words, words')
    ensures HeapInv(words', pools, l, brk, table)
  {
    hide HeapInv, IsMeta;
    MetaFrame(words, words', pools, l, brk, table);
  }

  lemma HeaderIsWord(words: Words, h: nat)
    requires h in words
    ensures words[h] < TWO_64
  {
  }

  lemma UnitStart(l: Layout, brk: nat, h: nat)
    requires LayoutOk(l, brk) && h in l.units
    ensures h % 32 == 0
  {
    hide FreeOk, LiveOk, Covered, Separate;
  }

  lemma BlockOnPage(ram: Ram, nodes: Nodes, owner: Owners, l: Layout, a: nat)
    requires UnitsBacked(ram, nodes, owner, l) && a in l.units && l.units[a] < 4096
    ensures InOnePage(a, l.units[a])
  {
    hide RangeBacked;
  }

  lemma RunOnPages(ram: Ram, nodes: Nodes, owner: Owners, l: Layout, h: nat)
    requires UnitsBacked(ram, nodes, owner, l) && h in l.live && l.live[h].pool >= NUM_POOLS
    ensures h % 4096 == 0
  {
    hide RangeBacked;
  }

  lemma UnitBackedAt(ram: Ram, nodes: Nodes, owner: Owners, l: Layout, brk: nat, a: nat, va: nat)
    requires LayoutOk(l, brk) && UnitsBacked(ram, nodes, owner, l) && a in l.units && a <= va < a + l.units[a]
    ensures Backed(ram, nodes, owner, PathOf(va)) && KERNEL_HEAP_START <= va < brk
  {
    hide FreeOk, LiveOk, Covered, Separate, RunsAligned, Backed, PathOf;
    assert RangeBacked(ram, nodes, owner, a, l.units[a]);
  }

  lemma AnyKept(ram: Ram, nodes: Nodes, owner: Owners, p: Path)
    ensures KeptBut(ram, nodes, owner, ram, nodes, owner, p)
  {
  }

  lemma StillEntry(ram: Ram, nodes: Nodes, owner: Owners, p: Path)
    requires Backed(ram, nodes, owner, p)
    ensures IsEntry(nodes, p)
  {
  }

  lemma LeavesRefl(ram: Ram, nodes: Nodes)
    ensures SameLeaves(ram, nodes, ram, nodes)
  {
  }

  lemma OutsideTrans(r0: Ram, n0: Nodes, o0: Owners, r1: Ram, n1: Nodes, o1: Owners,
                     r2: Ram, n2: Nodes, o2: Owners, va: nat)
    requires KeptOutside(r0, n0, o0, r1, n1, o1) && InHeap(va) && KeptBut(r1, n1, o1, r2, n2, o2, PathOf(va))
    ensures KeptOutside(r0, n0, o0, r2, n2, o2)
  {
    HeapChangeOutside(r1, n1, o1, r2, n2, o2, va);
    hide Leaf, IsEntry, IsDemand, HeapPath, PathOf;
    forall q | IsLeaf(q) && !HeapPath(q)
      ensures Kept(r0, n0, o0, r2, n2, o2, q)
    {
      assert Kept(r0, n0, o0, r1, n1, o1, q) && Kept(r1, n1, o1, r2, n2, o2, q);
    }
  }

  lemma OutsideSame(r0: Ram, n0: Nodes, o0: Owners, r1: Ram, n1: Nodes, o1: Owners, r2: Ram)
    requires KeptOutside(r0, n0, o0, r1, n1, o1) && SameLeaves(r1, n1, r2, n1)
    ensures KeptOutside(r0, n0, o0, r2, n1, o1)
  {
    hide Leaf, IsEntry, IsDemand, HeapPath;
    forall q | IsLeaf(q) && !HeapPath(q)
      ensures Kept(r0, n0, o0, r2, n1, o1, q)
    {
      assert Kept(r0, n0, o0, r1, n1, o1, q);
    }
  }

  lemma OutsideThree(r0: Ram, n0: Nodes, o0: Owners, r1: Ram, o1: Owners, r2: Ram, nodes: Nodes, o2: Owners)
    requires KeptOutside(r0, n0, o0, r1, nodes, o1) && KeptOutside(r1, nodes, o1, r2, nodes, o2)
    ensures KeptOutside(r0, n0, o0, r2, nodes, o2)
  {
    hide Leaf, IsEntry, IsDemand, HeapPath;
    forall q | IsLeaf(q) && !HeapPath(q)
      ensures Kept(r0, n0, o0, r2, nodes, o2, q)
    {
      assert Kept(r0, n0, o0, r1, nodes, o1, q) && Kept(r1, nodes, o1, r2, nodes, o2, q);
    }
  }

  lemma OutsideBoth(r0: Ram, nodes: Nodes, o0: Owners, r1: Ram, o1: Owners, r2: Ram, o2: Owners)
    requires KeptOutside(r0, nodes, o0, r1, nodes, o1) && KeptOutside(r1, nodes, o1, r2, nodes, o2)
    ensures KeptOutside(r0, nodes, o0, r2, nodes, o2)
  {
    hide KeptOutside;
    OutsideThree(r0, nodes, o0, r1, o1, r2, nodes, o2);
  }

  lemma LiveBlock(l: Layout, brk: nat, h: nat)
    requires LayoutOk(l, brk) && h in l.live && l.live[h].pool < NUM_POOLS
    ensures h in l.units && l.units[h] == BlockSize(l.live[h].pool) < 4096
  {
    LiveNotFree(l, brk, h);
  }

  /** A free block carries its link. */
  lemma FreedInWords(words: Words, pools: Pools, l: Layout, brk: nat, table: nat, b: nat)
    requires HeapInv(words, pools, l, brk, table) && InSomeList(l.free, b)
    ensures b in words
  {
    hide LayoutOk, Headers;
    var i :| 0 <= i < |l.free| && b in l.free[i];
    InChain(words, pools.head[i], l.free[i], b);
  }

  lemma {:induction false} InChain(words: Words, head: nat, list: seq<nat>, b: nat)
    requires Chain(words, head, list) && b in list
    ensures b in words
    decreases |list|
  {
    if b != list[0] {
      InChain(words, words[head], list[1..], b);
    }
  }

  lemma CarvedOk(words: Words, pools: Pools, l: Layout, brk: nat, table: nat, i: nat)
    requires HeapInv(words, pools, l, brk, table) && i < NUM_POOLS && pools.avail[i] == 0
    requires KERNEL_HEAP_START <= brk && brk % 4096 == 0
    ensures |l.free| == NUM_POOLS && LayoutOk(CarveLayout(l, i, brk), brk + 4096)
  {
    hide LayoutOk, Headers, Chain, CarveLayout;
    ListLengths(words, pools, l, brk, table);
    CarveLayoutOk(l, i, brk);
  }

  lemma RunNotEmpty(full: nat)
    requires PoolFor(full) == NUM_POOLS
    ensures RunPages(full) >= 1 && full > 2048
  {
    assert BlockSize(6) < full;
  }

  lemma RunStart(ram: Ram, nodes: Nodes, owner: Owners, l: Layout, h: nat, full: nat)
    requires UnitsBacked(ram, nodes, owner, RunLayout(l, h, full)) && RunPages(full) >= 1
    ensures Backed(ram, nodes, owner, PathOf(h)) && h < PageAt(h, RunPages(full))
  {
    hide Backed, PathOf, RunPages, RunsAligned;
    assert RangeBacked(ram, nodes, owner, h, RunLayout(l, h, full).units[h]);
  }

  lemma WordInHeap(view: View, words: Words, w: nat)
    requires WordsAre(view, words) && w in words
    ensures HeapWord(w)
  {
  }

  lemma SecondInPage(h: nat)
    requires h % 32 == 0
    ensures (h + 8) / 4096 == h / 4096 && (HeapWord(h) ==> HeapWord(h + 8))
  {
    var q, a := h / 4096, h / 32;
    assert h == 32 * a;
    Quotient(h + 8, q, 32 * (a - 128 * q) + 8);
    Multiple8(h + 8, 4 * a + 1);
    if h < KERNEL_STACKS_START {
      EndOfHeap(h, q, a);
    }
  }

  lemma EndOfHeap(h: nat, q: nat, a: nat)
    requires h == 32 * a && q == h / 4096 && h < KERNEL_STACKS_START
    ensures h + 8 < KERNEL_STACKS_START
  {
  }

  lemma Sum32(a: nat, b: nat)
    requires a % 32 == 0 && b % 32 == 0
    ensures (a + b) % 32 == 0
  {
    Multiple32(a + b, a / 32 + b / 32);
  }

  lemma OffsetInPage(page: nat, offset: nat)
    requires page % 4096 == 0 && offset < 4096 && offset % 32 == 0
    requires KERNEL_HEAP_START <= page && page + PAGE_SIZE <= KERNEL_STACKS_START
    ensures (page + offset) / 4096 == page / 4096 && HeapWord(page + offset)
  {
    var q, a := page / 4096, offset / 32;
    assert page == 4096 * q && offset == 32 * a;
    Multiple8(page + offset, 512 * q + 4 * a);
    Quotient(page + offset, q, offset);
  }

  lemma Quotient(x: nat, q: nat, r: nat)
    requires x == 4096 * q + r && r < 4096
    ensures x / 4096 == q
  {
  }

  lemma PageNumber(brk: nat)
    requires brk % 4096 == 0
    ensures brk % 32 == 0 && brk % 8 == 0
  {
    BrkNumber(brk);
    Multiple8(brk, 512 * (brk / 4096));
  }

  lemma StampUnless(words: Words, words1: Words, brk: nat, h: nat, ptr: word, full: word)
    requires Extends(words, words1)
    ensures Unless(words, Put(Put(words1, h, ptr), h + 8, full), brk, h)
  {
  }

  /** The pages of a payload: no more than its run has, the header's not counted. */
  lemma PagesEntered(h: nat, last: nat, full: nat)
    requires h % 4096 == 0 && h <= last < h + full
    ensures 0 <= last / 4096 - h / 4096 <= RunPages(full) - 1
  {
    var q := h / 4096;
    assert h == 4096 * q;
    assert last / 4096 == q + (last - h) / 4096;
  }

  lemma WithoutIsLess(view: View, view': View, start: nat, k: nat)
    requires ViewWithout(view, view', start, k)
    ensures forall p :: p in view' ==> p in view && view'[p] == view[p]
  {
  }

  /** A word beside the pages released stays. */
  lemma BesideStays(view: View, view': View, words: Words, h: nat, n: nat, w: nat)
    requires WordsAre(view, words) && ViewWithout(view, view', h, n) && w in words
    requires KERNEL_HEAP_START <= h && h % 4096 == 0 && h + 4096 * n <= KERNEL_STACKS_START
    requires w < h || h + 4096 * n <= w
    ensures w in Restrict(words, view')
  {
    hide PathOf, Pack;
    forall i | 0 <= i < n
      ensures PathOf(w) != PathOf(PageAt(h, i))
    {
      SameHeapPage(w, PageAt(h, i));
      OutsideRun(h, n, i, w);
    }
  }

  /** Every word that matters behind the release of a run lies beside its pages. */
  lemma MattersBeside(l: Layout, brk: nat, h: nat, w: nat)
    requires LayoutOk(l, brk) && h in l.live
    requires IsMeta(DropLayout(l, h), w) || exists g :: g in l.live && g != h && InPayload(l, g, w)
    ensures h in l.units && (w < h || h + l.units[h] <= w)
  {
    LiveNotFree(l, brk, h);
    var l' := DropLayout(l, h);
    if g :| g in l.live && g != h && (InPayload(l, g, w) || w == g || w == g + 8) {
      LiveNotFree(l, brk, g);
      assert UnitsIn(l.units, brk);
      hide LayoutOk;
      if InPayload(l, g, w) {
        PayloadInUnit(l, brk, g, w);
      }
      UnitApart(l, brk, g, w, h);
    } else {
      assert InSomeList(l.free, w);
      hide InSomeList;
      assert FreeOk(l);
      NodeInUnits(l, w);
      FreedNotLive(l, w);
      hide LayoutOk;
      UnitApart(l, brk, w, w, h);
    }
  }

  lemma RestrictKeeps(view: View, view': View, words: Words, pools: Pools, l: Layout, brk: nat, table: nat,
                      h: nat, n: nat)
    requires LayoutOk(l, brk) && h in l.live && HeapInv(words, pools, DropLayout(l, h), brk, table)
    requires WordsAre(view, words) && ViewWithout(view, view', h, n)
    requires h % 4096 == 0 && h in l.units && l.units[h] == 4096 * n
    requires KERNEL_HEAP_START <= h && h + 4096 * n <= KERNEL_STACKS_START
    ensures HeapInv(Restrict(words, view'), pools, DropLayout(l, h), brk, table)
    ensures PayloadsKept(words, Restrict(words, view'), DropLayout(l, h))
  {
    hide LayoutOk, HeapInv, WordsAre, ViewWithout, IsMeta, InPayload;
    var words', l' := Restrict(words, view'), DropLayout(l, h);
    forall w | IsMeta(l', w) && w in words
      ensures w in words' && words'[w] == words[w]
    {
      MattersBeside(l, brk, h, w);
      BesideStays(view, view', words, h, n, w);
    }
    MetaFrame(words, words', pools, l', brk, table);
    forall g, w | g in l'.live && InPayload(l', g, w) && w in words
      ensures w in words' && words'[w] == words[w]
    {
      SameAfterDrop(l, h, g, w);
      MattersBeside(l, brk, h, w);
      BesideStays(view, view', words, h, n, w);
    }
  }

  lemma SameAfterDrop(l: Layout, h: nat, g: nat, w: nat)
    requires g in DropLayout(l, h).live && InPayload(DropLayout(l, h), g, w)
    ensures g in l.live && g != h && InPayload(l, g, w)
  {
  }

  lemma EmptyHeap(words: Words, table: nat)
    ensures HeapInv(words, Pools([0, 0, 0, 0, 0, 0, 0], [0, 0, 0, 0, 0, 0, 0]),
                    Layout(map[], [[], [], [], [], [], [], []], map[]), KERNEL_HEAP_START, table)
  {
    hide BlockSize, PoolFor, UnitSize;
  }

  lemma BrkBasics(ram: Ram, nodes: Nodes, owner: Owners, brk: nat)
    requires HeapPages(ram, nodes, owner, brk)
    ensures brk % 4096 == 0 && KERNEL_HEAP_START <= brk <= KERNEL_STACKS_START
  {
  }
}
