/** The physical frame allocator (mem/pf_alloc.c): a bump pointer over a list of
    memory regions that jumps over two reserved ranges, in front of a free pool
    whose list nodes are written into the free frames themselves. */
module PfAlloc {
  import opened MemDef

  // ----- the memory map the boot loader reports -----

  datatype Region = Region(start: nat, end: nat)

  /** `regions` is the fixed array of 64 slots; only the first `num` are filled. */
  datatype MemMap = MemMap(kernel: Region, multiboot: Region, regions: seq<Region>, num: nat)

  /** The wrapping 64-bit comparison of the source. */
  predicate RangeContains(addr: nat, r: Region) {
    Sub64(addr, r.start) < Sub64(r.end, r.start)
  }

  /** The one-comparison range test is exact when the range is not inverted;
      on an inverted range it accepts everything outside [end, start). */
  lemma RangeContainsIff(addr: nat, r: Region)
    requires addr < TWO_64 && r.start < TWO_64 && r.end < TWO_64
    ensures r.start <= r.end ==> (RangeContains(addr, r) <==> r.start <= addr < r.end)
    ensures r.end < r.start ==> (RangeContains(addr, r) <==> r.start <= addr || addr < r.end)
  {
    assert addr >= r.start ==> Sub64(addr, r.start) == addr - r.start;
    assert addr < r.start ==> Sub64(addr, r.start) == addr - r.start + TWO_64;
    assert r.end >= r.start ==> Sub64(r.end, r.start) == r.end - r.start;
    assert r.end < r.start ==> Sub64(r.end, r.start) == r.end - r.start + TWO_64;
  }

  predicate InRange(addr: nat, r: Region) {
    r.start <= addr < r.end
  }

  /** A reserved range lies in physical memory, or is the "nothing parsed yet"
      range that parse_mmap_tag installs for the kernel. */
  predicate ReservedOk(r: Region) {
    r.start <= r.end <= PHYS_LIMIT || (r.start == TWO_64 - 1 && r.end == 0)
  }

  lemma ReservedIff(addr: nat, r: Region)
    requires addr < TWO_64 - 1 && ReservedOk(r)
    ensures RangeContains(addr, r) <==> InRange(addr, r)
  {
    RangeContainsIff(addr, r);
  }

  /** Sorted, disjoint regions of physical memory, each holding the start of at
      least one aligned frame. */
  ghost predicate MapOk(mm: MemMap) {
    && 0 < mm.num < |mm.regions| == 64
    && ReservedOk(mm.kernel) && ReservedOk(mm.multiboot)
    && (forall j :: 0 <= j < mm.num ==>
          mm.regions[j].start <= AlignPage(mm.regions[j].start) < mm.regions[j].end <= PHYS_LIMIT)
    && (forall j, k :: 0 <= j < k < mm.num ==> mm.regions[j].end <= mm.regions[k].start)
  }

  /** Frame f may be handed out: its first byte is in a region and in neither
      reserved range. */
  ghost predicate Usable(mm: MemMap, f: nat) {
    && f < FRAMES
    && (exists j :: 0 <= j < mm.num <= |mm.regions| && InRange(Addr(f), mm.regions[j]))
    && !InRange(Addr(f), mm.multiboot)
    && !InRange(Addr(f), mm.kernel)
  }

  /** The usable frames the bump pointer has passed, and those still ahead. */
  ghost function Passed(mm: MemMap, cur: nat): (s: set<nat>) {
    set f: nat | f < FRAMES && Usable(mm, f) && Addr(f) < cur
  }

  ghost function Ahead(mm: MemMap, cur: nat): (s: set<nat>) {
    set f: nat | f < FRAMES && Usable(mm, f) && cur <= Addr(f)
  }

  // ----- the bump pointer -----

  datatype BumpResult = Panic | Issue(page: nat, index: nat, current: nat)

  /** The region test at the top of each pass: stay in the region, or step to
      the first aligned address of the next one. */
  function Reach(mm: MemMap, index: nat, cur: nat): (r: (nat, nat))
    requires index <= mm.num < |mm.regions|
  {
    if index == mm.num || RangeContains(cur, mm.regions[index]) then (index, cur)
    else (index + 1, AlignPage(mm.regions[index + 1].start))
  }

  predicate BumpReady(mm: MemMap, index: nat, cur: nat) {
    && ReservedOk(mm.kernel) && ReservedOk(mm.multiboot)
    && index <= mm.num < |mm.regions| && Aligned(cur) && cur < TWO_64
  }

  /** One allocation from the regions: a pass over the checks, starting with the
      region check ... */
  function Bump(mm: MemMap, index: nat, cur: nat): (r: BumpResult)
    requires BumpReady(mm, index, cur)
    ensures r.Issue? ==> index <= r.index <= mm.num && r.current == r.page + PAGE_SIZE
    decreases mm.num - index, TWO_64 - cur, 1
  {
    if index == mm.num && !RangeContains(cur, mm.regions[index]) then Panic
    else
      var (i, c) := Reach(mm, index, cur);
      AlignBasics(mm.regions[i].start);
      Settle(mm, i, c)
  }

  /** ... and the two reserved ranges, each of which sends it back to the start. */
  function Settle(mm: MemMap, index: nat, cur: nat): (r: BumpResult)
    requires BumpReady(mm, index, cur)
    ensures r.Issue? ==> index <= r.index <= mm.num && r.current == r.page + PAGE_SIZE
    decreases mm.num - index, TWO_64 - cur, 0
  {
    if RangeContains(cur, mm.multiboot) then
      SkipBasics(cur, mm.multiboot);
      Bump(mm, index, AlignPage(mm.multiboot.end))
    else if RangeContains(cur, mm.kernel) then
      SkipBasics(cur, mm.kernel);
      Bump(mm, index, AlignPage(mm.kernel.end))
    else Issue(cur, index, cur + PAGE_SIZE)
  }

  lemma AlignBasics(addr: nat)
    ensures Aligned(AlignPage(addr)) && AlignPage(addr) < TWO_64
    ensures addr <= TWO_64 - PAGE_SIZE ==> addr <= AlignPage(addr) < addr + PAGE_SIZE
  {
  }

  lemma SkipBasics(cur: nat, r: Region)
    requires ReservedOk(r) && RangeContains(cur, r) && Aligned(cur) && cur < TWO_64
    ensures InRange(cur, r) && cur < r.end <= AlignPage(r.end) < TWO_64
    ensures Aligned(AlignPage(r.end))
  {
    assert cur < TWO_64 - 1;
    ReservedIff(cur, r);
    AlignBasics(r.end);
  }

  /** Where the bump pointer may stand: at or past the start of its region, with
      every usable frame behind it inside the regions visited so far. */
  ghost predicate BumpInv(mm: MemMap, index: nat, cur: nat) {
    && index < mm.num <= |mm.regions|
    && Aligned(cur)
    && mm.regions[index].start <= cur < TWO_64 - PAGE_SIZE
    && (forall f :: Usable(mm, f) && Addr(f) < cur ==> Addr(f) < mm.regions[index].end)
  }

  lemma InvReady(mm: MemMap, index: nat, cur: nat)
    requires MapOk(mm) && BumpInv(mm, index, cur)
    ensures BumpReady(mm, index, cur)
  {
  }

  lemma UsableRegion(mm: MemMap, f: nat) returns (j: nat)
    requires MapOk(mm) && Usable(mm, f)
    ensures j < mm.num && InRange(Addr(f), mm.regions[j])
  {
    j :| 0 <= j < mm.num <= |mm.regions| && InRange(Addr(f), mm.regions[j]);
  }

  /** With a usable frame ahead and the region used up, another region follows. */
  lemma RegionFollows(mm: MemMap, index: nat, cur: nat, w: nat)
    requires MapOk(mm) && BumpInv(mm, index, cur)
    requires Usable(mm, w) && cur <= Addr(w)
    ensures RangeContains(cur, mm.regions[index]) || index + 1 < mm.num
  {
    RangeContainsIff(cur, mm.regions[index]);
    var j := UsableRegion(mm, w);
  }

  /** Stepping to the next listed region neither loses nor repeats a usable frame. */
  lemma ReachKeeps(mm: MemMap, index: nat, cur: nat)
    requires MapOk(mm) && BumpInv(mm, index, cur)
    requires RangeContains(cur, mm.regions[index]) || index + 1 < mm.num
    ensures var (i, c) := Reach(mm, index, cur);
      && BumpInv(mm, i, c) && InRange(c, mm.regions[i])
      && (forall f :: Usable(mm, f) ==> (cur <= Addr(f) <==> c <= Addr(f)))
  {
    var r := mm.regions[index];
    RangeContainsIff(cur, r);
    if !RangeContains(cur, r) {
      var c := AlignPage(mm.regions[index + 1].start);
      AlignBasics(mm.regions[index + 1].start);
      hide AlignPage, RangeContains, Usable;
      forall f | Usable(mm, f)
        ensures cur <= Addr(f) <==> c <= Addr(f)
        ensures Addr(f) < c ==> Addr(f) < mm.regions[index + 1].end
      {
        NextRegion(mm, index, cur, f);
      }
    }
  }

  /** A usable frame is behind a pointer at the end of a region just when it is
      behind the first aligned address of the next. */
  lemma NextRegion(mm: MemMap, index: nat, cur: nat, f: nat)
    requires MapOk(mm) && BumpInv(mm, index, cur) && index + 1 < mm.num
    requires mm.regions[index].end <= cur && Usable(mm, f)
    ensures var c := AlignPage(mm.regions[index + 1].start);
      && (cur <= Addr(f) <==> c <= Addr(f))
      && (Addr(f) < c ==> Addr(f) < mm.regions[index + 1].end)
  {
    var c := AlignPage(mm.regions[index + 1].start);
    AlignBasics(mm.regions[index + 1].start);
    var k := UsableRegion(mm, f);
    hide AlignPage, Usable;
    if cur <= Addr(f) {
      assert index < k;
      assert mm.regions[index + 1].start <= Addr(f);
    } else {
      assert Addr(f) < mm.regions[index].end;
    }
  }

  /** Jumping to the end of a reserved range skips no usable frame. */
  lemma SkipKeeps(mm: MemMap, index: nat, cur: nat, r: Region)
    requires MapOk(mm) && BumpInv(mm, index, cur)
    requires r == mm.multiboot || r == mm.kernel
    requires RangeContains(cur, r)
    ensures AlignPage(r.end) < TWO_64
    ensures BumpInv(mm, index, AlignPage(r.end))
    ensures forall f :: Usable(mm, f) ==> (cur <= Addr(f) <==> AlignPage(r.end) <= Addr(f))
  {
    hide AlignPage, RangeContains;
    SkipBasics(cur, r);
    AlignBasics(r.end);
    var c := AlignPage(r.end);
    forall f | Usable(mm, f)
      ensures cur <= Addr(f) <==> c <= Addr(f)
    {
      if cur <= Addr(f) {
        assert !InRange(Addr(f), r);
      }
    }
  }

  /** What one bump allocation must deliver: the least usable frame at or ahead
      of the bump pointer, leaving the pointer just behind it. */
  ghost predicate LeastUsable(mm: MemMap, cur: nat, r: BumpResult) {
    && r.Issue?
    && Aligned(r.page)
    && Usable(mm, FrameOf(r.page))
    && cur <= r.page
    && (forall f :: Usable(mm, f) && cur <= Addr(f) ==> r.page <= Addr(f))
    && BumpInv(mm, r.index, r.current)
    && r.current == r.page + PAGE_SIZE
  }

  /** While a usable frame remains, the allocator issues the least one. */
  lemma {:induction false} BumpIssuesLeast(mm: MemMap, index: nat, cur: nat, w: nat)
    requires MapOk(mm) && BumpInv(mm, index, cur)
    requires Usable(mm, w) && cur <= Addr(w)
    ensures LeastUsable(mm, cur, Bump(mm, index, cur))
    decreases mm.num - index, TWO_64 - cur, 1
  {
    var (i, c) := Reach(mm, index, cur);
    RegionFollows(mm, index, cur, w);
    ReachKeeps(mm, index, cur);
    SettleIssuesLeast(mm, i, c, w);
  }

  lemma {:induction false} SettleIssuesLeast(mm: MemMap, index: nat, cur: nat, w: nat)
    requires MapOk(mm) && BumpInv(mm, index, cur) && InRange(cur, mm.regions[index])
    requires Usable(mm, w) && cur <= Addr(w)
    ensures LeastUsable(mm, cur, Settle(mm, index, cur))
    decreases mm.num - index, TWO_64 - cur, 0
  {
    if RangeContains(cur, mm.multiboot) {
      SkipBasics(cur, mm.multiboot);
      SkipKeeps(mm, index, cur, mm.multiboot);
      BumpIssuesLeast(mm, index, AlignPage(mm.multiboot.end), w);
    } else if RangeContains(cur, mm.kernel) {
      SkipBasics(cur, mm.kernel);
      SkipKeeps(mm, index, cur, mm.kernel);
      BumpIssuesLeast(mm, index, AlignPage(mm.kernel.end), w);
    } else {
      IssueIsLeast(mm, index, cur, w);
    }
  }

  /** An aligned address in a region and outside both reserved ranges. */
  lemma ClearIsUsable(mm: MemMap, i: nat, c: nat)
    requires MapOk(mm) && BumpInv(mm, i, c) && InRange(c, mm.regions[i])
    requires !RangeContains(c, mm.multiboot) && !RangeContains(c, mm.kernel)
    ensures Addr(FrameOf(c)) == c
    ensures FrameOf(c) in Ahead(mm, c)
  {
    ReservedIff(c, mm.multiboot);
    ReservedIff(c, mm.kernel);
    assert mm.regions[i].end <= PHYS_LIMIT;
    assert Usable(mm, FrameOf(c));
  }

  lemma IssueIsLeast(mm: MemMap, i: nat, c: nat, w: nat)
    requires MapOk(mm) && BumpInv(mm, i, c) && InRange(c, mm.regions[i])
    requires !RangeContains(c, mm.multiboot) && !RangeContains(c, mm.kernel)
    requires Usable(mm, w) && c <= Addr(w)
    ensures LeastUsable(mm, c, Issue(c, i, c + PAGE_SIZE))
  {
    ClearIsUsable(mm, i, c);
    hide AlignPage, RangeContains, ReservedOk;
    var f := FrameOf(c);
    assert c + PAGE_SIZE < TWO_64 - PAGE_SIZE by { assert c < mm.regions[i].end <= PHYS_LIMIT; }
    forall g: nat | Usable(mm, g) && Addr(g) < c + PAGE_SIZE
      ensures Addr(g) < mm.regions[i].end
    {
      assert g <= f;
    }
  }

  /** The initial pointer is valid and has passed nothing. */
  lemma InitInv(mm: MemMap)
    requires MapOk(mm)
    ensures BumpInv(mm, 0, AlignPage(mm.regions[0].start))
    ensures Passed(mm, AlignPage(mm.regions[0].start)) == {}
  {
    AlignBasics(mm.regions[0].start);
    forall f | Usable(mm, f)
      ensures AlignPage(mm.regions[0].start) <= Addr(f)
    {
      var j := UsableRegion(mm, f);
      assert mm.regions[0].start <= Addr(f);
    }
  }

  /** Exhaustion: the index test comes before the increment and is not repeated,
      so an allocation stays inside the list of regions exactly when a usable
      frame was left. Otherwise it panics or takes a frame from the slot past
      the list. */
  lemma {:induction false} BumpStaysInListIff(mm: MemMap, index: nat, cur: nat)
    requires MapOk(mm) && BumpInv(mm, index, cur)
    ensures var r := Bump(mm, index, cur);
      (r.Issue? && r.index < mm.num) <==> Ahead(mm, cur) != {}
    decreases mm.num - index, TWO_64 - cur, 1
  {
    if f :| f in Ahead(mm, cur) {
      BumpIssuesLeast(mm, index, cur, f);
    } else {
      var (i, c) := Reach(mm, index, cur);
      if i < mm.num {
        ReachKeeps(mm, index, cur);
        SameAhead(mm, cur, c);
        NoneAheadLeavesList(mm, i, c);
      } else {
        AlignBasics(mm.regions[i].start);
        SettlePastTheList(mm, c);
      }
    }
  }

  lemma {:induction false} NoneAheadLeavesList(mm: MemMap, index: nat, cur: nat)
    requires MapOk(mm) && BumpInv(mm, index, cur) && InRange(cur, mm.regions[index])
    requires Ahead(mm, cur) == {}
    ensures var r := Settle(mm, index, cur); r.Panic? || r.index == mm.num
    decreases mm.num - index, TWO_64 - cur, 0
  {
    if RangeContains(cur, mm.multiboot) {
      SkipBasics(cur, mm.multiboot);
      SkipKeeps(mm, index, cur, mm.multiboot);
      SameAhead(mm, cur, AlignPage(mm.multiboot.end));
      BumpStaysInListIff(mm, index, AlignPage(mm.multiboot.end));
    } else if RangeContains(cur, mm.kernel) {
      SkipBasics(cur, mm.kernel);
      SkipKeeps(mm, index, cur, mm.kernel);
      SameAhead(mm, cur, AlignPage(mm.kernel.end));
      BumpStaysInListIff(mm, index, AlignPage(mm.kernel.end));
    } else {
      ClearIsUsable(mm, index, cur);
    }
  }

  lemma SameAhead(mm: MemMap, a: nat, b: nat)
    requires forall f :: Usable(mm, f) ==> (a <= Addr(f) <==> b <= Addr(f))
    ensures Ahead(mm, a) == Ahead(mm, b)
  {
  }

  /** Once the index is past the list it never comes back. */
  lemma {:induction false} SettlePastTheList(mm: MemMap, cur: nat)
    requires ReservedOk(mm.kernel) && ReservedOk(mm.multiboot)
    requires mm.num < |mm.regions| && Aligned(cur) && cur < TWO_64
    ensures var r := Settle(mm, mm.num, cur); r.Panic? || r.index == mm.num
    decreases TWO_64 - cur
  {
    if RangeContains(cur, mm.multiboot) {
      SkipBasics(cur, mm.multiboot);
      SettlePastTheList(mm, AlignPage(mm.multiboot.end));
    } else if RangeContains(cur, mm.kernel) {
      SkipBasics(cur, mm.kernel);
      SettlePastTheList(mm, AlignPage(mm.kernel.end));
    }
  }

  /** A machine with one frame of memory. */
  function OneFrame(): (mm: MemMap) {
    MemMap(Region(0x8000, 0x9000), Region(0xa000, 0xb000),
           [Region(0x1000, 0x2000)] + seq(63, _ => Region(0, 0)), 1)
  }

  /** Its second allocation neither panics nor stays in memory: it returns
      address 0, which lies in no region. */
  lemma ExhaustionIssuesForeignFrame()
    ensures MapOk(OneFrame())
    ensures Bump(OneFrame(), 0, 0x1000) == Issue(0x1000, 0, 0x2000)
    ensures Bump(OneFrame(), 0, 0x2000) == Issue(0, 1, 0x1000)
    ensures !Usable(OneFrame(), 0)
  {
    var mm := OneFrame();
    OneFrameOk();
    assert mm.regions[0] == Region(0x1000, 0x2000) && mm.regions[1] == Region(0, 0);
    RangeContainsIff(0x1000, mm.regions[0]);
    RangeContainsIff(0x2000, mm.regions[0]);
    RangeContainsIff(0x1000, mm.multiboot);
    RangeContainsIff(0x1000, mm.kernel);
    RangeContainsIff(0, mm.multiboot);
    RangeContainsIff(0, mm.kernel);
    hide RangeContains, MapOk, Usable, AlignPage;
    assert Bump(mm, 0, 0x1000) == Settle(mm, 0, 0x1000);
    assert Bump(mm, 0, 0x2000) == Settle(mm, 1, 0);
  }

  lemma OneFrameOk()
    ensures MapOk(OneFrame()) && !Usable(OneFrame(), 0)
    ensures AlignPage(0x1000) == 0x1000 && AlignPage(0) == 0
  {
    var mm := OneFrame();
    assert mm.regions[0] == Region(0x1000, 0x2000);
    assert AlignPage(0x1000) == 0x1000 && AlignPage(0) == 0;
  }

  // ----- the free pool -----

  /** `pool` is the list of frames reached from `head` by following the pointers
      stored in the first word of each free frame. */
  ghost predicate FreeList(ram: Ram, head: nat, pool: seq<nat>)
    decreases |pool|
  {
    if pool == [] then head == 0
    else
      && pool[0] < FRAMES && pool[0] in ram
      && head == Virt(Addr(pool[0]))
      && FreeList(ram, Pack(ram[pool[0]][0]), pool[1..])
  }

  /** The list depends only on the frames it runs through. */
  lemma {:induction false} FreeListFrame(ram: Ram, ram': Ram, head: nat, pool: seq<nat>)
    requires FreeList(ram, head, pool)
    requires forall f :: f in pool ==> f in ram && f in ram' && ram'[f] == ram[f]
    ensures FreeList(ram', head, pool)
    decreases |pool|
  {
    if pool != [] {
      assert pool[0] in pool;
      FreeListFrame(ram, ram', Pack(ram[pool[0]][0]), pool[1..]);
    }
  }

  lemma {:induction false} FreeListInRam(ram: Ram, head: nat, pool: seq<nat>)
    requires FreeList(ram, head, pool)
    ensures forall f :: f in pool ==> f in ram && f < FRAMES
    decreases |pool|
  {
    if pool != [] {
      assert forall f :: f in pool ==> f == pool[0] || f in pool[1..];
      FreeListInRam(ram, Pack(ram[pool[0]][0]), pool[1..]);
    }
  }

  /** Writing the old head into the first word of a frame off the list and making
      it the new head prepends the frame. */
  lemma FreeListPush(ram: Ram, head: word, pool: seq<nat>, f: nat)
    requires FreeList(ram, head, pool)
    requires f < FRAMES && f in ram && f !in pool
    ensures FreeList(ram[f := ram[f][0 := Unpack(head)]], Virt(Addr(f)), [f] + pool)
  {
    var ram' := ram[f := ram[f][0 := Unpack(head)]];
    FreeListInRam(ram, head, pool);
    FreeListFrame(ram, ram', head, pool);
    PackUnpack(head);
    assert ([f] + pool)[1..] == pool;
  }

  /** Every usable frame behind the bump pointer is in the pool, once, or out,
      and nothing else is. */
  ghost predicate Accounts(mm: MemMap, cur: nat, pool: seq<nat>, out: set<nat>) {
    && NoDup(pool)
    && (forall f :: f in pool ==> f !in out)
    && (forall f :: f in out || f in pool <==> f in Passed(mm, cur))
  }

  lemma AccountsPop(mm: MemMap, cur: nat, pool: seq<nat>, out: set<nat>)
    requires Accounts(mm, cur, pool, out) && pool != []
    ensures Accounts(mm, cur, pool[1..], out + {pool[0]})
    ensures pool[0] !in out && pool[0] < FRAMES && Usable(mm, pool[0])
  {
    assert pool[0] in pool;
    assert forall f :: f in pool <==> f == pool[0] || f in pool[1..];
  }

  lemma AccountsPush(mm: MemMap, cur: nat, pool: seq<nat>, out: set<nat>, f: nat)
    requires Accounts(mm, cur, pool, out) && f in out
    ensures Accounts(mm, cur, [f] + pool, out - {f})
    ensures f < FRAMES && f !in pool
  {
    assert f in Passed(mm, cur);
    assert forall g :: g in [f] + pool <==> g == f || g in pool;
  }

  lemma AccountsIssue(mm: MemMap, cur: nat, out: set<nat>, f: nat)
    requires Accounts(mm, cur, [], out) && f in Ahead(mm, cur)
    requires forall g :: Usable(mm, g) && cur <= Addr(g) ==> f <= g
    ensures Accounts(mm, Addr(f) + PAGE_SIZE, [], out + {f})
    ensures |Ahead(mm, Addr(f) + PAGE_SIZE)| == |Ahead(mm, cur)| - 1
    ensures f !in out && f < FRAMES && Usable(mm, f)
  {
    IssueAccounting(mm, cur, f);
  }

  /** Issuing the least frame ahead moves exactly that frame behind the pointer. */
  lemma IssueAccounting(mm: MemMap, cur: nat, f: nat)
    requires f in Ahead(mm, cur)
    requires forall g :: Usable(mm, g) && cur <= Addr(g) ==> f <= g
    ensures Passed(mm, Addr(f) + PAGE_SIZE) == Passed(mm, cur) + {f}
    ensures Ahead(mm, Addr(f) + PAGE_SIZE) == Ahead(mm, cur) - {f}
    ensures |Ahead(mm, Addr(f) + PAGE_SIZE)| == |Ahead(mm, cur)| - 1
  {
    hide Usable;
  }

  /** Physical memory as a mutable object. */
  class PhysMem {
    var ram: Ram

    constructor (ram: Ram)
      ensures this.ram == ram
    {
      this.ram := ram;
    }
  }

  /** The allocator's static state. `pool` and `out` account for every usable
      frame behind the bump pointer: it is either in the free pool or out. */
  class FrameAllocator {
    const mem: PhysMem
    const mmap: MemMap
    var freePool: word
    var currentPage: nat
    var regionIndex: nat

    ghost var pool: seq<nat>
    ghost var out: set<nat>

    ghost predicate Valid()
      reads this, mem
    {
      && MapOk(mmap)
      && BumpInv(mmap, regionIndex, currentPage)
      && Complete(mem.ram)
      && FreeList(mem.ram, freePool, pool)
      && Accounts(mmap, currentPage, pool, out)
    }

    /** How many more frames can be handed out. */
    ghost function Available(): (n: nat)
      reads this
    {
      |pool| + |Ahead(mmap, currentPage)|
    }

    constructor (mem: PhysMem, mmap: MemMap)
      requires MapOk(mmap) && Complete(mem.ram)
      ensures Valid() && this.mem == mem && this.mmap == mmap
      ensures pool == [] && out == {}
    {
      this.mem := mem;
      this.mmap := mmap;
      currentPage := AlignPage(mmap.regions[0].start);
      freePool := 0;
      regionIndex := 0;
      pool := [];
      out := {};
      InitInv(mmap);
    }

    method PushFreePf(pf: nat)
      requires Valid()
      requires Aligned(pf) && FrameOf(pf) in out
      modifies this`freePool, this`pool, this`out, mem
      ensures Valid()
      ensures pool == [FrameOf(pf)] + old(pool) && out == old(out) - {FrameOf(pf)}
      ensures forall f :: f in old(mem.ram) && f != FrameOf(pf) ==>
                            f in mem.ram && mem.ram[f] == old(mem.ram[f])
    {
      hide Accounts, MapOk, BumpInv;
      ghost var f := FrameOf(pf);
      AccountsPush(mmap, currentPage, pool, out, f);
      FreeListPush(mem.ram, freePool, pool, f);
      // node->next := the old head, whether or not that is NULL
      mem.ram := mem.ram[FrameOf(pf) := mem.ram[FrameOf(pf)][0 := Unpack(freePool)]];
      freePool := Virt(pf);
      pool := [f] + pool;
      out := out - {f};
    }

    method PopFreePf() returns (present: bool, addr: nat)
      requires Valid()
      modifies this`freePool, this`pool, this`out
      ensures Valid()
      ensures present <==> old(pool) != []
      ensures present ==> addr == Addr(old(pool)[0]) && pool == old(pool)[1..]
                          && out == old(out) + {old(pool)[0]}
      ensures !present ==> pool == old(pool) && out == old(out)
    {
      hide Accounts, MapOk, BumpInv;
      if freePool == 0 {
        return false, 0;
      }
      addr := freePool - KERNEL_MMAP_START;
      present := true;
      AccountsPop(mmap, currentPage, pool, out);
      freePool := Pack(mem.ram[FrameOf(addr)][0]);
      out := out + {pool[0]};
      pool := pool[1..];
    }

    /** MMU_pf_alloc. The frame comes from the pool if there is one there, and
        otherwise is the least usable frame never issued before. */
    method PfAlloc() returns (page: nat)
      requires Valid() && Available() > 0
      modifies this
      ensures Valid()
      ensures Aligned(page) && FrameOf(page) !in old(out)
      ensures out == old(out) + {FrameOf(page)}
      ensures FrameOf(page) < FRAMES && Usable(mmap, FrameOf(page))
      ensures Available() == old(Available()) - 1
      ensures old(pool) != [] ==>
                && FrameOf(page) == old(pool)[0] && pool == old(pool)[1..]
                && currentPage == old(currentPage)
      ensures old(pool) == [] ==>
                && pool == [] && FrameOf(page) in Ahead(mmap, old(currentPage))
                && (forall f :: f in Ahead(mmap, old(currentPage)) ==> FrameOf(page) <= f)
    {
      hide Accounts, MapOk, BumpInv, Usable;
      var present, addr := PopFreePf();
      if present {
        AccountsPop(mmap, currentPage, old(pool), old(out));
        return addr;
      }
      ghost var w :| w in Ahead(mmap, currentPage);
      BumpIssuesLeast(mmap, regionIndex, currentPage, w);
      InvReady(mmap, regionIndex, currentPage);
      page := BumpFromRegions();
      ghost var f := FrameOf(page);
      AccountsIssue(mmap, old(currentPage), out, f);
      out := out + {f};
    }

    /** The rest of MMU_pf_alloc, from the label its two gotos return to. */
    method BumpFromRegions() returns (page: nat)
      requires BumpReady(mmap, regionIndex, currentPage)
      requires Bump(mmap, regionIndex, currentPage).Issue?
      modifies this`currentPage, this`regionIndex
      ensures Issue(page, regionIndex, currentPage) == Bump(mmap, old(regionIndex), old(currentPage))
    {
      hide AlignPage, RangeContains, ReservedOk;
      ghost var goal := Bump(mmap, regionIndex, currentPage);
      while true
        invariant BumpReady(mmap, regionIndex, currentPage)
        invariant Bump(mmap, regionIndex, currentPage) == goal
        decreases mmap.num - regionIndex, TWO_64 - currentPage
      {
        if !RangeContains(currentPage, mmap.regions[regionIndex]) {
          // the index is inside the list here: otherwise this is the panic
          AlignBasics(mmap.regions[regionIndex + 1].start);
          regionIndex := regionIndex + 1;
          currentPage := AlignPage(mmap.regions[regionIndex].start);
        }
        assert Settle(mmap, regionIndex, currentPage) == goal;
        if RangeContains(currentPage, mmap.multiboot) {
          SkipBasics(currentPage, mmap.multiboot);
          currentPage := AlignPage(mmap.multiboot.end);
          continue;
        }
        if RangeContains(currentPage, mmap.kernel) {
          SkipBasics(currentPage, mmap.kernel);
          currentPage := AlignPage(mmap.kernel.end);
          continue;
        }
        page := currentPage;
        currentPage := currentPage + PAGE_SIZE;
        return;
      }
    }

    /** MMU_pf_free. */
    method PfFree(pf: nat)
      requires Valid()
      requires FrameOf(pf) in out
      modifies this`freePool, this`pool, this`out, mem
      ensures Valid()
      ensures pool == [FrameOf(pf)] + old(pool) && out == old(out) - {FrameOf(pf)}
      ensures Available() == old(Available()) + 1
      ensures forall f :: f in old(mem.ram) && f != FrameOf(pf) ==>
                            f in mem.ram && mem.ram[f] == old(mem.ram[f])
    {
      PushFreePf(pf - pf % 4096);
    }
  }
}
