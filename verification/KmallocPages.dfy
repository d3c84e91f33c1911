/** The pages under the kernel allocator's units: every unit, with its header, list
    node and payload, lies on pages that are pending or hold a frame of their own. */
module KmallocPages {
  import opened MemDef
  import opened PageTree
  import opened PageTable
  import opened HeapAlloc
  import opened KmallocHeap
  import opened KmallocSteps

  /** Every address of [a, a + size) is on a page that is pending or backed. */
  ghost predicate RangeBacked(ram: Ram, nodes: Nodes, owner: Owners, a: nat, size: nat) {
    forall va: nat :: a <= va < a + size ==> Backed(ram, nodes, owner, PathOf(va))
  }

  /** A run consists of whole pages, which it shares with no other unit; a block lies
      in one page. */
  ghost predicate RunsAligned(l: Layout) {
    && (forall h :: h in l.live && l.live[h].pool >= NUM_POOLS ==> h % 4096 == 0)
    && (forall a :: a in l.units && l.units[a] < 4096 ==> InOnePage(a, l.units[a]))
  }

  predicate InOnePage(a: nat, size: nat) {
    a % 4096 + size <= 4096
  }

  lemma BlockInPage(brk: nat, b: nat, s: nat)
    requires Aligned(brk) && brk <= b && b + s <= brk + 4096 && s > 0
    ensures InOnePage(b, s)
  {
    assert b % 4096 == b - brk;
  }

  lemma OnePage(a: nat, size: nat, w: nat)
    requires InOnePage(a, size) && a <= w < a + size
    ensures w / 4096 == a / 4096
  {
  }

  ghost predicate UnitsBacked(ram: Ram, nodes: Nodes, owner: Owners, l: Layout) {
    && (forall a :: a in l.units ==> RangeBacked(ram, nodes, owner, a, l.units[a]))
    && RunsAligned(l)
  }

  lemma KeptIsBacked(r0: Ram, n0: Nodes, o0: Owners, ram: Ram, nodes: Nodes, owner: Owners, q: Path)
    requires Backed(r0, n0, o0, q) && Kept(r0, n0, o0, ram, nodes, owner, q)
    ensures Backed(ram, nodes, owner, q)
  {
    hide Leaf, IsDemand, IsEntry;
  }

  lemma HeapAddress(va: nat)
    requires KERNEL_HEAP_START <= va < TWO_64
    ensures Canonical(va) && IsLeaf(PathOf(va))
  {
    HugeSlotIffLeaf(va);
  }

  /** A change of one page keeps the units backed if that page is backed afterwards,
      or lies outside the heap in use. */
  lemma UnitsKept(r0: Ram, n0: Nodes, o0: Owners, ram: Ram, nodes: Nodes, owner: Owners,
                  l: Layout, brk: nat, page: nat)
    requires LayoutOk(l, brk) && UnitsBacked(r0, n0, o0, l)
    requires Aligned(brk) && brk <= KERNEL_STACKS_START && Canonical(page)
    requires KeptBut(r0, n0, o0, ram, nodes, owner, PathOf(page))
    requires page >= brk || page < KERNEL_HEAP_START || Backed(ram, nodes, owner, PathOf(page))
    ensures UnitsBacked(ram, nodes, owner, l)
  {
    assert UnitsIn(l.units, brk);
    hide LayoutOk, Backed, Kept, PathOf, RunsAligned;
    forall a, va: nat | a in l.units && a <= va < a + l.units[a]
      ensures Backed(ram, nodes, owner, PathOf(va))
    {
      assert RangeBacked(r0, n0, o0, a, l.units[a]);
      HeapAddress(va);
      PathOfIff(va, page);
      if va / 4096 == page / 4096 {
        SamePage(va, page, brk);
        HeapPage(va, page);
      } else {
        KeptIsBacked(r0, n0, o0, ram, nodes, owner, PathOf(va));
      }
    }
  }

  lemma HeapPage(va: nat, page: nat)
    requires va >= KERNEL_HEAP_START && va / 4096 == page / 4096
    ensures page >= KERNEL_HEAP_START
  {
  }

  /** So does a change that leaves every page's entry alone. */
  lemma UnitsSame(ram: Ram, nodes: Nodes, owner: Owners, ram': Ram, l: Layout)
    requires UnitsBacked(ram, nodes, owner, l) && SameLeaves(ram, nodes, ram', nodes)
    ensures UnitsBacked(ram', nodes, owner, l)
  {
    hide Leaf, IsDemand, IsEntry, PathOf, RunsAligned;
    forall a, va: nat | a in l.units && a <= va < a + l.units[a]
      ensures Backed(ram', nodes, owner, PathOf(va))
    {
      assert RangeBacked(ram, nodes, owner, a, l.units[a]);
      HugeSlotIffLeaf(va);
      assert Backed(ram, nodes, owner, PathOf(va));
    }
  }

  /** A backed page makes a range inside it backed. */
  lemma PageBacked(ram: Ram, nodes: Nodes, owner: Owners, page: nat, a: nat, size: nat)
    requires Backed(ram, nodes, owner, PathOf(page)) && page % 4096 == 0
    requires KERNEL_HEAP_START <= page <= a && a + size <= page + 4096 <= TWO_64
    ensures RangeBacked(ram, nodes, owner, a, size)
  {
    hide Backed, PathOf;
    forall va: nat | a <= va < a + size
      ensures Backed(ram, nodes, owner, PathOf(va))
    {
      HeapAddress(va);
      HeapAddress(page);
      PathOfIff(va, page);
      SameNumber(va, page);
    }
  }

  lemma SameNumber(va: nat, page: nat)
    requires page % 4096 == 0 && page <= va < page + 4096
    ensures va / 4096 == page / 4096
  {
  }

  /** Bookkeeping that adds no run and keeps the units. */
  lemma SameUnits(ram: Ram, nodes: Nodes, owner: Owners, l: Layout, l': Layout)
    requires UnitsBacked(ram, nodes, owner, l) && l'.units == l.units
    requires forall h :: h in l'.live && l'.live[h].pool >= NUM_POOLS ==> h in l.live && l.live[h] == l'.live[h]
    ensures UnitsBacked(ram, nodes, owner, l')
  {
    hide RangeBacked;
  }

  lemma PopBacked(ram: Ram, nodes: Nodes, owner: Owners, l: Layout, i: nat, full: nat)
    requires UnitsBacked(ram, nodes, owner, l) && i < NUM_POOLS && i < |l.free| && l.free[i] != []
    ensures UnitsBacked(ram, nodes, owner, PopLayout(l, i, full))
  {
    hide UnitsBacked;
    SameUnits(ram, nodes, owner, l, PopLayout(l, i, full));
  }

  lemma PushBacked(ram: Ram, nodes: Nodes, owner: Owners, l: Layout, h: nat)
    requires UnitsBacked(ram, nodes, owner, l) && h in l.live && l.live[h].pool < |l.free|
    ensures UnitsBacked(ram, nodes, owner, PushLayout(l, h))
  {
    hide UnitsBacked;
    SameUnits(ram, nodes, owner, l, PushLayout(l, h));
  }

  /** A page carved into blocks: it was mapped as pending. */
  lemma CarveBacked(r0: Ram, n0: Nodes, o0: Owners, ram: Ram, nodes: Nodes, owner: Owners,
                    l: Layout, brk: nat, i: nat)
    requires LayoutOk(l, brk) && UnitsBacked(r0, n0, o0, l) && i < NUM_POOLS
    requires HeapPages(r0, n0, o0, brk) && brk < KERNEL_STACKS_START
    requires KeptBut(r0, n0, o0, ram, nodes, owner, PathOf(brk))
    requires PhysAddr(0) && IsEntry(nodes, PathOf(brk)) && Leaf(ram, nodes, PathOf(brk)) == RawEntry(0, HEAP_FLAGS)
    ensures |l.free| == NUM_POOLS && UnitsBacked(ram, nodes, owner, CarveLayout(l, i, brk))
  {
    assert Aligned(brk) && KERNEL_HEAP_START <= brk;
    assert FreeOk(l);
    hide HeapPages, Leaf, RawEntry, KeptBut, LayoutOk, BlockSize, BlocksPerPage, RangeBacked, IsEntry;
    PendingIsBacked(ram, nodes, owner, PathOf(brk));
    UnitsKept(r0, n0, o0, ram, nodes, owner, l, brk, brk);
    var s := BlockSize(i);
    BrkNumber(brk);
    BlocksSpread(brk, s, BlocksPerPage(i), brk + 4096);
    forall b | b in Blocks(brk, s, BlocksPerPage(i))
      ensures RangeBacked(ram, nodes, owner, b, s) && InOnePage(b, s)
    {
      PageBacked(ram, nodes, owner, brk, b, s);
      BlockInPage(brk, b, s);
    }
  }

  lemma BrkNumber(brk: nat)
    requires Aligned(brk)
    ensures brk % 32 == 0
  {
    Multiple32(brk, 128 * (brk / 4096));
  }

  /** A run of new pages. */
  lemma RunBacked(r0: Ram, n0: Nodes, o0: Owners, ram: Ram, nodes: Nodes, owner: Owners,
                  l: Layout, brk: nat, full: nat)
    requires LayoutOk(l, brk) && UnitsBacked(r0, n0, o0, l) && Aligned(brk) && KERNEL_HEAP_START <= brk
    requires PageAt(brk, RunPages(full)) <= KERNEL_STACKS_START && brk !in l.units
    requires NewPages(r0, n0, o0, ram, nodes, owner, brk, RunPages(full))
    requires HeapPages(ram, nodes, owner, PageAt(brk, RunPages(full)))
    ensures UnitsBacked(ram, nodes, owner, RunLayout(l, brk, full))
  {
    var n := RunPages(full);
    assert UnitsIn(l.units, brk);
    hide LayoutOk, Backed, Kept, PathOf, Leaf, RawEntry, HeapPages, RunPages, UnitsIn, RunsAligned;
    assert UnitsIn(l.units, brk);
    RunAligned(l, brk, full);
    forall a | a in l.units
      ensures RangeBacked(ram, nodes, owner, a, l.units[a])
    {
      OldUnitBacked(r0, n0, o0, ram, nodes, owner, l, brk, n, a);
    }
    forall va: nat | brk <= va < brk + 4096 * n
      ensures Backed(ram, nodes, owner, PathOf(va))
    {
      NewPageBacked(r0, n0, o0, ram, nodes, owner, brk, n, va);
    }
  }

  lemma RunAligned(l: Layout, brk: nat, full: nat)
    requires RunsAligned(l) && Aligned(brk)
    ensures RunsAligned(RunLayout(l, brk, full))
  {
    hide RunPages;
  }

  lemma OldUnitBacked(r0: Ram, n0: Nodes, o0: Owners, ram: Ram, nodes: Nodes, owner: Owners,
                      l: Layout, brk: nat, n: nat, a: nat)
    requires UnitsIn(l.units, brk) && UnitsBacked(r0, n0, o0, l) && a in l.units && Aligned(brk)
    requires PageAt(brk, n) <= KERNEL_STACKS_START && KERNEL_HEAP_START <= brk
    requires KeptButPages(r0, n0, o0, ram, nodes, owner, brk, n)
    ensures RangeBacked(ram, nodes, owner, a, l.units[a])
  {
    hide Backed, Kept, PathOf, RunsAligned;
    forall va: nat | a <= va < a + l.units[a]
      ensures Backed(ram, nodes, owner, PathOf(va))
    {
      assert RangeBacked(r0, n0, o0, a, l.units[a]);
      HeapAddress(va);
      forall i | 0 <= i < n
        ensures PathOf(va) != PathOf(PageAt(brk, i))
      {
        HeapAddress(PageAt(brk, i));
        PathOfIff(va, PageAt(brk, i));
        if va / 4096 == PageAt(brk, i) / 4096 {
          SamePage(va, PageAt(brk, i), brk);
        }
      }
      KeptIsBacked(r0, n0, o0, ram, nodes, owner, PathOf(va));
    }
  }

  lemma NewPageBacked(r0: Ram, n0: Nodes, o0: Owners, ram: Ram, nodes: Nodes, owner: Owners,
                      brk: nat, n: nat, va: nat)
    requires NewPages(r0, n0, o0, ram, nodes, owner, brk, n) && HeapPages(ram, nodes, owner, PageAt(brk, n))
    requires Aligned(brk) && KERNEL_HEAP_START <= brk <= va < brk + 4096 * n
    ensures Backed(ram, nodes, owner, PathOf(va))
  {
    var i := (va - brk) / 4096;
    assert Pageable(ram, nodes, owner, PathOf(va));
    assert KERNEL_HEAP_START <= va < PageAt(brk, n) <= KERNEL_STACKS_START;
    hide Leaf, RawEntry, HeapPages, PathOf, KeptButPages;
    assert PageAt(brk, i) <= va < PageAt(brk, i) + 4096 && i < n;
    HeapAddress(va);
    HeapAddress(PageAt(brk, i));
    PathOfIff(va, PageAt(brk, i));
    PageStart(brk, i);
    SameNumber(va, PageAt(brk, i));
    PendingIsBacked(ram, nodes, owner, PathOf(va));
  }

  lemma PageStart(brk: nat, i: nat)
    requires Aligned(brk)
    ensures PageAt(brk, i) % 4096 == 0
  {
  }

  /** Releasing a run's pages takes none from another unit. */
  lemma DropBacked(r0: Ram, ram: Ram, nodes: Nodes, o0: Owners, owner: Owners, l: Layout, brk: nat, h: nat, n: nat)
    requires LayoutOk(l, brk) && UnitsBacked(r0, nodes, o0, l) && brk <= KERNEL_STACKS_START
    requires h in l.live && l.live[h].pool >= NUM_POOLS && l.units[h] == 4096 * n
    requires KeptButPages(r0, nodes, o0, ram, nodes, owner, h, n)
    ensures UnitsBacked(ram, nodes, owner, DropLayout(l, h))
  {
    assert UnitsIn(l.units, brk) && LiveOk(l);
    hide LayoutOk, UnitsIn, LiveOk;
    forall a | a in l.units && a != h
      ensures RangeBacked(ram, nodes, owner, a, l.units[a])
    {
      ApartFromRun(l, brk, h, a);
      OtherUnitBacked(r0, ram, nodes, o0, owner, a, l.units[a], h, n);
    }
    hide RangeBacked;
  }

  lemma ApartFromRun(l: Layout, brk: nat, h: nat, a: nat)
    requires LayoutOk(l, brk) && h in l.live && a in l.units && a != h
    ensures h in l.units && h + l.units[h] <= brk
    ensures KERNEL_HEAP_START <= h && KERNEL_HEAP_START <= a && a + l.units[a] <= brk
    ensures a + l.units[a] <= h || h + l.units[h] <= a
  {
    hide FreeOk, Covered, UnitSize, PoolFor;
  }

  lemma OtherUnitBacked(r0: Ram, ram: Ram, nodes: Nodes, o0: Owners, owner: Owners, a: nat, size: nat, h: nat, n: nat)
    requires RangeBacked(r0, nodes, o0, a, size) && KeptButPages(r0, nodes, o0, ram, nodes, owner, h, n)
    requires h % 4096 == 0 && (a + size <= h || h + 4096 * n <= a)
    requires KERNEL_HEAP_START <= h && KERNEL_HEAP_START <= a
    requires h + 4096 * n <= KERNEL_STACKS_START && a + size <= KERNEL_STACKS_START
    ensures RangeBacked(ram, nodes, owner, a, size)
  {
    hide Backed, Kept, PathOf;
    forall va: nat | a <= va < a + size
      ensures Backed(ram, nodes, owner, PathOf(va))
    {
      HeapAddress(va);
      forall i | 0 <= i < n
        ensures PathOf(va) != PathOf(PageAt(h, i))
      {
        HeapAddress(PageAt(h, i));
        PathOfIff(va, PageAt(h, i));
        OutsideRun(h, n, i, va);
      }
      KeptIsBacked(r0, nodes, o0, ram, nodes, owner, PathOf(va));
    }
  }

  lemma OutsideRun(h: nat, n: nat, i: nat, va: nat)
    requires h % 4096 == 0 && i < n && (va < h || h + 4096 * n <= va)
    ensures va / 4096 != PageAt(h, i) / 4096
  {
  }
}
