/** Page-granular kernel heap (mem/heap_alloc.c): a break that only grows. Pages
    are mapped as pending and get a frame when first touched. */
module HeapAlloc {
  import opened MemDef
  import opened PfAlloc
  import opened PageTree
  import opened PageTable

  const HEAP_FLAGS: Flags := Flags(false, true, false, true, true)

  /** The index a path starts with. */
  function TopIndex(p: Path): (i: nat) {
    match p
    case Root => 0
    case At(Root, i) => i
    case At(up, _) => TopIndex(up)
  }

  /** The heap fills PML4[257] to PML4[510]; thread stacks start at PML4[511]. */
  predicate HeapPath(p: Path) {
    257 <= TopIndex(p) < 511
  }

  predicate InHeap(va: nat) {
    KERNEL_HEAP_START <= va < KERNEL_STACKS_START
  }

  lemma HeapPathIff(va: nat)
    requires KERNEL_MMAP_START <= va < TWO_64
    ensures HeapPath(PathOf(va)) <==> InHeap(va)
    ensures TopIndex(PathOf(va)) == 511 <==> va >= KERNEL_STACKS_START
  {
    var p := PathOf(va);
    assert TopIndex(p) == TopIndex(p.up.up) == p.up.up.up.i;
    var pointers := va / 4096 / 512 / 512 / 512;
    assert pointers == va / 0x80_0000_0000;
    assert 0x1ff_ff00 <= pointers < 0x200_0000;
    assert pointers % 512 == pointers - 0x1ff_fe00;
  }

  /** Pending, or holding a demand frame; for the kernel to read and write, and not
      to execute. */
  ghost predicate Backed(ram: Ram, nodes: Nodes, owner: Owners, p: Path) {
    && IsEntry(nodes, p)
    && KernelData(Leaf(ram, nodes, p))
    && var e := Leaf(ram, nodes, p);
       if e.present then IsDemand(owner, p) else e.alloc
  }

  predicate KernelData(e: Pte) {
    e.writable && !e.user && e.noExecute
  }

  lemma PendingIsBacked(ram: Ram, nodes: Nodes, owner: Owners, p: Path)
    requires PhysAddr(0) && IsEntry(nodes, p) && Leaf(ram, nodes, p) == RawEntry(0, HEAP_FLAGS)
    ensures Backed(ram, nodes, owner, p)
  {
    RawEntryFields(0, HEAP_FLAGS);
    hide RawEntry;
  }

  /** The page below p can be looked up, has the rights of kernel data, and holds a
      frame only as a demand page. */
  ghost predicate Pageable(ram: Ram, nodes: Nodes, owner: Owners, p: Path) {
    && IsEntry(nodes, p)
    && KernelData(Leaf(ram, nodes, p))
    && (Leaf(ram, nodes, p).present ==> IsDemand(owner, p))
  }

  ghost predicate HeapPages(ram: Ram, nodes: Nodes, owner: Owners, brk: nat) {
    && Aligned(brk) && KERNEL_HEAP_START <= brk <= KERNEL_STACKS_START
    && (forall va :: KERNEL_HEAP_START <= va < brk ==> Pageable(ram, nodes, owner, PathOf(va)))
    && (forall va :: brk <= va < KERNEL_STACKS_START ==> !IsDemand(owner, PathOf(va)))
  }

  /** Outside the heap nothing changes. */
  ghost predicate KeptOutside(ram: Ram, nodes: Nodes, owner: Owners, ram': Ram, nodes': Nodes, owner': Owners) {
    forall q :: IsLeaf(q) && !HeapPath(q) ==> Kept(ram, nodes, owner, ram', nodes', owner', q)
  }

  lemma KeptOutsideRefl(r: Ram, n: Nodes, o: Owners)
    ensures KeptOutside(r, n, o, r, n, o)
  {
  }

  /** A change confined to one heap page leaves the outside alone. */
  lemma HeapChangeOutside(ram: Ram, nodes: Nodes, owner: Owners, ram': Ram, nodes': Nodes, owner': Owners, va: nat)
    requires InHeap(va)
    requires KeptBut(ram, nodes, owner, ram', nodes', owner', PathOf(va))
    ensures KeptOutside(ram, nodes, owner, ram', nodes', owner')
  {
    HeapPathIff(va);
    hide Kept, PathOf;
  }

  /** A change confined to one page keeps the heap's pages in order if that page
      is itself in order afterwards, and not a demand page beyond the break. */
  lemma HeapPagesStep(ram: Ram, nodes: Nodes, owner: Owners, ram': Ram, nodes': Nodes, owner': Owners,
                      brk: nat, page: nat)
    requires HeapPages(ram, nodes, owner, brk)
    requires KeptBut(ram, nodes, owner, ram', nodes', owner', PathOf(page))
    requires Pageable(ram', nodes', owner', PathOf(page))
    requires brk <= page < KERNEL_STACKS_START ==> !IsDemand(owner', PathOf(page))
    requires Canonical(page)
    ensures HeapPages(ram', nodes', owner', brk)
  {
    hide Leaf, IsEntry, IsDemand, PathOf;
    forall va: nat | InHeap(va)
      ensures va < brk ==> Pageable(ram', nodes', owner', PathOf(va))
      ensures brk <= va ==> !IsDemand(owner', PathOf(va))
    {
      HugeSlotIffLeaf(va);
      PathOfIff(va, page);
      if PathOf(va) != PathOf(page) {
        assert Kept(ram, nodes, owner, ram', nodes', owner', PathOf(va));
      } else {
        SamePage(va, page, brk);
      }
    }
  }

  lemma SamePage(va: nat, page: nat, brk: nat)
    requires va / 4096 == page / 4096 && Aligned(brk)
    ensures va < brk <==> page < brk
  {
  }

  /** Raising the break over a page that is in order. */
  lemma HeapPagesGrow(ram: Ram, nodes: Nodes, owner: Owners, brk: nat)
    requires HeapPages(ram, nodes, owner, brk) && brk + PAGE_SIZE <= KERNEL_STACKS_START
    requires Pageable(ram, nodes, owner, PathOf(brk))
    ensures HeapPages(ram, nodes, owner, brk + PAGE_SIZE)
  {
    hide Leaf, IsEntry, IsDemand, PathOf;
    forall va | brk <= va < brk + PAGE_SIZE
      ensures PathOf(va) == PathOf(brk)
    {
      assert va / 4096 == brk / 4096;
      PathOfIff(va, brk);
    }
  }

  ghost predicate Released(ram: Ram, nodes: Nodes, start: nat, num: nat) {
    forall i :: 0 <= i < num ==>
      var e := Leaf(ram, nodes, PathOf(PageAt(start, i))); !e.present && !e.alloc
  }

  ghost predicate KeptButPages(ram: Ram, nodes: Nodes, owner: Owners, ram': Ram, nodes': Nodes, owner': Owners,
                               start: nat, num: nat) {
    forall q :: IsLeaf(q) && (forall i :: 0 <= i < num ==> q != PathOf(PageAt(start, i))) ==>
      Kept(ram, nodes, owner, ram', nodes', owner', q)
  }

  /** The `num` pages from `start` on are pending; no other page has changed. */
  ghost predicate NewPages(r0: Ram, n0: Nodes, o0: Owners, ram: Ram, nodes: Nodes, owner: Owners,
                           start: nat, num: nat) {
    && PhysAddr(0)
    && (forall i :: 0 <= i < num ==> Leaf(ram, nodes, PathOf(PageAt(start, i))) == RawEntry(0, HEAP_FLAGS))
    && KeptButPages(r0, n0, o0, ram, nodes, owner, start, num)
  }

  lemma NoNewPages(ram: Ram, nodes: Nodes, owner: Owners, start: nat)
    requires HeapPages(ram, nodes, owner, start)
    ensures NewPages(ram, nodes, owner, ram, nodes, owner, start, 0)
    ensures Fitting(start, 0) == 0 && KERNEL_HEAP_START <= start
  {
  }

  lemma NewPagesStep(r0: Ram, n0: Nodes, o0: Owners, r1: Ram, n1: Nodes, o1: Owners,
                     ram: Ram, nodes: Nodes, owner: Owners, start: nat, k: nat)
    requires NewPages(r0, n0, o0, r1, n1, o1, start, k)
    requires KERNEL_HEAP_START <= start && PageAt(start, k) < KERNEL_STACKS_START
    requires KeptBut(r1, n1, o1, ram, nodes, owner, PathOf(PageAt(start, k)))
    requires PhysAddr(0) && Leaf(ram, nodes, PathOf(PageAt(start, k))) == RawEntry(0, HEAP_FLAGS)
    ensures NewPages(r0, n0, o0, ram, nodes, owner, start, k + 1)
  {
    hide Leaf, IsDemand, IsEntry, PathOf, RawEntry;
    forall i | 0 <= i < k
      ensures Leaf(ram, nodes, PathOf(PageAt(start, i))) == RawEntry(0, HEAP_FLAGS)
    {
      PathOfIff(PageAt(start, i), PageAt(start, k));
      HugeSlotIffLeaf(PageAt(start, i));
      assert Kept(r1, n1, o1, ram, nodes, owner, PathOf(PageAt(start, i)));
    }
    forall q | IsLeaf(q) && (forall i :: 0 <= i < k + 1 ==> q != PathOf(PageAt(start, i)))
      ensures Kept(r0, n0, o0, ram, nodes, owner, q)
    {
      assert Kept(r0, n0, o0, r1, n1, o1, q);
      assert Kept(r1, n1, o1, ram, nodes, owner, q);
    }
  }

  /** New heap pages are no change outside the heap. */
  lemma NewPagesOutside(r0: Ram, n0: Nodes, o0: Owners, ram: Ram, nodes: Nodes, owner: Owners, brk: nat, num: nat)
    requires HeapPages(r0, n0, o0, brk)
    requires NewPages(r0, n0, o0, ram, nodes, owner, brk, num) && PageAt(brk, num) <= KERNEL_STACKS_START
    ensures KeptOutside(r0, n0, o0, ram, nodes, owner)
  {
    HeapPagesOutside(r0, n0, o0, ram, nodes, owner, brk, num);
  }

  /** How many of `num` pages the heap region still has room for. */
  function Fitting(brk: nat, num: nat): (k: nat)
    ensures k <= num
  {
    var room := if brk < KERNEL_STACKS_START then (KERNEL_STACKS_START - brk) / 4096 else 0;
    if num < room then num else room
  }

  lemma FittingStep(brk: nat, i: nat)
    requires Aligned(brk) && brk <= KERNEL_STACKS_START
    ensures Fitting(brk, i + 1) ==
            Fitting(brk, i) + if PageAt(brk, Fitting(brk, i)) < KERNEL_STACKS_START then 1 else 0
    ensures i == 0 ==> Fitting(brk, i) == 0
  {
  }

  /** All pages of a request are mapped exactly if the region has room for them. */
  lemma FittingFits(brk: nat, num: nat)
    requires Aligned(brk) && brk <= KERNEL_STACKS_START
    ensures PageAt(brk, Fitting(brk, num)) <= KERNEL_STACKS_START
    ensures Fitting(brk, num) == num <==> PageAt(brk, num) <= KERNEL_STACKS_START
  {
  }

  lemma BrkInRegion(ram: Ram, nodes: Nodes, owner: Owners, brk: nat)
    requires HeapPages(ram, nodes, owner, brk)
    ensures Aligned(brk) && KERNEL_HEAP_START <= brk <= KERNEL_STACKS_START
  {
  }

  lemma ReleasedStart(ram: Ram, nodes: Nodes, owner: Owners, start: nat)
    ensures Released(ram, nodes, start, 0)
    ensures KeptButPages(ram, nodes, owner, ram, nodes, owner, start, 0)
  {
  }

  lemma ReleasedStep(r0: Ram, o0: Owners, r1: Ram, o1: Owners, ram: Ram, nodes: Nodes, owner: Owners,
                     start: nat, k: nat)
    requires Released(r1, nodes, start, k) && KeptButPages(r0, nodes, o0, r1, nodes, o1, start, k)
    requires KERNEL_HEAP_START <= start && PageAt(start, k) < KERNEL_STACKS_START
    requires KeptBut(r1, nodes, o1, ram, nodes, owner, PathOf(PageAt(start, k)))
    requires var e := Leaf(ram, nodes, PathOf(PageAt(start, k))); !e.present && !e.alloc
    ensures Released(ram, nodes, start, k + 1)
    ensures KeptButPages(r0, nodes, o0, ram, nodes, owner, start, k + 1)
  {
    hide Leaf, IsDemand, IsEntry, PathOf;
    forall i | 0 <= i < k
      ensures var e := Leaf(ram, nodes, PathOf(PageAt(start, i))); !e.present && !e.alloc
    {
      PathOfIff(PageAt(start, i), PageAt(start, k));
      HugeSlotIffLeaf(PageAt(start, i));
      assert Kept(r1, nodes, o1, ram, nodes, owner, PathOf(PageAt(start, i)));
    }
    forall q | IsLeaf(q) && (forall i :: 0 <= i < k + 1 ==> q != PathOf(PageAt(start, i)))
      ensures Kept(r0, nodes, o0, ram, nodes, owner, q)
    {
      assert Kept(r0, nodes, o0, r1, nodes, o1, q);
      assert Kept(r1, nodes, o1, ram, nodes, owner, q);
    }
  }

  /** Pages of the heap region are not outside it. */
  lemma HeapPagesOutside(ram: Ram, nodes: Nodes, owner: Owners, ram': Ram, nodes': Nodes, owner': Owners,
                         start: nat, num: nat)
    requires KeptButPages(ram, nodes, owner, ram', nodes', owner', start, num)
    requires KERNEL_HEAP_START <= start && PageAt(start, num) <= KERNEL_STACKS_START
    ensures KeptOutside(ram, nodes, owner, ram', nodes', owner')
  {
    hide Kept, PathOf, HeapPath;
    forall i | 0 <= i < num
      ensures HeapPath(PathOf(PageAt(start, i)))
    {
      HeapPathIff(PageAt(start, i));
    }
  }

  /** Before anything is mapped. */
  lemma StartPages(ram: Ram, nodes: Nodes, owner: Owners)
    requires forall va :: InHeap(va) ==> !IsDemand(owner, PathOf(va))
    ensures HeapPages(ram, nodes, owner, KERNEL_HEAP_START)
  {
    hide PathOf, IsDemand, Pageable;
    assert forall va :: KERNEL_HEAP_START <= va < KERNEL_STACKS_START ==> InHeap(va);
  }

  /** The view without some consecutive pages. */
  ghost predicate ViewWithout(view: View, view': View, start: nat, k: nat) {
    && (forall p :: p in view' ==> p in view && view'[p] == view[p])
    && (forall i :: 0 <= i < k ==> PathOf(PageAt(start, i)) !in view')
    && (forall p :: p in view && (forall i :: 0 <= i < k ==> p != PathOf(PageAt(start, i))) ==> p in view')
  }

  lemma WithoutNone(view: View, start: nat)
    ensures ViewWithout(view, view, start, 0)
  {
  }

  lemma WithoutOneMore(view: View, v1: View, v2: View, start: nat, k: nat)
    requires ViewWithout(view, v1, start, k) && v2 == v1 - {PathOf(PageAt(start, k))}
    ensures ViewWithout(view, v2, start, k + 1)
  {
    hide PathOf, PageAt;
  }

  class KernelHeap {
    const space: AddressSpace
    var kernelBrk: nat

    ghost predicate Valid()
      reads this, space, space.fa, space.mem
    {
      && space.Valid()
      && HeapPages(space.mem.ram, space.nodes, space.owner, kernelBrk)
    }

    constructor (space: AddressSpace)
      requires space.Valid()
      requires forall va :: InHeap(va) ==> !IsDemand(space.owner, PathOf(va))
      ensures Valid() && this.space == space && kernelBrk == KERNEL_HEAP_START
    {
      hide AddressSpace.Valid, HeapPages;
      StartPages(space.mem.ram, space.nodes, space.owner);
      this.space := space;
      kernelBrk := KERNEL_HEAP_START;
    }

    /** MMU_alloc_page: the page at the break, or 0 when the heap region is used up. */
    method AllocPage() returns (address: nat)
      requires Valid() && space.fa.Available() >= 3
      modifies this, space`nodes, space`owner, space.fa, space.mem
      ensures Valid()
      ensures old(kernelBrk) < KERNEL_STACKS_START ==>
                && address == old(kernelBrk) && kernelBrk == address + PAGE_SIZE
                && space.LeafAt(address) == RawEntry(0, HEAP_FLAGS)
                && KernelData(space.LeafAt(address))
                && !space.LeafAt(address).present && space.LeafAt(address).alloc
                && KeptBut(old(space.mem.ram), old(space.nodes), old(space.owner),
                           space.mem.ram, space.nodes, space.owner, PathOf(address))
      ensures old(kernelBrk) >= KERNEL_STACKS_START ==>
                && address == 0 && kernelBrk == old(kernelBrk)
                && space.mem.ram == old(space.mem.ram)
                && space.nodes == old(space.nodes) && space.owner == old(space.owner)
      ensures space.fa.Available() >= old(space.fa.Available()) - 3
      ensures space.Total() == old(space.Total())
      ensures KeptOutside(old(space.mem.ram), old(space.nodes), old(space.owner),
                          space.mem.ram, space.nodes, space.owner)
    {
      hide TreeInv, Accounts, MapOk, BumpInv, FreeList, Leaf, IsDemand, KeptBut, PathOf, Grew, RawEntry;
      hide HeapPages, Mappable, PhysAddr, KeptOutside, IsEntry, SameLeaves, SameLeavesBut;
      if kernelBrk >= KERNEL_STACKS_START {
        KeptOutsideRefl(space.mem.ram, space.nodes, space.owner);
        return 0;
      }
      NewPage(space.mem.ram, space.nodes, space.owner, kernelBrk);
      space.MapPage(kernelBrk, 0, HEAP_FLAGS);
      HeapGrows(old(space.mem.ram), old(space.nodes), old(space.owner),
                space.mem.ram, space.nodes, space.owner, kernelBrk);
      address := kernelBrk;
      kernelBrk := kernelBrk + PAGE_SIZE;
    }

    /** MMU_alloc_pages: consecutive new pages, as many as the region has room for,
        all of them pending; no other page changes. */
    method AllocPages(num: nat) returns (start: nat)
      requires Valid() && space.fa.Available() >= 3 * num
      modifies this, space`nodes, space`owner, space.fa, space.mem
      ensures Valid()
      ensures start == if num == 0 || old(kernelBrk) >= KERNEL_STACKS_START then 0 else old(kernelBrk)
      ensures kernelBrk == PageAt(old(kernelBrk), Fitting(old(kernelBrk), num))
      ensures NewPages(old(space.mem.ram), old(space.nodes), old(space.owner),
                       space.mem.ram, space.nodes, space.owner, old(kernelBrk), Fitting(old(kernelBrk), num))
      ensures space.Total() == old(space.Total())
      ensures space.fa.Available() >= old(space.fa.Available()) - 3 * num
    {
      hide TreeInv, Accounts, MapOk, BumpInv, FreeList, HeapPages, NewPages, Fitting;
      start := 0;
      ghost var brk, r0, n0, o0 := kernelBrk, space.mem.ram, space.nodes, space.owner;
      NoNewPages(r0, n0, o0, brk);
      for i := 0 to num
        invariant Valid() && kernelBrk == PageAt(brk, Fitting(brk, i))
        invariant start == if i == 0 || brk >= KERNEL_STACKS_START then 0 else brk
        invariant space.Total() == old(space.Total())
        invariant space.fa.Available() >= old(space.fa.Available()) - 3 * i
        invariant NewPages(r0, n0, o0, space.mem.ram, space.nodes, space.owner, brk, Fitting(brk, i))
      {
        var temp := AllocNext(r0, n0, o0, brk, i);
        if i == 0 {
          start := temp;
        }
      }
    }

    /** One pass of that loop. */
    method AllocNext(ghost r0: Ram, ghost n0: Nodes, ghost o0: Owners, ghost brk: nat, ghost i: nat) returns (temp: nat)
      requires Valid() && kernelBrk == PageAt(brk, Fitting(brk, i)) && KERNEL_HEAP_START <= brk
      requires space.fa.Available() >= 3
      requires NewPages(r0, n0, o0, space.mem.ram, space.nodes, space.owner, brk, Fitting(brk, i))
      modifies this, space`nodes, space`owner, space.fa, space.mem
      ensures Valid() && kernelBrk == PageAt(brk, Fitting(brk, i + 1))
      ensures i == 0 ==> temp == if brk >= KERNEL_STACKS_START then 0 else brk
      ensures space.Total() == old(space.Total())
      ensures space.fa.Available() >= old(space.fa.Available()) - 3
      ensures NewPages(r0, n0, o0, space.mem.ram, space.nodes, space.owner, brk, Fitting(brk, i + 1))
    {
      hide TreeInv, Accounts, MapOk, BumpInv, FreeList, Leaf, IsDemand, PathOf, RawEntry, KeptOutside;
      hide HeapPages, NewPages, KeptBut, Fitting;
      BrkInRegion(space.mem.ram, space.nodes, space.owner, kernelBrk);
      FittingStep(brk, i);
      temp := AllocPage();
      if Fitting(brk, i + 1) > Fitting(brk, i) {
        NewPagesStep(r0, n0, o0, old(space.mem.ram), old(space.nodes), old(space.owner),
                     space.mem.ram, space.nodes, space.owner, brk, Fitting(brk, i));
      }
    }

    /** MMU_free_page: refuses addresses outside the heap region; the page keeps
        no frame and is no longer pending. */
    method FreePage(address: nat)
      requires Valid()
      requires InHeap(address) ==> address < kernelBrk
      modifies space`owner, space`view, space.fa, space.mem
      ensures Valid()
      ensures space.view == if InHeap(address) then old(space.view) - {PathOf(address)} else old(space.view)
      ensures InHeap(address) ==> !space.LeafAt(address).present && !space.LeafAt(address).alloc
      ensures InHeap(address) ==>
                KeptBut(old(space.mem.ram), space.nodes, old(space.owner),
                        space.mem.ram, space.nodes, space.owner, PathOf(address))
      ensures !InHeap(address) ==> space.mem.ram == old(space.mem.ram) && space.owner == old(space.owner)
      ensures space.fa.Available() >= old(space.fa.Available())
      ensures space.Total() == old(space.Total())
    {
      hide TreeInv, Accounts, MapOk, BumpInv, FreeList, Leaf, IsDemand, KeptBut, PathOf, Grew, RawEntry;
      hide HeapPages, IsEntry;
      if address < KERNEL_HEAP_START || address >= KERNEL_STACKS_START {
        return;
      }
      InsideIsPageable(space.mem.ram, space.nodes, space.owner, kernelBrk, address);
      space.FreePfFromVirtualAddr(address);
      HeapPagesStep(old(space.mem.ram), space.nodes, old(space.owner),
                    space.mem.ram, space.nodes, space.owner, kernelBrk, address);
    }

    /** MMU_free_pages: exactly the `num` pages from `start` lose their frames. */
    method FreePages(start: nat, num: nat)
      requires Valid()
      requires KERNEL_HEAP_START <= start && PageAt(start, num) <= kernelBrk
      modifies space`owner, space`view, space.fa, space.mem
      ensures Valid()
      ensures ViewWithout(old(space.view), space.view, start, num)
      ensures Released(space.mem.ram, space.nodes, start, num)
      ensures KeptButPages(old(space.mem.ram), space.nodes, old(space.owner),
                           space.mem.ram, space.nodes, space.owner, start, num)
      ensures space.fa.Available() >= old(space.fa.Available())
      ensures space.Total() == old(space.Total())
    {
      hide Valid, KeptButPages, PathOf, Released, ViewWithout;
      WithoutNone(space.view, start);
      var address := start;
      ReleasedStart(space.mem.ram, space.nodes, space.owner, start);
      for i := 0 to num
        invariant Valid() && address == PageAt(start, i)
        invariant Released(space.mem.ram, space.nodes, start, i)
        invariant ViewWithout(old(space.view), space.view, start, i)
        invariant KeptButPages(old(space.mem.ram), space.nodes, old(space.owner),
                               space.mem.ram, space.nodes, space.owner, start, i)
        invariant space.fa.Available() >= old(space.fa.Available())
        invariant space.Total() == old(space.Total())
      {
        assert PageAt(start, i + 1) <= PageAt(start, num);
        FreeNext(old(space.mem.ram), old(space.owner), old(space.view), start, i, address);
        address := address + PAGE_SIZE;
      }
    }

    /** One pass of that loop. */
    method FreeNext(ghost r0: Ram, ghost o0: Owners, ghost v0: View, ghost start: nat, ghost i: nat, address: nat)
      requires Valid() && address == PageAt(start, i)
      requires KERNEL_HEAP_START <= start && PageAt(start, i + 1) <= kernelBrk
      requires Released(space.mem.ram, space.nodes, start, i) && ViewWithout(v0, space.view, start, i)
      requires KeptButPages(r0, space.nodes, o0, space.mem.ram, space.nodes, space.owner, start, i)
      modifies space`owner, space`view, space.fa, space.mem
      ensures Valid()
      ensures Released(space.mem.ram, space.nodes, start, i + 1) && ViewWithout(v0, space.view, start, i + 1)
      ensures KeptButPages(r0, space.nodes, o0, space.mem.ram, space.nodes, space.owner, start, i + 1)
      ensures space.fa.Available() >= old(space.fa.Available())
      ensures space.Total() == old(space.Total())
    {
      BrkInRegion(space.mem.ram, space.nodes, space.owner, kernelBrk);
      hide TreeInv, Leaf, IsDemand, KeptBut, KeptButPages, PathOf, Released;
      hide HeapPages, IsEntry, ViewWithout, AddressSpace.Valid;
      FreePage(address);
      WithoutOneMore(v0, old(space.view), space.view, start, i);
      ReleasedStep(r0, o0, old(space.mem.ram), old(space.owner),
                   space.mem.ram, space.nodes, space.owner, start, i);
    }

    /** First touch of a heap page: the fault handler gives it a frame. */
    method Touch(address: nat) returns (handled: bool)
      requires Valid() && KERNEL_HEAP_START <= address < kernelBrk
      requires space.LeafAt(address).alloc ==> space.fa.Available() > 0
      modifies space`owner, space`view, space.fa, space.mem
      ensures Valid()
      ensures handled <==> old(space.LeafAt(address)).alloc
      ensures var p := PathOf(address);
        if handled then p in space.view && space.view == old(space.view)[p := space.view[p]]
        else space.view == old(space.view)
      ensures space.fa.Available() == old(space.fa.Available()) - if handled then 1 else 0
      ensures handled ==> space.LeafAt(address).present && IsDemand(space.owner, PathOf(address))
      ensures handled ==> space.LeafAt(address).base !in old(space.owner)
      ensures handled ==>
                KeptBut(old(space.mem.ram), space.nodes, old(space.owner),
                        space.mem.ram, space.nodes, space.owner, PathOf(address))
      ensures !handled ==> space.mem.ram == old(space.mem.ram) && space.owner == old(space.owner)
      ensures space.Total() == old(space.Total())
    {
      hide TreeInv, Accounts, MapOk, BumpInv, FreeList, Leaf, Kept, PathOf, Grew, RawEntry;
      handled := space.PageFault(address);
      if handled {
        assert space.owner[space.LeafAt(address).base] == DemandLeaf(PathOf(address));
        HeapPagesStep(old(space.mem.ram), space.nodes, old(space.owner),
                      space.mem.ram, space.nodes, space.owner, kernelBrk, address);
      }
    }
  }

  lemma NewPage(ram: Ram, nodes: Nodes, owner: Owners, brk: nat)
    requires HeapPages(ram, nodes, owner, brk) && brk < KERNEL_STACKS_START
    ensures !IsDemand(owner, PathOf(brk)) && brk + PAGE_SIZE <= KERNEL_STACKS_START
    ensures brk > 0 && Mappable(brk) && PhysAddr(0)
  {
  }

  /** Mapping a pending page at the break and raising the break over it. */
  lemma HeapGrows(ram: Ram, nodes: Nodes, owner: Owners, ram': Ram, nodes': Nodes, owner': Owners, brk: nat)
    requires HeapPages(ram, nodes, owner, brk) && brk < KERNEL_STACKS_START && PhysAddr(0)
    requires Grew(nodes, owner, nodes', owner')
    requires KeptBut(ram, nodes, owner, ram', nodes', owner', PathOf(brk))
    requires IsEntry(nodes', PathOf(brk)) && Leaf(ram', nodes', PathOf(brk)) == RawEntry(0, HEAP_FLAGS)
    ensures HeapPages(ram', nodes', owner', brk + PAGE_SIZE)
    ensures var e := Leaf(ram', nodes', PathOf(brk)); KernelData(e) && !e.present && e.alloc
    ensures KeptOutside(ram, nodes, owner, ram', nodes', owner')
  {
    NewPage(ram, nodes, owner, brk);
    GrewDemand(nodes, owner, nodes', owner', PathOf(brk));
    RawEntryFields(0, HEAP_FLAGS);
    HeapChangeOutside(ram, nodes, owner, ram', nodes', owner', brk);
    hide Leaf, IsDemand, PathOf, KeptBut, KeptOutside, Grew, RawEntry, IsEntry;
    HeapPagesStep(ram, nodes, owner, ram', nodes', owner', brk, brk);
    HeapPagesGrow(ram', nodes', owner', brk);
  }

  lemma InsideIsPageable(ram: Ram, nodes: Nodes, owner: Owners, brk: nat, va: nat)
    requires HeapPages(ram, nodes, owner, brk) && KERNEL_HEAP_START <= va < brk
    ensures IsEntry(nodes, PathOf(va)) && Canonical(va)
    ensures KernelData(Leaf(ram, nodes, PathOf(va)))
    ensures Leaf(ram, nodes, PathOf(va)).present ==> IsDemand(owner, PathOf(va))
  {
    assert Pageable(ram, nodes, owner, PathOf(va));
  }
}
