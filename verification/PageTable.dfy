/** The kernel's address space (mem/page_table.c) on top of the frame allocator:
    tables are frames, reached through physical memory; leaves are mapped at
    once, or marked as pending and given a frame by the page-fault handler. */
module PageTable {
  import opened Wrappers
  import opened Bits
  import opened MemDef
  import opened PfAlloc
  import opened PageTree

  /** The flag bits the kernel passes around: bits 0, 1, 2, 9 and 63. */
  datatype Flags = Flags(present: bool, writable: bool, user: bool, alloc: bool, noExecute: bool)

  function FlagsWord(fl: Flags): (w: word) {
    Bit(fl.present) + 2 * Bit(fl.writable) + 4 * Bit(fl.user) + 0x200 * Bit(fl.alloc)
    + 0x8000_0000_0000_0000 * Bit(fl.noExecute)
  }

  predicate PhysAddr(phys: nat) {
    Aligned(phys) && phys < 0x10_0000_0000_0000
  }

  /** The operands of the raw write have no bit in common, so it stores their sum. */
  lemma OrIsSum(phys: nat, fl: Flags)
    requires PhysAddr(phys)
    ensures Or(phys, FlagsWord(fl)) == phys + FlagsWord(fl) < TWO_64
  {
    hide Or;
    var low := Bit(fl.present) + 2 * Bit(fl.writable) + 4 * Bit(fl.user) + 0x200 * Bit(fl.alloc);
    Bits.OrIsSum(phys / 4096, low, Bit(fl.noExecute));
    assert phys == 4096 * (phys / 4096);
  }

  /** The entry stored by a raw write of `phys | flags`. */
  function RawEntry(phys: nat, fl: Flags): (e: Pte)
    requires PhysAddr(phys)
  {
    OrIsSum(phys, fl);
    Unpack(Or(phys, FlagsWord(fl)))
  }

  /** The raw write puts every flag and the frame number where the bit-field
      accessors of the other operations look for them. */
  lemma RawEntryFields(phys: nat, fl: Flags)
    requires PhysAddr(phys)
    ensures RawEntry(phys, fl) == FlagsEntry(phys / 4096, fl)
    ensures var e := RawEntry(phys, fl);
      && 4096 * e.base == phys && e.present == fl.present && e.writable == fl.writable && e.user == fl.user
      && e.alloc == fl.alloc && e.noExecute == fl.noExecute && e.attrs == 0 && e.avl1 == 0 && e.avl2 == 0
  {
    hide Pack, FlagsWord, Unpack, FlagsEntry, Or;
    var f := phys / 4096;
    OrIsSum(phys, fl);
    FlagsPack(f, fl);
    UnpackPack(FlagsEntry(f, fl));
    assert Pack(FlagsEntry(f, fl)) == phys + FlagsWord(fl);
    EntryFields(f, fl);
  }

  lemma EntryFields(f: bits40, fl: Flags)
    ensures var e := FlagsEntry(f, fl);
      && e.base == f && e.present == fl.present && e.writable == fl.writable && e.user == fl.user
      && e.alloc == fl.alloc && e.noExecute == fl.noExecute && e.attrs == 0 && e.avl1 == 0 && e.avl2 == 0
  {
  }

  function FlagsEntry(f: bits40, fl: Flags): (e: Pte) {
    Pte(fl.present, fl.writable, fl.user, 0, fl.alloc, 0, f, 0, fl.noExecute)
  }

  lemma FlagsPack(f: bits40, fl: Flags)
    ensures Pack(FlagsEntry(f, fl)) == 4096 * f + FlagsWord(fl)
  {
    var e := FlagsEntry(f, fl);
    var low := Bit(fl.present) + 2 * (Bit(fl.writable) + 2 * (Bit(fl.user) + 2 * (64 * Bit(fl.alloc))));
    assert PackLow(e) == low;
    assert PackHigh(e) == 2048 * Bit(fl.noExecute);
    hide PackLow, PackHigh;
    assert Pack(e) == low + 4096 * (f + 0x100_0000_0000 * (2048 * Bit(fl.noExecute)));
  }

  /** Tables may have been added; nothing else about ownership has changed. */
  ghost predicate Grew(nodes: Nodes, owner: Owners, nodes': Nodes, owner': Owners) {
    && (forall p :: p in nodes ==> p in nodes' && nodes'[p] == nodes[p])
    && (forall f :: f in owner ==> f in owner' && owner'[f] == owner[f])
    && (forall f :: f in owner' && f !in owner ==> owner'[f].Table?)
  }

  /** Page q reads as before, can still be looked up, and is demand-paged or not
      as before. */
  ghost predicate Kept(ram: Ram, nodes: Nodes, owner: Owners, ram': Ram, nodes': Nodes, owner': Owners, q: Path) {
    && Leaf(ram', nodes', q) == Leaf(ram, nodes, q)
    && (IsEntry(nodes, q) ==> IsEntry(nodes', q))
    && (IsDemand(owner', q) <==> IsDemand(owner, q))
  }

  ghost predicate KeptBut(ram: Ram, nodes: Nodes, owner: Owners, ram': Ram, nodes': Nodes, owner': Owners, p: Path) {
    forall q :: IsLeaf(q) && q != p ==> Kept(ram, nodes, owner, ram', nodes', owner', q)
  }

  lemma GrewKept(ram: Ram, nodes: Nodes, owner: Owners, ram': Ram, nodes': Nodes, owner': Owners, p: Path)
    requires Grew(nodes, owner, nodes', owner') && SameLeavesBut(ram, nodes, ram', nodes', p)
    ensures KeptBut(ram, nodes, owner, ram', nodes', owner', p)
  {
    hide Leaf;
    forall q | IsLeaf(q) && q != p
      ensures Kept(ram, nodes, owner, ram', nodes', owner', q)
    {
      GrewDemand(nodes, owner, nodes', owner', q);
    }
  }

  lemma OwnersKept(ram: Ram, nodes: Nodes, owner: Owners, ram': Ram, owner': Owners, p: Path)
    requires SameOwnersBut(owner, owner', p) && SameLeavesBut(ram, nodes, ram', nodes, p)
    ensures KeptBut(ram, nodes, owner, ram', nodes, owner', p)
  {
    hide Leaf, IsEntry;
    forall q | IsLeaf(q) && q != p
      ensures IsDemand(owner', q) <==> IsDemand(owner, q)
    {
      if f :| f in owner && owner[f] == DemandLeaf(q) {
        assert owner'[f] == DemandLeaf(q);
      }
      if f :| f in owner' && owner'[f] == DemandLeaf(q) {
        assert owner[f] == DemandLeaf(q);
      }
    }
  }

  /** The source maps only canonical addresses outside the direct map. */
  predicate Mappable(va: nat) {
    Canonical(va) && !InDirectMap(va)
  }

  function PageAt(start: nat, i: nat): (a: nat) {
    start + 4096 * i
  }

  function PageCount(size: nat): (n: nat) {
    (size + 4095) / 4096
  }

  /** The range ends early enough for the loop's address not to wrap, consists of
      mappable pages, and its physical addresses fit an entry. */
  ghost predicate CanMapRange(pstart: nat, vstart: nat, size: nat) {
    && PhysAddr(pstart) && PageAt(pstart, PageCount(size)) <= 0x10_0000_0000_0000
    && vstart + size <= TWO_64 - PAGE_SIZE
    && (forall i :: 0 <= i < PageCount(size) ==> Mappable(PageAt(vstart, i)))
  }

  /** The first k pages from `vstart` map the first k frames from `pstart`. */
  ghost predicate RangeMapped(ram: Ram, nodes: Nodes, pstart: nat, vstart: nat, fl: Flags, k: nat) {
    forall i :: 0 <= i < k && PageAt(vstart, i) != 0 ==>
      && PhysAddr(PageAt(pstart, i))
      && Leaf(ram, nodes, PathOf(PageAt(vstart, i))) == RawEntry(PageAt(pstart, i), fl)
  }

  /** No page but the first k from `vstart` has changed. */
  ghost predicate OthersSame(ram: Ram, nodes: Nodes, ram': Ram, nodes': Nodes, vstart: nat, k: nat) {
    forall q :: IsLeaf(q) && (forall i :: 0 <= i < k ==> q != PathOf(PageAt(vstart, i))) ==>
      Leaf(ram', nodes', q) == Leaf(ram, nodes, q)
  }

  /** The loop of map_range goes on while pages are left, and the next one can be
      mapped. */
  lemma RangeGuard(pstart: nat, vstart: nat, size: nat, k: nat)
    requires CanMapRange(pstart, vstart, size) && PageAt(vstart, k) < vstart + size
    ensures k < PageCount(size)
    ensures Mappable(PageAt(vstart, k)) && PhysAddr(PageAt(pstart, k))
    ensures PageAt(vstart, k + 1) == PageAt(vstart, k) + 4096 && PageAt(pstart, k + 1) == PageAt(pstart, k) + 4096
  {
    hide Mappable;
  }

  lemma RangeEnd(vstart: nat, size: nat, k: nat)
    requires k <= PageCount(size) && PageAt(vstart, k) >= vstart + size
    ensures k == PageCount(size)
  {
  }

  lemma RangeStart(ram: Ram, nodes: Nodes, owner: Owners, pstart: nat, vstart: nat, fl: Flags)
    ensures PageAt(vstart, 0) == vstart && PageAt(pstart, 0) == pstart
    ensures RangeMapped(ram, nodes, pstart, vstart, fl, 0)
    ensures OthersSame(ram, nodes, ram, nodes, vstart, 0)
    ensures Grew(nodes, owner, nodes, owner)
  {
  }

  lemma RangeStep(ram: Ram, nodes: Nodes, ram': Ram, nodes': Nodes,
                  pstart: nat, vstart: nat, size: nat, fl: Flags, k: nat)
    requires CanMapRange(pstart, vstart, size) && k < PageCount(size)
    requires RangeMapped(ram, nodes, pstart, vstart, fl, k)
    requires PhysAddr(PageAt(pstart, k))
    requires PageAt(vstart, k) != 0 ==>
               && SameLeavesBut(ram, nodes, ram', nodes', PathOf(PageAt(vstart, k)))
               && Leaf(ram', nodes', PathOf(PageAt(vstart, k))) == RawEntry(PageAt(pstart, k), fl)
    requires PageAt(vstart, k) == 0 ==> SameLeaves(ram, nodes, ram', nodes')
    ensures RangeMapped(ram', nodes', pstart, vstart, fl, k + 1)
  {
    hide Leaf, RawEntry, PathOf;
    forall i | 0 <= i < k && PageAt(vstart, i) != 0
      ensures PhysAddr(PageAt(pstart, i))
      ensures Leaf(ram', nodes', PathOf(PageAt(vstart, i))) == RawEntry(PageAt(pstart, i), fl)
    {
      assert Mappable(PageAt(vstart, i)) && Mappable(PageAt(vstart, k));
      PathOfIff(PageAt(vstart, i), PageAt(vstart, k));
      HugeSlotIffLeaf(PageAt(vstart, i));
    }
  }

  lemma OthersStep(ram0: Ram, nodes0: Nodes, ram: Ram, nodes: Nodes, ram': Ram, nodes': Nodes, vstart: nat, k: nat)
    requires OthersSame(ram0, nodes0, ram, nodes, vstart, k)
    requires SameLeaves(ram, nodes, ram', nodes')
             || SameLeavesBut(ram, nodes, ram', nodes', PathOf(PageAt(vstart, k)))
    ensures OthersSame(ram0, nodes0, ram', nodes', vstart, k + 1)
  {
    hide Leaf, PathOf, PageAt;
  }

  lemma NothingGrew(ram: Ram, nodes: Nodes, owner: Owners)
    ensures Grew(nodes, owner, nodes, owner) && SameLeaves(ram, nodes, ram, nodes)
  {
  }

  lemma SameLeavesTrans(r0: Ram, n0: Nodes, r1: Ram, n1: Nodes, r2: Ram, n2: Nodes)
    requires SameLeaves(r0, n0, r1, n1) && SameLeaves(r1, n1, r2, n2)
    ensures SameLeaves(r0, n0, r2, n2)
  {
    hide Leaf;
  }

  lemma SameTrans(r0: Ram, n0: Nodes, r1: Ram, n1: Nodes, r2: Ram, n2: Nodes, p: Path)
    requires SameLeaves(r0, n0, r1, n1) && SameLeavesBut(r1, n1, r2, n2, p)
    ensures SameLeavesBut(r0, n0, r2, n2, p)
  {
    hide Leaf;
  }

  lemma GrewTrans(n0: Nodes, o0: Owners, n1: Nodes, o1: Owners, n2: Nodes, o2: Owners)
    requires Grew(n0, o0, n1, o1) && Grew(n1, o1, n2, o2)
    ensures Grew(n0, o0, n2, o2)
  {
  }

  lemma LastPage(vstart: nat, size: nat, n: nat)
    requires size > 0
    ensures vstart % 4096 + size <= 4096 * n <==> (vstart + size - 1) / 4096 < vstart / 4096 + n
  {
    var q := vstart / 4096;
    assert vstart == 4096 * q + vstart % 4096;
  }

  lemma GrewRights(r0: Ram, n0: Nodes, o0: Owners, r1: Ram, n1: Nodes, o1: Owners, r2: Ram, n2: Nodes, f: Rights)
    requires RightsKept(r0, n0, r1, n1, f) && RightsKept(r1, n1, r2, n2, f) && Grew(n0, o0, n1, o1)
    ensures RightsKept(r0, n0, r2, n2, f)
  {
    hide RightsKept;
    RightsTrans(r0, n0, r1, n1, r2, n2, f);
  }

  /** What the four levels above and at a page allow, once its leaf carries the rights
      f: what its tables allowed before the mapping, as far as there were any, and f. */
  lemma PageRights(r0: Ram, n0: Nodes, ram: Ram, nodes: Nodes, p: Path, f: Rights)
    requires RightsKept(r0, n0, ram, nodes, f) && IsLeaf(p) && RightsOf(Leaf(ram, nodes, p)) == f
    ensures Meet(RightsTo(ram, nodes, p.up), RightsOf(Leaf(ram, nodes, p))) == Meet(RightsTo(r0, n0, p.up), f)
  {
    hide RightsTo, Leaf;
  }

  /** Since only the start of each step is tested, an unaligned range is covered
      up to its last byte exactly when its offset into the first page leaves room
      for it in the pages counted. */
  lemma RangeCoveredIff(vstart: nat, size: nat)
    requires size > 0
    ensures (forall a :: vstart <= a < vstart + size ==>
               exists i :: 0 <= i < PageCount(size) && a / 4096 == PageAt(vstart, i) / 4096)
            <==> vstart % 4096 + size <= 4096 * PageCount(size)
    ensures size <= 4096 * PageCount(size) < size + 4096
  {
    var n := PageCount(size);
    var last := vstart + size - 1;
    forall a | vstart <= a < vstart + size && a / 4096 < vstart / 4096 + n
      ensures exists i :: 0 <= i < n && a / 4096 == PageAt(vstart, i) / 4096
    {
      var i := a / 4096 - vstart / 4096;
      assert PageAt(vstart, i) / 4096 == a / 4096;
    }
    assert forall i :: PageAt(vstart, i) / 4096 == vstart / 4096 + i;
    LastPage(vstart, size, n);
    if vstart % 4096 + size <= 4096 * n {
      forall a | vstart <= a < vstart + size
        ensures a / 4096 <= last / 4096
      {
      }
    }
  }

  /** An entry above the leaves once it leads to `table`: kept if it was present, and
      otherwise with the write and user rights of the mapping that created it. */
  function InteriorEntry(e: Pte, table: nat, fl: Flags): (r: Pte)
    requires table < FRAMES
  {
    if e.present then e
    else e.(base := table, present := true, writable := e.writable || fl.writable, user := e.user || fl.user)
  }

  /** The rights that a mapping asks for. */
  function RightsIn(fl: Flags): (r: Rights) {
    Rights(fl.user, fl.writable)
  }

  lemma AbsentIsZero(ram: Ram, nodes: Nodes, owner: Owners, c: Path)
    requires TreeInv(ram, nodes, owner) && IsEntry(nodes, c) && Depth(c) <= 3 && c != HUGE_SLOT
    ensures nodes[c.up] in ram && (!Entry(ram, nodes, c).present ==> Entry(ram, nodes, c) == ZeroPte)
  {
    assert Linked(ram, nodes, c);
  }

  class AddressSpace {
    const fa: FrameAllocator
    const mem: PhysMem
    /** Frame of the top-level table. */
    var pml4: nat

    ghost var nodes: Nodes
    ghost var owner: Owners
    ghost var direct: Option<DirectTable>
    ghost var view: View

    ghost predicate Valid()
      reads this, fa, mem
    {
      && fa.mem == mem && fa.Valid()
      && TreeInv(mem.ram, nodes, owner)
      && nodes[Root] == pml4
      && owner.Keys == fa.out
      && DirectOk(mem.ram, owner, pml4, direct)
      && ViewOk(mem.ram, owner, view)
    }

    /** What the three tables above page p allow, as far as they exist, and what all
        four levels allow. */
    ghost function TablesAllow(p: Path): (r: Rights)
      reads this, mem
    {
      if p.At? then RightsTo(mem.ram, nodes, p.up) else Rights(true, true)
    }

    ghost function PageAllows(p: Path): (r: Rights)
      reads this, mem
    {
      Meet(TablesAllow(p), RightsOf(Leaf(mem.ram, nodes, p)))
    }

    ghost function LeafAt(va: nat): (e: Pte)
      reads this, mem
    {
      Leaf(mem.ram, nodes, PathOf(va))
    }

    /** All frames of the machine not yet lost: out or still available. */
    ghost function Total(): (n: nat)
      reads fa
    {
      |fa.out| + fa.Available()
    }

    /** A new address space: one zeroed frame for the top-level table. */
    constructor (fa: FrameAllocator)
      requires fa.Valid() && fa.out == {} && fa.Available() > 0
      modifies fa, fa.mem
      ensures Valid() && this.fa == fa && this.mem == fa.mem
      ensures nodes == map[Root := pml4] && owner == map[pml4 := Table(Root)]
      ensures forall q :: IsLeaf(q) ==> Leaf(mem.ram, nodes, q) == ZeroPte
      ensures Total() == old(fa.Available()) && fa.Available() == old(fa.Available()) - 1
      ensures old(fa.pool) == [] ==> pml4 in Ahead(fa.mmap, old(fa.currentPage))
      ensures old(fa.pool) == [] ==> forall f :: f in Ahead(fa.mmap, old(fa.currentPage)) ==> pml4 <= f
    {
      this.fa := fa;
      this.mem := fa.mem;
      pml4 := 0;
      nodes := map[];
      owner := map[];
      direct := None;
      view := map[];
      new;
      hide TreeInv, Leaf, FrameAllocator.Valid, Valid;
      AllocateRoot();
    }

    method AllocateRoot()
      requires fa.mem == mem && fa.Valid() && fa.out == {} && fa.Available() > 0
      requires direct == None && view == map[]
      modifies this`pml4, this`nodes, this`owner, fa, mem
      ensures Valid()
      ensures nodes == map[Root := pml4] && owner == map[pml4 := Table(Root)]
      ensures forall q :: IsLeaf(q) ==> Leaf(mem.ram, nodes, q) == ZeroPte
      ensures fa.Available() == old(fa.Available()) - 1
      ensures old(fa.pool) == [] ==> pml4 in Ahead(fa.mmap, old(fa.currentPage))
      ensures old(fa.pool) == [] ==> forall f :: f in Ahead(fa.mmap, old(fa.currentPage)) ==> pml4 <= f
    {
      hide TreeInv, Leaf, FrameAllocator.Valid;
      pml4 := AllocateTable();
      EmptyTree(mem.ram, pml4);
      nodes := map[Root := pml4];
      owner := map[pml4 := Table(Root)];
    }

    method WriteFrame(f: nat, page: Page)
      requires fa.mem == mem && fa.Valid() && f in fa.out
      modifies mem
      ensures fa.Valid() && mem.ram == old(mem.ram)[f := page]
    {
      OutIsNotPool(fa.mmap, fa.currentPage, fa.pool, fa.out, f);
      hide MapOk, BumpInv, Accounts, FreeList;
      FreeListInRam(mem.ram, fa.freePool, fa.pool);
      FreeListFrame(mem.ram, mem.ram[f := page], fa.freePool, fa.pool);
      mem.ram := mem.ram[f := page];
    }

    method AllocateTable() returns (f: nat)
      requires fa.mem == mem && fa.Valid() && fa.Available() > 0
      modifies fa, mem
      ensures fa.Valid()
      ensures f !in old(fa.out) && fa.out == old(fa.out) + {f} && f < FRAMES && f in old(mem.ram)
      ensures mem.ram == old(mem.ram)[f := ZeroPage()]
      ensures fa.Available() == old(fa.Available()) - 1
      ensures old(fa.pool) == [] ==> f in Ahead(fa.mmap, old(fa.currentPage))
      ensures old(fa.pool) == [] ==> forall g :: g in Ahead(fa.mmap, old(fa.currentPage)) ==> f <= g
    {
      hide MapOk, BumpInv, Accounts, FreeList, Usable;
      var page := fa.PfAlloc();
      f := FrameOf(page);
      WriteFrame(f, ZeroPage());
    }

    /** get_or_alloc_table. `c` is the path of the entry, entry i of the table
        `parent`. */
    method GetOrAllocTable(parent: nat, i: nat, fl: Flags, ghost c: Path) returns (table: nat)
      requires Valid()
      requires IsEntry(nodes, c) && Depth(c) <= 3 && c != HUGE_SLOT
      requires nodes[c.up] == parent && c.i == i
      requires fa.Available() > 0
      modifies this`nodes, this`owner, fa, mem
      ensures Valid()
      ensures c in nodes && nodes[c] == table && table < FRAMES
      ensures Grew(old(nodes), old(owner), nodes, owner)
      ensures parent in mem.ram && parent in old(mem.ram)
      ensures var e, e' := old(mem.ram)[parent][i], mem.ram[parent][i];
        if e.present then e' == e
        else e == ZeroPte && e' == Pte(true, fl.writable, fl.user, 0, false, 0, table, 0, false)
      ensures RightsKept(old(mem.ram), old(nodes), mem.ram, nodes, RightsIn(fl))
      ensures SameLeaves(old(mem.ram), old(nodes), mem.ram, nodes)
      ensures fa.Available() >= old(fa.Available()) - 1
      ensures Total() == old(Total())
    {
      hide TreeInv, FrameAllocator.Valid, SameLeaves, Grew, LinkRam, ZeroPage, RightsKept, DirectOk, ViewOk;
      RightsRefl(mem.ram, nodes, RightsIn(fl));
      AbsentIsZero(mem.ram, nodes, owner, c);
      EntryInRam(mem.ram, nodes, owner, c);
      NothingGrew(mem.ram, nodes, owner);
      var e := mem.ram[parent][i];
      if !e.present {
        TableIsOut(mem.ram, nodes, owner, c.up);
        var f := AllocateTable();
        var e' := InteriorEntry(e, f, fl);
        LinkKeeps(old(mem.ram), nodes, owner, c, f, e');
        LinkDirect(old(mem.ram), nodes, owner, c, f, e', direct);
        LinkRights(old(mem.ram), nodes, owner, c, f, e');
        LinkView(old(mem.ram), nodes, owner, c, f, e', view);
        LinkGrows(nodes, owner, c, f);
        LinkRamIs(old(mem.ram), nodes, c, f, e');
        WriteFrame(parent, mem.ram[parent][i := e']);
        nodes := nodes[c := f];
        owner := owner[f := Table(c)];
      }
      table := mem.ram[parent][i].base;
      LinkedTable(mem.ram, nodes, owner, c);
    }

    /** map_page. Mapping NULL is refused; any other address outside the direct
        map gets exactly the requested leaf, and no other page is affected, even
        though up to three tables are created on the way. */
    method MapPage(va: nat, phys: nat, fl: Flags)
      requires Valid() && PhysAddr(phys) && Mappable(va)
      requires va != 0 ==> fa.Available() >= 3 && !IsDemand(owner, PathOf(va))
      modifies this`nodes, this`owner, fa, mem
      ensures Valid()
      ensures va != 0 ==> LeafAt(va) == RawEntry(phys, fl) && IsEntry(nodes, PathOf(va))
      ensures va != 0 ==> SameLeavesBut(old(mem.ram), old(nodes), mem.ram, nodes, PathOf(va))
      ensures va != 0 ==>
                KeptBut(old(mem.ram), old(nodes), old(owner), mem.ram, nodes, owner, PathOf(va))
      ensures va == 0 ==> SameLeaves(old(mem.ram), old(nodes), mem.ram, nodes)
      ensures RightsKept(old(mem.ram), old(nodes), mem.ram, nodes, RightsIn(fl))
      ensures va != 0 ==> PageAllows(PathOf(va)) == Meet(old(TablesAllow(PathOf(va))), RightsIn(fl))
      ensures Grew(old(nodes), old(owner), nodes, owner)
      ensures fa.Available() >= old(fa.Available()) - 3
      ensures Total() == old(Total())
    {
      hide TreeInv, LeafRam, IsDemand, FrameAllocator.Valid, Grew, SameLeaves, Leaf, PathOf, RawEntry, KeptBut;
      hide RightsKept, DirectOk, ViewOk, RightsTo;
      RawEntryFields(phys, fl);
      RightsRefl(mem.ram, nodes, RightsIn(fl));
      if va == 0 {
        NothingGrew(mem.ram, nodes, owner);
        return;
      }
      ghost var p := PathOf(va);
      var pt := WalkTables(va, fl);
      GrewDemand(old(nodes), old(owner), nodes, owner, p);
      PathDepths(va);
      ghost var ram1 := mem.ram;
      LeafRights(mem.ram, nodes, owner, p, RawEntry(phys, fl), RightsIn(fl));
      WriteLeaf(pt, va / 4096 % 512, RawEntry(phys, fl), p, owner, view);
      SameTrans(old(mem.ram), old(nodes), ram1, nodes, mem.ram, nodes, p);
      GrewKept(old(mem.ram), old(nodes), old(owner), mem.ram, nodes, owner, p);
      GrewRights(old(mem.ram), old(nodes), old(owner), ram1, nodes, owner, mem.ram, nodes, RightsIn(fl));
      PageRights(old(mem.ram), old(nodes), mem.ram, nodes, p, RightsIn(fl));
    }

    /** The walk of map_page through the three tables above the leaf entry. */
    method WalkTables(va: nat, fl: Flags) returns (pt: nat)
      requires Valid() && Mappable(va) && fa.Available() >= 3
      modifies this`nodes, this`owner, fa, mem
      ensures Valid()
      ensures IsEntry(nodes, PathOf(va)) && nodes[PathOf(va).up] == pt && PathOf(va).i == va / 4096 % 512
      ensures Grew(old(nodes), old(owner), nodes, owner)
      ensures SameLeaves(old(mem.ram), old(nodes), mem.ram, nodes)
      ensures RightsKept(old(mem.ram), old(nodes), mem.ram, nodes, RightsIn(fl))
      ensures fa.Available() >= old(fa.Available()) - 3
      ensures Total() == old(Total())
    {
      hide TreeInv, FrameAllocator.Valid, Grew, SameLeaves, Leaf, RightsKept, DirectOk, ViewOk;
      ghost var p := PathOf(va);
      HugeSlotIff(va);
      PathDepths(va);
      RootIsEntry(mem.ram, nodes, owner, p.up.up.up);
      var pdp := GetOrAllocTable(pml4, va / 4096 / 512 / 512 / 512 % 512, fl, p.up.up.up);
      ghost var r1, n1, o1 := mem.ram, nodes, owner;
      var pd := GetOrAllocTable(pdp, va / 4096 / 512 / 512 % 512, fl, p.up.up);
      GrewTrans(old(nodes), old(owner), n1, o1, nodes, owner);
      SameLeavesTrans(old(mem.ram), old(nodes), r1, n1, mem.ram, nodes);
      GrewRights(old(mem.ram), old(nodes), old(owner), r1, n1, o1, mem.ram, nodes, RightsIn(fl));
      ghost var r2, n2, o2 := mem.ram, nodes, owner;
      pt := GetOrAllocTable(pd, va / 4096 / 512 % 512, fl, p.up);
      GrewTrans(old(nodes), old(owner), n2, o2, nodes, owner);
      SameLeavesTrans(old(mem.ram), old(nodes), r2, n2, mem.ram, nodes);
      GrewRights(old(mem.ram), old(nodes), old(owner), r2, n2, o2, mem.ram, nodes, RightsIn(fl));
    }

    /** get_page_frame: on any page below an existing page table, the walk ends at
        the very entry that map_page writes. */
    method GetPageFrame(va: nat) returns (table: nat, i: nat)
      requires Valid() && IsEntry(nodes, PathOf(va))
      ensures table == nodes[PathOf(va).up] && i == PathOf(va).i && i < NUM_ENTRIES && table in mem.ram
      ensures mem.ram[table][i] == LeafAt(va)
    {
      ghost var p := PathOf(va);
      PathDepths(va);
      TableBelow(mem.ram, nodes, owner, p.up);
      TableBelow(mem.ram, nodes, owner, p.up.up);
      TableBelow(mem.ram, nodes, owner, p.up.up.up);
      hide TreeInv;
      var pdp := mem.ram[pml4][va / 4096 / 512 / 512 / 512 % 512].base;
      var pd := mem.ram[pdp][va / 4096 / 512 / 512 % 512].base;
      table := mem.ram[pd][va / 4096 / 512 % 512].base;
      i := va / 4096 % 512;
    }

    /** The demand path of page_fault_handler: a pending page gets a frame nobody
        else holds. Any other fault halts the machine (`handled` is false). */
    method PageFault(cr2: nat) returns (handled: bool)
      requires Valid() && IsEntry(nodes, PathOf(cr2))
      requires LeafAt(cr2).alloc ==> fa.Available() > 0
      modifies this`owner, this`view, fa, mem
      ensures Valid()
      ensures handled <==> old(LeafAt(cr2)).alloc
      ensures if handled then PathOf(cr2) in view && view == old(view)[PathOf(cr2) := view[PathOf(cr2)]]
              else view == old(view)
      ensures handled ==>
        var f := LeafAt(cr2).base;
        && f !in old(owner) && owner == old(owner)[f := DemandLeaf(PathOf(cr2))]
        && LeafAt(cr2) == old(LeafAt(cr2)).(base := f, present := true, alloc := false)
        && KeptBut(old(mem.ram), nodes, old(owner), mem.ram, nodes, owner, PathOf(cr2))
        && fa.Available() == old(fa.Available()) - 1
      ensures !handled ==> mem.ram == old(mem.ram) && owner == old(owner) && fa.Available() == old(fa.Available())
      ensures Total() == old(Total())
    {
      hide TreeInv, FrameAllocator.Valid, DirectOk, ViewOk, KeptBut, SameLeavesBut, Leaf, PathOf, IsEntry, Usable;
      var table, i := GetPageFrame(cr2);
      var e := mem.ram[table][i];
      handled := e.alloc;
      if handled {
        ghost var p := PathOf(cr2);
        HugeSlotIffLeaf(cr2);
        PendingIsNotDemand(mem.ram, nodes, owner, p);
        var pf := fa.PfAlloc();
        var e' := e.(base := FrameOf(pf), present := true, alloc := false);
        FrameInRam(fa, FrameOf(pf));
        ViewGains(mem.ram, owner, view, FrameOf(pf), p);
        ghost var owner', view' := owner[FrameOf(pf) := DemandLeaf(p)], view[p := mem.ram[FrameOf(pf)]];
        WriteLeaf(table, i, e', p, owner', view');
        owner, view := owner', view';
        OwnersKept(old(mem.ram), nodes, old(owner), mem.ram, owner, p);
      }
    }

    /** free_pf_from_virtual_addr. A present page must be a demand page: its frame
        becomes the head of the free pool. A page still pending loses its mark. */
    method FreePfFromVirtualAddr(va: nat)
      requires Valid() && IsEntry(nodes, PathOf(va))
      requires LeafAt(va).present ==> IsDemand(owner, PathOf(va))
      modifies this`owner, this`view, fa, mem
      ensures Valid()
      ensures view == old(view) - {PathOf(va)}
      ensures old(LeafAt(va)).present ==>
        && owner == old(owner) - {old(LeafAt(va)).base}
        && fa.pool == [old(LeafAt(va)).base] + old(fa.pool)
        && LeafAt(va) == old(LeafAt(va)).(present := false)
      ensures !old(LeafAt(va)).present ==>
        && owner == old(owner) && fa.pool == old(fa.pool)
        && LeafAt(va) == old(LeafAt(va)).(alloc := false)
      ensures !LeafAt(va).present && !LeafAt(va).alloc
      ensures KeptBut(old(mem.ram), nodes, old(owner), mem.ram, nodes, owner, PathOf(va))
      ensures fa.Available() >= old(fa.Available())
      ensures Total() == old(Total())
    {
      hide TreeInv, FrameAllocator.Valid, DirectOk, ViewOk, KeptBut, SameLeaves, SameLeavesBut, Leaf, PathOf;
      hide IsEntry;
      var table, i := GetPageFrame(va);
      var e := mem.ram[table][i];
      ghost var p := PathOf(va);
      HugeSlotIffLeaf(va);
      TablesInRam(mem.ram, nodes, owner);
      if e.present {
        DemandFrame(mem.ram, nodes, owner, p);
        TablesAreNot(mem.ram, nodes, owner, e.base);
        fa.PfFree(Addr(e.base));
        TablesUnchanged(old(mem.ram), mem.ram, nodes, owner);
        OtherDirect(old(mem.ram), mem.ram, nodes, owner, direct, e.base);
        ghost var ram1 := mem.ram;
        ViewLoses(old(mem.ram), mem.ram, nodes, owner, view, e.base, p);
        WriteLeaf(table, i, mem.ram[table][i].(present := false), p, owner - {e.base}, view - {p});
        owner, view := owner - {e.base}, view - {p};
        SameTrans(old(mem.ram), nodes, ram1, nodes, mem.ram, nodes, p);
      } else {
        NotPresentIsNotDemand(mem.ram, nodes, owner, p);
        NotViewed(mem.ram, owner, view, p);
        WriteLeaf(table, i, e.(alloc := false), p, owner, view);
      }
      OwnersKept(old(mem.ram), nodes, old(owner), mem.ram, owner, p);
    }

    /** A store by whoever uses a demand page, anywhere in the page. */
    method Store(va: nat, slot: nat, w: word)
      requires Valid() && IsDemand(owner, PathOf(va)) && slot < NUM_ENTRIES
      modifies mem, this`view
      ensures Valid()
      ensures PathOf(va) in old(view)
      ensures view == old(view)[PathOf(va) := old(view)[PathOf(va)][slot := Unpack(w)]]
      ensures SameLeaves(old(mem.ram), nodes, mem.ram, nodes)
      ensures forall f :: f in old(mem.ram) && f != LeafAt(va).base ==> f in mem.ram && mem.ram[f] == old(mem.ram)[f]
    {
      hide FrameAllocator.Valid, TreeInv, DirectOk, ViewOk, SameLeaves, PathOf, IsDemand;
      DemandFrame(mem.ram, nodes, owner, PathOf(va));
      ViewAt(mem.ram, nodes, owner, view, PathOf(va));
      TablesInRam(mem.ram, nodes, owner);
      var table, i := GetPageFrame(va);
      var f := mem.ram[table][i].base;
      TablesAreNot(mem.ram, nodes, owner, f);
      WriteFrame(f, mem.ram[f][slot := Unpack(w)]);
      TablesUnchanged(old(mem.ram), mem.ram, nodes, owner);
      OtherDirect(old(mem.ram), mem.ram, nodes, owner, direct, f);
      ViewStores(old(mem.ram), nodes, owner, view, f, PathOf(va), mem.ram[f]);
      view := view[PathOf(va) := mem.ram[f]];
    }

    /** A load from a demand page. */
    method Load(va: nat, slot: nat) returns (w: word)
      requires Valid() && IsDemand(owner, PathOf(va)) && slot < NUM_ENTRIES
      ensures PathOf(va) in view && w == Pack(view[PathOf(va)][slot])
    {
      hide FrameAllocator.Valid, TreeInv, DirectOk, ViewOk, PathOf, IsDemand, Pack;
      DemandFrame(mem.ram, nodes, owner, PathOf(va));
      ViewAt(mem.ram, nodes, owner, view, PathOf(va));
      var table, i := GetPageFrame(va);
      w := Pack(mem.ram[mem.ram[table][i].base][slot]);
    }

    /** MMU_pf_alloc called directly: the caller holds the frame. */
    method AllocFrame() returns (pf: nat)
      requires Valid() && fa.Available() > 0
      modifies this`owner, fa
      ensures Valid() && FrameOf(pf) !in old(owner) && Aligned(pf)
      ensures owner == old(owner)[FrameOf(pf) := Held]
      ensures fa.Available() == old(fa.Available()) - 1 && Usable(fa.mmap, FrameOf(pf)) && FrameOf(pf) < FRAMES
      ensures Total() == old(Total())
    {
      hide Leaf, FrameAllocator.Valid, TreeInv, Usable;
      pf := fa.PfAlloc();
      ViewElsewhere(mem.ram, mem.ram, owner, owner[FrameOf(pf) := Held], view, FrameOf(pf));
      owner := owner[FrameOf(pf) := Held];
      HeldKeeps(mem.ram, nodes, old(owner), FrameOf(pf));
    }

    /** MMU_pf_free called directly, on a frame the caller holds. If that is the direct
        map's table, the direct map is given up. */
    method FreeFrame(pf: nat)
      requires Valid() && FrameOf(pf) in owner && owner[FrameOf(pf)] == Held
      modifies this`owner, this`direct, fa, mem
      ensures Valid()
      ensures direct == if old(direct).Some? && old(direct).value.table == FrameOf(pf) then None else old(direct)
      ensures owner == old(owner) - {FrameOf(pf)}
      ensures fa.pool == [FrameOf(pf)] + old(fa.pool)
      ensures SameLeaves(old(mem.ram), nodes, mem.ram, nodes)
      ensures Total() == old(Total())
    {
      hide TreeInv, FrameAllocator.Valid, SameLeaves;
      TablesAreNot(mem.ram, nodes, owner, FrameOf(pf));
      TablesInRam(mem.ram, nodes, owner);
      fa.PfFree(pf);
      if direct.Some? && direct.value.table == FrameOf(pf) {
        direct := None;
      }
      TablesUnchanged(old(mem.ram), mem.ram, nodes, owner);
      OtherDirect(old(mem.ram), mem.ram, nodes, owner, direct, FrameOf(pf));
      ViewElsewhere(old(mem.ram), mem.ram, owner, owner - {FrameOf(pf)}, view, FrameOf(pf));
      ReleaseKeeps(mem.ram, nodes, owner, FrameOf(pf));
      owner := owner - {FrameOf(pf)};
    }

    /** Ownership and conservation, in any state the operations can reach: every
        usable frame of the machine is ahead of the bump pointer, or in the free
        pool exactly once, or has exactly one owner, and never two of these. */
    lemma Conserved(f: nat)
      requires Valid() && Usable(fa.mmap, f)
      ensures f in Ahead(fa.mmap, fa.currentPage) ==> f !in owner && f !in fa.pool
      ensures f in fa.pool ==> f !in owner && multiset(fa.pool)[f] == 1
      ensures f in Ahead(fa.mmap, fa.currentPage) || f in fa.pool || f in owner
      ensures f in owner && owner[f].DemandLeaf? ==> f !in nodes.Values
      ensures forall g :: g in owner || g in fa.pool ==> Usable(fa.mmap, g)
    {
      assert f < FRAMES;
      hide MapOk, BumpInv, FreeList, Usable, Links;
      assert Accounts(fa.mmap, fa.currentPage, fa.pool, fa.out);
      if f in fa.pool {
        NoDupOnce(fa.pool, f);
      }
    }

    /** map_range: the pages of `vstart`, `vstart` + 4096, ... for as long as that
        stays below `vstart` + `size`, and no others. */
    method MapRange(pstart: nat, vstart: nat, size: nat, fl: Flags)
      requires Valid() && CanMapRange(pstart, vstart, size)
      requires forall i :: 0 <= i < PageCount(size) ==> !IsDemand(owner, PathOf(PageAt(vstart, i)))
      requires fa.Available() >= 3 * PageCount(size)
      modifies this`nodes, this`owner, fa, mem
      ensures Valid()
      ensures RangeMapped(mem.ram, nodes, pstart, vstart, fl, PageCount(size))
      ensures OthersSame(old(mem.ram), old(nodes), mem.ram, nodes, vstart, PageCount(size))
      ensures RightsKept(old(mem.ram), old(nodes), mem.ram, nodes, RightsIn(fl))
      ensures Grew(old(nodes), old(owner), nodes, owner)
      ensures fa.Available() >= old(fa.Available()) - 3 * PageCount(size)
      ensures Total() == old(Total())
    {
      hide Leaf, IsDemand, RangeMapped, OthersSame, Grew, RawEntry, CanMapRange, PageAt, PageCount, Valid, Total;
      hide PathOf, SameLeaves, SameLeavesBut, Mappable, PhysAddr, KeptBut, RightsKept, RightsTo, RightsIn;
      RightsRefl(mem.ram, nodes, RightsIn(fl));
      var vcurrent, pcurrent := vstart, pstart;
      ghost var k := 0;
      RangeStart(mem.ram, nodes, owner, pstart, vstart, fl);
      while vcurrent < vstart + size
        invariant 0 <= k <= PageCount(size)
        invariant vcurrent == PageAt(vstart, k) && pcurrent == PageAt(pstart, k)
        invariant Valid()
        invariant RangeMapped(mem.ram, nodes, pstart, vstart, fl, k)
        invariant OthersSame(old(mem.ram), old(nodes), mem.ram, nodes, vstart, k)
        invariant RightsKept(old(mem.ram), old(nodes), mem.ram, nodes, RightsIn(fl))
        invariant Grew(old(nodes), old(owner), nodes, owner)
        invariant fa.Available() >= old(fa.Available()) - 3 * k
        invariant Total() == old(Total())
        decreases PageCount(size) - k
      {
        RangeGuard(pstart, vstart, size, k);
        GrewDemand(old(nodes), old(owner), nodes, owner, PathOf(vcurrent));
        ghost var ram0, nodes0, owner0 := mem.ram, nodes, owner;
        MapPage(vcurrent, pcurrent, fl);
        GrewTrans(old(nodes), old(owner), nodes0, owner0, nodes, owner);
        GrewRights(old(mem.ram), old(nodes), old(owner), ram0, nodes0, owner0, mem.ram, nodes, RightsIn(fl));
        RangeStep(ram0, nodes0, mem.ram, nodes, pstart, vstart, size, fl, k);
        OthersStep(old(mem.ram), old(nodes), ram0, nodes0, mem.ram, nodes, vstart, k);
        vcurrent := vcurrent + PAGE_SIZE;
        pcurrent := pcurrent + PAGE_SIZE;
        k := k + 1;
      }
      RangeEnd(vstart, size, k);
    }

    /** user_allocate_range: the range becomes pending, with the given rights. */
    method UserAllocateRange(start: nat, size: nat, w: bool, x: bool)
      requires Valid() && CanMapRange(0, start, size)
      requires forall i :: 0 <= i < PageCount(size) ==> !IsDemand(owner, PathOf(PageAt(start, i)))
      requires fa.Available() >= 3 * PageCount(size)
      modifies this`nodes, this`owner, fa, mem
      ensures Valid()
      ensures forall i :: 0 <= i < PageCount(size) && PageAt(start, i) != 0 ==>
                var e := LeafAt(PageAt(start, i));
                && e.alloc && !e.present && e.user && e.writable == w && e.noExecute == !x
                && var p := PathOf(PageAt(start, i)); PageAllows(p) == Meet(old(TablesAllow(p)), Rights(true, w))
      ensures OthersSame(old(mem.ram), old(nodes), mem.ram, nodes, start, PageCount(size))
      ensures Total() == old(Total())
    {
      hide TreeInv, FrameAllocator.Valid, DirectOk, ViewOk, Leaf, RawEntry, PathOf, IsDemand, OthersSame;
      hide Grew, CanMapRange, RightsKept, RightsTo;
      var fl := Flags(false, w, true, true, !x);
      MapRange(0, start, size, fl);
      forall i | 0 <= i < PageCount(size) && PageAt(start, i) != 0
        ensures LeafAt(PageAt(start, i)) == FlagsEntry(i, fl)
        ensures var p := PathOf(PageAt(start, i)); PageAllows(p) == Meet(old(TablesAllow(p)), Rights(true, w))
      {
        RawEntryFields(PageAt(0, i), fl);
        PathDepths(PageAt(start, i));
        PageRights(old(mem.ram), old(nodes), mem.ram, nodes, PathOf(PageAt(start, i)), RightsIn(fl));
      }
    }

    /** Writes one leaf entry; `owner'` and `view'` are what is to hold afterwards. */
    method WriteLeaf(table: nat, i: nat, e: Pte, ghost p: Path, ghost owner': Owners, ghost view': View)
      requires fa.mem == mem && fa.Valid() && TreeInv(mem.ram, nodes, owner) && nodes[Root] == pml4
      requires DirectOk(mem.ram, owner, pml4, direct) && ViewOk(mem.ram, owner', view')
      requires IsLeaf(p) && IsEntry(nodes, p) && nodes[p.up] == table && p.i == i
      requires owner'.Keys == fa.out
      requires SameOwnersBut(owner, owner', p)
      requires forall f :: f in owner' && owner'[f] == DemandLeaf(p) ==> e.present && !e.alloc && e.base == f
      modifies mem
      ensures fa.Valid() && TreeInv(mem.ram, nodes, owner')
      ensures DirectOk(mem.ram, owner', pml4, direct) && ViewOk(mem.ram, owner', view')
      ensures mem.ram == LeafRam(old(mem.ram), nodes, p, e)
      ensures Leaf(mem.ram, nodes, p) == e
      ensures SameLeavesBut(old(mem.ram), nodes, mem.ram, nodes, p)
    {
      hide TreeInv, FrameAllocator.Valid, DirectOk, ViewOk, LeafRam, Leaf, SameLeavesBut;
      TableIsOut(mem.ram, nodes, owner, p.up);
      TablesInRam(mem.ram, nodes, owner);
      LeafRamIs(mem.ram, nodes, p, e);
      LeafKeeps(mem.ram, nodes, owner, p, e, owner');
      LeafDirect(mem.ram, nodes, owner, p, e, owner', direct);
      LeafView(mem.ram, nodes, owner, p, e, owner', view');
      WriteFrame(table, mem.ram[table][i := e]);
    }
  }

  lemma LeafRamIs(ram: Ram, nodes: Nodes, p: Path, e: Pte)
    requires IsEntry(nodes, p) && nodes[p.up] in ram
    ensures LeafRam(ram, nodes, p, e) == ram[nodes[p.up] := ram[nodes[p.up]][p.i := e]]
  {
  }

  lemma EmptyTree(ram: Ram, f: nat)
    requires f < FRAMES && f in ram && ram[f] == ZeroPage()
    ensures TreeInv(ram, map[Root := f], map[f := Table(Root)])
    ensures forall q :: IsLeaf(q) ==> Leaf(ram, map[Root := f], q) == ZeroPte
  {
    var nodes: Nodes := map[Root := f];
    forall p | IsEntry(nodes, p) && Depth(p) <= 3 && p != HUGE_SLOT
      ensures Linked(ram, nodes, p)
    {
      assert p.up == Root;
    }
  }

  lemma GrewDemand(nodes: Nodes, owner: Owners, nodes': Nodes, owner': Owners, p: Path)
    requires Grew(nodes, owner, nodes', owner')
    ensures IsDemand(owner', p) <==> IsDemand(owner, p)
    ensures !IsDemand(owner, p) ==> forall f :: f in owner' ==> owner'[f] != DemandLeaf(p)
  {
    if f :| f in owner' && owner'[f] == DemandLeaf(p) {
      assert f in owner;
    }
    if f :| f in owner && owner[f] == DemandLeaf(p) {
      assert owner'[f] == DemandLeaf(p);
    }
  }

  lemma NoDupOnce(s: seq<nat>, x: nat)
    requires NoDup(s) && x in s
    ensures multiset(s)[x] == 1
  {
    var i :| 0 <= i < |s| && s[i] == x;
    assert s == s[..i] + [x] + s[i + 1..];
    assert x !in s[..i] && x !in s[i + 1..];
  }

  lemma HugeSlotIffLeaf(va: nat)
    ensures IsLeaf(PathOf(va))
  {
    PathDepths(va);
  }

  lemma TableBelow(ram: Ram, nodes: Nodes, owner: Owners, c: Path)
    requires TreeInv(ram, nodes, owner) && c in nodes && c.At?
    ensures c.up in nodes && c.i < NUM_ENTRIES && nodes[c.up] in ram
    ensures ram[nodes[c.up]][c.i].base == nodes[c] && nodes[c] in ram
  {
    assert Linked(ram, nodes, c);
  }

  lemma NotPresentIsNotDemand(ram: Ram, nodes: Nodes, owner: Owners, p: Path)
    requires TreeInv(ram, nodes, owner) && !Leaf(ram, nodes, p).present
    ensures forall f :: f in owner ==> owner[f] != DemandLeaf(p)
  {
  }

  lemma NotViewed(ram: Ram, owner: Owners, view: View, p: Path)
    requires ViewOk(ram, owner, view) && forall f :: f in owner ==> owner[f] != DemandLeaf(p)
    ensures view - {p} == view
  {
    assert !IsDemand(owner, p);
  }

  lemma FrameInRam(fa: FrameAllocator, f: nat)
    requires fa.Valid() && f < FRAMES
    ensures f in fa.mem.ram
  {
  }

  lemma PendingIsNotDemand(ram: Ram, nodes: Nodes, owner: Owners, p: Path)
    requires TreeInv(ram, nodes, owner) && Leaf(ram, nodes, p).alloc
    ensures forall f :: f in owner ==> owner[f] != DemandLeaf(p)
  {
  }

  lemma DemandFrame(ram: Ram, nodes: Nodes, owner: Owners, p: Path)
    requires TreeInv(ram, nodes, owner) && IsDemand(owner, p)
    ensures IsEntry(nodes, p) && Leaf(ram, nodes, p).present && !Leaf(ram, nodes, p).alloc
    ensures Leaf(ram, nodes, p).base in owner && owner[Leaf(ram, nodes, p).base] == DemandLeaf(p)
    ensures forall f :: f in owner && owner[f] == DemandLeaf(p) ==> f == Leaf(ram, nodes, p).base
  {
    var f :| f in owner && owner[f] == DemandLeaf(p);
  }

  lemma TablesAreNot(ram: Ram, nodes: Nodes, owner: Owners, f: nat)
    requires TreeInv(ram, nodes, owner) && f in owner && !owner[f].Table?
    ensures forall p :: p in nodes ==> nodes[p] != f
  {
  }

  /** A frame held by a direct caller is no part of the tree. */
  lemma HeldKeeps(ram: Ram, nodes: Nodes, owner: Owners, f: nat)
    requires TreeInv(ram, nodes, owner) && f !in owner
    ensures TreeInv(ram, nodes, owner[f := Held])
  {
    hide Links;
  }

  lemma ReleaseKeeps(ram: Ram, nodes: Nodes, owner: Owners, f: nat)
    requires TreeInv(ram, nodes, owner) && f in owner && owner[f] == Held
    ensures TreeInv(ram, nodes, owner - {f})
  {
    hide Links;
  }

  lemma TablesInRam(ram: Ram, nodes: Nodes, owner: Owners)
    requires TreeInv(ram, nodes, owner)
    ensures forall p :: p in nodes ==> nodes[p] in ram
  {
  }

  lemma PathDepths(va: nat)
    ensures var p := PathOf(va);
      Depth(p.up.up.up) == 1 && Depth(p.up.up) == 2 && Depth(p.up) == 3 && Depth(p) == 4
      && p.up.up != HUGE_SLOT && p.up != HUGE_SLOT
  {
    var p := PathOf(va);
    assert Depth(p.up.up.up) == 1;
    assert Depth(p.up.up) == 2;
    assert Depth(p.up) == 3;
    assert Depth(HUGE_SLOT) == 1;
  }

  lemma RootIsEntry(ram: Ram, nodes: Nodes, owner: Owners, p: Path)
    requires TreeInv(ram, nodes, owner) && p.At? && p.up == Root && p.i < NUM_ENTRIES
    ensures IsEntry(nodes, p)
  {
  }

  lemma OutIsNotPool(mm: MemMap, cur: nat, pool: seq<nat>, out: set<nat>, f: nat)
    requires Accounts(mm, cur, pool, out) && f in out
    ensures f !in pool && f < FRAMES
  {
    assert f in Passed(mm, cur);
  }

  lemma TableIsOut(ram: Ram, nodes: Nodes, owner: Owners, p: Path)
    requires TreeInv(ram, nodes, owner) && p in nodes
    ensures nodes[p] in owner && owner[nodes[p]] == Table(p)
  {
  }

  lemma EntryInRam(ram: Ram, nodes: Nodes, owner: Owners, c: Path)
    requires TreeInv(ram, nodes, owner) && IsEntry(nodes, c)
    ensures nodes[c.up] in ram
    ensures forall f :: f !in owner ==> nodes[c.up] != f
  {
  }

  lemma LinkGrows(nodes: Nodes, owner: Owners, c: Path, f: nat)
    requires c !in nodes && f !in owner
    ensures Grew(nodes, owner, nodes[c := f], owner[f := Table(c)])
  {
  }

  lemma LinkRamIs(ram: Ram, nodes: Nodes, c: Path, f: nat, e: Pte)
    requires IsEntry(nodes, c) && nodes[c.up] in ram && nodes[c.up] != f
    ensures var cleared := ram[f := ZeroPage()]; var parent := nodes[c.up];
      LinkRam(ram, nodes, c, f, e) == cleared[parent := cleared[parent][c.i := e]]
  {
  }

  lemma LinkedTable(ram: Ram, nodes: Nodes, owner: Owners, c: Path)
    requires TreeInv(ram, nodes, owner) && IsEntry(nodes, c) && Depth(c) <= 3 && c != HUGE_SLOT
    requires ram[nodes[c.up]][c.i].present
    ensures c in nodes && nodes[c] == ram[nodes[c.up]][c.i].base < FRAMES
  {
    assert Linked(ram, nodes, c);
  }
}
