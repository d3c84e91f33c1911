/** The direct map of physical memory (mem/page_table.c, map_physical_memory): one
    table of huge pages below PML4 slot 256. */
module DirectMap {
  import opened Wrappers
  import opened MemDef
  import opened PfAlloc
  import opened PageTree
  import opened PageTable

  const GB: nat := 0x4000_0000

  /** The huge bit among an entry's attributes. */
  const HUGE: bits6 := 16

  predicate IsHuge(e: Pte) {
    e.attrs / 16 % 2 == 1
  }

  /** Where an access goes, and what it may do there: a right holds if both entries
      on the way grant it. */
  datatype Access = Access(phys: nat, writable: bool, user: bool, executable: bool)

  /** What the processor makes of an address that goes through slot 256, if it ends
      at a present huge page. */
  function Target(ram: Ram, pml4: nat, va: nat): (a: Option<Access>) {
    if pml4 !in ram || !ram[pml4][256].present || ram[pml4][256].base !in ram then None
    else
      var slot := ram[pml4][256];
      var e := ram[slot.base][va / GB % 512];
      if e.present && IsHuge(e) then
        Some(Access(4096 * e.base + va % GB, slot.writable && e.writable, slot.user && e.user,
                    !slot.noExecute && !e.noExecute))
      else None
  }

  /** The access at offset p of the direct map. */
  function ReadsAt(ram: Ram, pml4: nat, p: nat): (a: Option<Access>) {
    Target(ram, pml4, KERNEL_MMAP_START + p)
  }

  /** The kernel reads and writes byte p, and executes nothing there. */
  function DataAt(p: nat): (a: Access) {
    Access(p, true, false, false)
  }

  /** The end of the last region, up to the next gigabyte. */
  function Reach(mm: MemMap): (n: nat)
    requires 0 < mm.num <= |mm.regions|
  {
    (mm.regions[mm.num - 1].end + GB - 1) / GB * GB
  }

  lemma RoundedUp(end: nat, a: nat, p: nat)
    requires a % 4096 == 0 && a < end && p < a + 4096
    ensures p < (end + GB - 1) / GB * GB
  {
    var n := (end + GB - 1) / GB;
    PageBelow(a / 4096, 262_144 * n, p);
  }

  lemma PageBelow(c: nat, g: nat, p: nat)
    requires 4096 * c < 4096 * g && p < 4096 * c + 4096
    ensures p < 4096 * g
  {
  }

  lemma RoundedTo(end: nat, k: nat)
    requires end <= GB * k < end + GB
    ensures (end + GB - 1) / GB * GB == k * GB
  {
    var n := (end + GB - 1) / GB;
    assert n > k ==> n * GB >= (k + 1) * GB;
    assert n < k ==> (n + 1) * GB <= k * GB;
  }

  /** Every frame the allocator may hand out is within reach, to its last byte. */
  lemma UsableReached(mm: MemMap, f: nat, p: nat)
    requires MapOk(mm) && Usable(mm, f) && Addr(f) <= p < Addr(f) + 4096
    ensures p < Reach(mm)
  {
    hide MapOk;
    var j :| 0 <= j < mm.num && InRange(Addr(f), mm.regions[j]);
    LastEnds(mm, j);
    RoundedUp(mm.regions[mm.num - 1].end, Addr(f), p);
  }

  lemma LastEnds(mm: MemMap, j: nat)
    requires MapOk(mm) && j < mm.num
    ensures mm.num <= |mm.regions| && mm.regions[j].start < mm.regions[j].end
    ensures mm.regions[j].end <= mm.regions[mm.num - 1].end <= PHYS_LIMIT
  {
  }

  lemma LastFits(mm: MemMap)
    requires MapOk(mm)
    ensures 0 < mm.num <= |mm.regions| && mm.regions[mm.num - 1].end <= PHYS_LIMIT
  {
  }

  /** Page i of the map: gigabyte i, not executable. */
  function HugePage(e: Pte, addr: nat): (r: Pte)
    requires addr < PHYS_LIMIT
  {
    e.(base := addr / 4096, present := true, writable := true, noExecute := true,
       attrs := if IsHuge(e) then e.attrs else e.attrs + HUGE)
  }

  /** The first k gigabytes are mapped by the table, and no others. */
  ghost predicate Mapped(page: Page, k: nat) {
    forall i :: 0 <= i < 512 ==>
      if i < k then IsData(page[i]) && IsHuge(page[i]) && page[i].base == GB / 4096 * i else page[i] == ZeroPte
  }

  /** A present entry that grants the kernel all but execution. */
  predicate IsData(e: Pte) {
    e.present && e.writable && !e.user && e.noExecute
  }

  lemma NothingMapped()
    ensures Mapped(ZeroPage(), 0)
  {
  }

  lemma MapOneMore(page: Page, k: nat)
    requires Mapped(page, k) && k < 512
    ensures GB * k < PHYS_LIMIT && Mapped(page[k := HugePage(page[k], GB * k)], k + 1)
  {
  }

  lemma Gigabyte(x: nat, q: nat, r: nat)
    requires x == GB * q + r && r < GB
    ensures x / GB == q && x % GB == r
  {
  }

  lemma Offset(p: nat)
    requires p < PHYS_LIMIT
    ensures (KERNEL_MMAP_START + p) / GB % 512 == p / GB < 512 && (KERNEL_MMAP_START + p) % GB == p % GB
  {
    var q, r := p / GB, p % GB;
    Gigabyte(KERNEL_MMAP_START + p, 0x3_fffe_0000 + q, r);
    assert (512 * 0x1ff_ff00 + q) % 512 == q;
  }

  lemma Below(q: nat, r: nat, k: nat)
    requires r < GB
    ensures q < k <==> GB * q + r < k * GB
  {
  }

  /** So each address of the direct map leads to the physical address at its offset. */
  lemma MappedTarget(ram: Ram, pml4: nat, table: nat, k: nat, p: nat)
    requires pml4 in ram && table in ram && LeadsTo(ram[pml4][256], table)
    requires Mapped(ram[table], k) && p < PHYS_LIMIT
    ensures ReadsAt(ram, pml4, p) == if p < k * GB then Some(DataAt(p)) else None
  {
    Offset(p);
    Below(p / GB, p % GB, k);
    MappedEntry(ram[table], k, p / GB);
    hide Mapped, IsHuge;
  }

  lemma MappedEntry(page: Page, k: nat, i: nat)
    requires Mapped(page, k) && i < 512
    ensures if i < k then IsData(page[i]) && IsHuge(page[i]) && 4096 * page[i].base == GB * i else !page[i].present
  {
  }

  /** Slot 256 is the one entry above the leaves that the tree does not account for. */
  lemma SlotKeeps(ram: Ram, nodes: Nodes, owner: Owners, e: Pte)
    requires TreeInv(ram, nodes, owner)
    ensures nodes[Root] in ram
    ensures TreeInv(ram[nodes[Root] := ram[nodes[Root]][256 := e]], nodes, owner)
    ensures SameLeaves(ram, nodes, ram[nodes[Root] := ram[nodes[Root]][256 := e]], nodes)
  {
    var root := nodes[Root];
    var ram' := ram[root := ram[root][256 := e]];
    assert Shape(ram', nodes);
    forall p | IsEntry(nodes, p) && p != HUGE_SLOT
      ensures Entry(ram', nodes, p) == Entry(ram, nodes, p)
    {
      assert owner[nodes[p.up]] == Table(p.up) && owner[root] == Table(Root);
    }
    assert Depth(HUGE_SLOT) == 1;
    forall p | IsEntry(nodes, p) && Depth(p) <= 3 && p != HUGE_SLOT
      ensures Linked(ram', nodes, p)
    {
      assert Linked(ram, nodes, p);
    }
  }

  lemma RootIsOut(ram: Ram, nodes: Nodes, owner: Owners)
    requires TreeInv(ram, nodes, owner)
    ensures Root in nodes && nodes[Root] in ram && nodes[Root] in owner && owner[nodes[Root]] == Table(Root)
  {
  }

  /** memset and the stores to a frame the kernel holds. */
  method WriteHeld(space: AddressSpace, f: nat, page: Page)
    requires space.Valid() && f in space.owner && space.owner[f] == Held
    requires space.direct.Some? ==> f != space.direct.value.table
    modifies space.mem
    ensures space.Valid() && space.mem.ram == old(space.mem.ram)[f := page]
    ensures SameLeaves(old(space.mem.ram), space.nodes, space.mem.ram, space.nodes)
  {
    hide TreeInv, FrameAllocator.Valid, SameLeaves;
    TablesAreNot(space.mem.ram, space.nodes, space.owner, f);
    TablesInRam(space.mem.ram, space.nodes, space.owner);
    space.WriteFrame(f, page);
    TablesUnchanged(old(space.mem.ram), space.mem.ram, space.nodes, space.owner);
    OtherDirect(old(space.mem.ram), space.mem.ram, space.nodes, space.owner, space.direct, f);
    ViewElsewhere(old(space.mem.ram), space.mem.ram, space.owner, space.owner, space.view, f);
  }

  /** The entry for slot 256 that leads to the table. */
  function SlotEntry(e: Pte, table: nat): (r: Pte)
    requires table < FRAMES
  {
    e.(base := table, present := true, writable := true, noExecute := true)
  }

  /** A slot that leads to the table and lets its pages be written. */
  predicate LeadsTo(e: Pte, table: nat) {
    e.present && e.base == table && e.writable && e.noExecute
  }

  /** The store to slot 256: from here on the invariant keeps the direct map. */
  method LinkSlot(space: AddressSpace, table: nat)
    requires space.Valid() && table < FRAMES && table in space.mem.ram
    requires table in space.owner && space.owner[table] == Held
    modifies space.mem, space`direct
    ensures space.Valid() && space.pml4 in space.mem.ram
    ensures space.direct.Some? && space.direct.value.table == table
    ensures space.direct.value.page == old(space.mem.ram)[table]
    ensures LeadsTo(space.direct.value.entry, table)
    ensures forall f :: f in old(space.mem.ram) && f != space.pml4 ==>
              f in space.mem.ram && space.mem.ram[f] == old(space.mem.ram)[f]
    ensures SameLeaves(old(space.mem.ram), space.nodes, space.mem.ram, space.nodes)
  {
    hide TreeInv, FrameAllocator.Valid, SameLeaves;
    RootIsOut(space.mem.ram, space.nodes, space.owner);
    TablesAreNot(space.mem.ram, space.nodes, space.owner, table);
    var page := space.mem.ram[space.pml4];
    var e := SlotEntry(page[256], table);
    SlotKeeps(space.mem.ram, space.nodes, space.owner, e);
    space.WriteFrame(space.pml4, page[256 := e]);
    ViewElsewhere(old(space.mem.ram), space.mem.ram, space.owner, space.owner, space.view, space.pml4);
    space.direct := Some(DirectTable(table, space.mem.ram[table], e));
  }

  /** A frame that the allocator does not hand out is in nobody's way. */
  lemma ForeignFrame(fa: FrameAllocator, f: nat)
    requires fa.Valid() && !Usable(fa.mmap, f)
    ensures f !in fa.pool && f !in fa.out
  {
    hide MapOk, BumpInv, FreeList;
    assert f !in Passed(fa.mmap, fa.currentPage);
  }

  /** The store to slot 256 of the boot loader's table, a frame of the kernel's image. */
  method LinkBoot(space: AddressSpace, boot: nat, table: nat)
    requires space.Valid() && table < FRAMES && boot in space.mem.ram && !Usable(space.fa.mmap, boot)
    modifies space.mem
    ensures space.Valid() && boot !in space.owner
    ensures boot in space.mem.ram && boot in old(space.mem.ram)
    ensures space.mem.ram == old(space.mem.ram)[boot := space.mem.ram[boot]]
    ensures LeadsTo(space.mem.ram[boot][256], table)
    ensures SameLeaves(old(space.mem.ram), space.nodes, space.mem.ram, space.nodes)
  {
    hide TreeInv, SameLeaves, MapOk, BumpInv, Accounts, FreeList, Usable;
    var fa, ram := space.fa, space.mem.ram;
    ForeignFrame(fa, boot);
    TablesInRam(ram, space.nodes, space.owner);
    NoTableThere(ram, space.nodes, space.owner, boot);
    RootIsOut(ram, space.nodes, space.owner);
    space.mem.ram := ram[boot := ram[boot][256 := SlotEntry(ram[boot][256], table)]];
    ViewElsewhere(ram, space.mem.ram, space.owner, space.owner, space.view, boot);
    FreeListInRam(ram, fa.freePool, fa.pool);
    FreeListFrame(ram, space.mem.ram, fa.freePool, fa.pool);
    TablesUnchanged(ram, space.mem.ram, space.nodes, space.owner);
  }

  lemma NoTableThere(ram: Ram, nodes: Nodes, owner: Owners, f: nat)
    requires TreeInv(ram, nodes, owner) && f !in owner
    ensures forall p :: p in nodes ==> nodes[p] != f
  {
  }

  /** What the direct map looks like once it is in place. */
  ghost predicate DirectMapped(mm: MemMap, ram: Ram, pml4: nat)
    requires 0 < mm.num <= |mm.regions|
  {
    forall p: nat :: p < PHYS_LIMIT ==>
      ReadsAt(ram, pml4, p) == if p < Reach(mm) then Some(DataAt(p)) else None
  }

  /** What makes it so. */
  ghost predicate Reaches(mm: MemMap, d: DirectTable)
    requires 0 < mm.num <= |mm.regions|
  {
    LeadsTo(d.entry, d.table) && exists k: nat :: k * GB == Reach(mm) && Mapped(d.page, k)
  }

  lemma TableReaches(mm: MemMap, ram: Ram, pml4: nat, d: DirectTable)
    requires 0 < mm.num <= |mm.regions| && Reaches(mm, d)
    requires pml4 in ram && LeadsTo(ram[pml4][256], d.table)
    requires d.table in ram && ram[d.table] == d.page
    ensures DirectMapped(mm, ram, pml4)
  {
    hide Mapped, ReadsAt, Reach;
    var k: nat :| k * GB == Reach(mm) && Mapped(d.page, k);
    forall p: nat | p < PHYS_LIMIT
      ensures ReadsAt(ram, pml4, p) == if p < Reach(mm) then Some(DataAt(p)) else None
    {
      MappedTarget(ram, pml4, d.table, k, p);
    }
  }

  /** Every operation of the address space keeps Valid() and leaves `direct` alone, so
      the direct map is there in every state behind map_physical_memory. */
  lemma DirectStays(space: AddressSpace)
    requires space.Valid() && space.direct.Some?
    requires 0 < space.fa.mmap.num <= |space.fa.mmap.regions| && Reaches(space.fa.mmap, space.direct.value)
    ensures DirectMapped(space.fa.mmap, space.mem.ram, space.pml4)
  {
    hide FrameAllocator.Valid, TreeInv, Mapped, DirectMapped;
    TableReaches(space.fa.mmap, space.mem.ram, space.pml4, space.direct.value);
  }

  /** So every byte of every frame the allocator may hand out is reached. */
  lemma FrameIsReached(mm: MemMap, ram: Ram, pml4: nat, f: nat, p: nat)
    requires MapOk(mm) && DirectMapped(mm, ram, pml4) && Usable(mm, f) && Addr(f) <= p < Addr(f) + 4096
    ensures ReadsAt(ram, pml4, p) == Some(DataAt(p))
  {
    hide MapOk, Usable, ReadsAt, Reach;
    LastFits(mm);
    UsableReached(mm, f, p);
    UsableBound(mm, f);
  }

  lemma UsableBound(mm: MemMap, f: nat)
    requires Usable(mm, f)
    ensures Addr(f) + 4096 <= PHYS_LIMIT
  {
  }

  /** The table's frame and its stores. memset ignores NULL, so frame 0 must not be
      the one that is handed out. */
  method HugePageTable(space: AddressSpace) returns (pf: nat, ghost k: nat)
    requires space.Valid() && space.fa.Available() > 0 && MapOk(space.fa.mmap)
    requires Usable(space.fa.mmap, 0) ==> 0 in space.owner
    modifies space`owner, space.fa, space.mem
    ensures space.Valid() && FrameOf(pf) !in old(space.owner) && FrameOf(pf) < FRAMES
    ensures space.owner == old(space.owner)[FrameOf(pf) := Held]
    ensures SameLeaves(old(space.mem.ram), space.nodes, space.mem.ram, space.nodes)
    ensures FrameOf(pf) in space.mem.ram && Mapped(space.mem.ram[FrameOf(pf)], k)
    ensures forall f :: f in old(space.mem.ram) ==> f in space.mem.ram
    ensures k * GB == Reach(space.fa.mmap)
    ensures space.Total() == old(space.Total())
  {
    hide AddressSpace.Valid, SameLeaves, Mapped, HugePage, Usable, MapOk;
    NotTheTable(space);
    pf := space.AllocFrame();
    ghost var ram0, nodes, owner := space.mem.ram, space.nodes, space.owner;
    var f := FrameOf(pf);
    NothingMapped();
    if pf != 0 {
      WriteHeld(space, f, ZeroPage());
    }
    LastFits(space.fa.mmap);
    var end := space.fa.mmap.regions[space.fa.mmap.num - 1].end;
    var addr, p3Index := 0, 0;
    while addr < end
      invariant addr == GB * p3Index && p3Index <= 512 && addr < end + GB
      invariant space.Valid() && f in space.mem.ram && Mapped(space.mem.ram[f], p3Index)
      invariant SameLeaves(ram0, nodes, space.mem.ram, nodes)
      invariant forall g :: g in ram0 ==> g in space.mem.ram
      decreases 512 - p3Index
      modifies space.mem
    {
      ghost var ram1 := space.mem.ram;
      MapOneMore(space.mem.ram[f], p3Index);
      WriteHeld(space, f, space.mem.ram[f][p3Index := HugePage(space.mem.ram[f][p3Index], addr)]);
      SameLeavesTrans(ram0, nodes, ram1, nodes, space.mem.ram, nodes);
      addr, p3Index := addr + GB, p3Index + 1;
    }
    k := p3Index;
    RoundedTo(end, k);
  }

  lemma NotTheTable(space: AddressSpace)
    requires space.Valid()
    ensures space.direct.Some? ==> space.direct.value.table in space.owner
  {
  }

  /** map_physical_memory: afterwards all of the machine's memory, and no more than
      the gigabytes it lies in, is read and written through the direct map, of the
      boot loader's tables as well as of the new ones. */
  method MapPhysicalMemory(space: AddressSpace, boot: nat) returns (pf: nat)
    requires space.Valid() && space.fa.Available() > 0 && MapOk(space.fa.mmap)
    requires Usable(space.fa.mmap, 0) ==> 0 in space.owner
    requires boot in space.mem.ram && !Usable(space.fa.mmap, boot)
    modifies space`owner, space`direct, space.fa, space.mem
    ensures space.Valid() && FrameOf(pf) !in old(space.owner)
    ensures space.owner == old(space.owner)[FrameOf(pf) := Held]
    ensures SameLeaves(old(space.mem.ram), space.nodes, space.mem.ram, space.nodes)
    ensures space.direct.Some? && Reaches(space.fa.mmap, space.direct.value)
    ensures DirectMapped(space.fa.mmap, space.mem.ram, space.pml4)
    ensures DirectMapped(space.fa.mmap, space.mem.ram, boot)
    ensures space.Total() == old(space.Total())
  {
    hide AddressSpace.Valid, SameLeaves, Mapped, Usable, MapOk, Reach, DirectMapped;
    ghost var k;
    ghost var ram0, nodes := space.mem.ram, space.nodes;
    LastFits(space.fa.mmap);
    pf, k := HugePageTable(space);
    ghost var ram1 := space.mem.ram;
    LinkBoot(space, boot, FrameOf(pf));
    SameLeavesTrans(ram0, nodes, ram1, nodes, space.mem.ram, nodes);
    ghost var ram2 := space.mem.ram;
    PmlIsNot(space, FrameOf(pf));
    LinkSlot(space, FrameOf(pf));
    SameLeavesTrans(ram0, nodes, ram2, nodes, space.mem.ram, nodes);
    DirectStays(space);
    TableReaches(space.fa.mmap, space.mem.ram, boot, space.direct.value);
  }

  lemma PmlIsNot(space: AddressSpace, f: nat)
    requires space.Valid() && f in space.owner && space.owner[f] == Held
    ensures f != space.pml4 && space.pml4 in space.owner
  {
  }

  /** setup_pml4 up to the map of the sections, on the allocator as it was set up. */
  method SetupPml4(fa: FrameAllocator, boot: nat) returns (space: AddressSpace)
    requires fa.Valid() && fa.out == {} && fa.pool == [] && fa.Available() >= 2
    requires boot < FRAMES && !Usable(fa.mmap, boot)
    modifies fa, fa.mem
    ensures fresh(space) && space.Valid() && space.fa == fa && MapOk(fa.mmap)
    ensures space.direct.Some? && Reaches(fa.mmap, space.direct.value)
    ensures DirectMapped(fa.mmap, space.mem.ram, space.pml4)
    ensures forall q :: IsLeaf(q) ==> Leaf(space.mem.ram, space.nodes, q) == ZeroPte
    ensures space.Total() == old(fa.Available())
  {
    hide AddressSpace.Valid, TreeInv, Leaf, Usable, FrameAllocator.Valid, DirectMapped, Reaches;
    AllAhead(fa, 0);
    space := new AddressSpace(fa);
    AllInRam(space, boot);
    var pf := MapPhysicalMemory(space, boot);
  }

  lemma AllInRam(space: AddressSpace, f: nat)
    requires space.Valid() && f < FRAMES
    ensures f in space.mem.ram
  {
  }

  lemma AllAhead(fa: FrameAllocator, f: nat)
    requires fa.Valid() && fa.out == {} && fa.pool == []
    ensures MapOk(fa.mmap)
    ensures Usable(fa.mmap, f) ==> f in Ahead(fa.mmap, fa.currentPage)
  {
    hide MapOk, BumpInv, FreeList;
    assert f !in Passed(fa.mmap, fa.currentPage);
  }
}
