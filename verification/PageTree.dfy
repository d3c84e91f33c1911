/** The value-level theory of the 4-level page table: which frames form the tree,
    what the leaf entry of a page is, and who owns every frame handed out.

    A path names a table or a leaf entry by the indices that lead to it. Tables
    have depth 0 (the PML4) to 3 (a page table); leaf entries have depth 4. */
module PageTree {
  import opened MemDef
  import opened Wrappers

  datatype Path = Root | At(up: Path, i: nat)

  function Depth(p: Path): (d: nat) {
    match p
    case Root => 0
    case At(up, _) => 1 + Depth(up)
  }

  /** PML4[256] holds the direct map of physical memory in huge pages. */
  const HUGE_SLOT: Path := At(Root, 256)

  /** The four 9-bit indices of a virtual address, outermost first. */
  function PathOf(va: nat): (p: Path) {
    var page := va / 4096;
    var table := page / 512;
    var directory := table / 512;
    var pointers := directory / 512;
    At(At(At(At(Root, pointers % 512), directory % 512), table % 512), page % 512)
  }

  /** The number that the indices of a path spell, the PML4's first. */
  function Spelled(p: Path): (n: nat) {
    match p
    case Root => 0
    case At(up, i) => 512 * Spelled(up) + i
  }

  /** The path of an address spells the page number in its low 48 bits: the PML4 takes
      bits 39 to 47, and the page table bits 12 to 20. */
  lemma PathSpells(va: nat)
    ensures var p := PathOf(va);
      && p.up.up.up.up == Root
      && p.i < 512 && p.up.i < 512 && p.up.up.i < 512 && p.up.up.up.i < 512
      && Spelled(p) == va / 4096 % 0x10_0000_0000
      && va % 0x1_0000_0000_0000 == 4096 * Spelled(p) + va % 4096
  {
    var page := va / 4096;
    var table := page / 512;
    var directory := table / 512;
    FrontDigits(page);
    FrontDigits(table);
    FrontDigits(directory);
    SpelledBy(directory / 512 % 512, directory % 512, table % 512, page % 512);
    LastDigit(va);
  }

  lemma SpelledBy(a: nat, b: nat, c: nat, d: nat)
    ensures Spelled(At(At(At(At(Root, a), b), c), d)) == 512 * (512 * (512 * a + b) + c) + d
  {
    assert Spelled(At(Root, a)) == a;
    assert Spelled(At(At(Root, a), b)) == 512 * a + b;
  }

  /** Splitting off the last digit leaves the remainders of the front ones. */
  lemma FrontDigits(n: nat)
    ensures n % 0x4_0000 == 512 * (n / 512 % 512) + n % 512
    ensures n % 0x800_0000 == 512 * (n / 512 % 0x4_0000) + n % 512
    ensures n % 0x10_0000_0000 == 512 * (n / 512 % 0x800_0000) + n % 512
  {
    var q, r := n / 512, n % 512;
    Digits2(n, q / 512, q % 512, r);
    Digits3(n, q / 0x4_0000, q % 0x4_0000, r);
    Digits4(n, q / 0x800_0000, q % 0x800_0000, r);
  }

  lemma Digits2(n: nat, t: nat, u: nat, r: nat)
    requires n == 512 * (512 * t + u) + r && u < 512 && r < 512
    ensures n % 0x4_0000 == 512 * u + r
  {
    assert n == 0x4_0000 * t + (512 * u + r);
  }

  lemma Digits3(n: nat, t: nat, u: nat, r: nat)
    requires n == 512 * (0x4_0000 * t + u) + r && u < 0x4_0000 && r < 512
    ensures n % 0x800_0000 == 512 * u + r
  {
    assert n == 0x800_0000 * t + (512 * u + r);
  }

  lemma Digits4(n: nat, t: nat, u: nat, r: nat)
    requires n == 512 * (0x800_0000 * t + u) + r && u < 0x800_0000 && r < 512
    ensures n % 0x10_0000_0000 == 512 * u + r
  {
    assert n == 0x10_0000_0000 * t + (512 * u + r);
  }

  lemma LastDigit(va: nat)
    ensures va % 0x1_0000_0000_0000 == 4096 * (va / 4096 % 0x10_0000_0000) + va % 4096
  {
    var q, r := va / 4096, va % 4096;
    Digits5(va, q / 0x10_0000_0000, q % 0x10_0000_0000, r);
  }

  lemma Digits5(n: nat, t: nat, u: nat, r: nat)
    requires n == 4096 * (0x10_0000_0000 * t + u) + r && u < 0x10_0000_0000 && r < 4096
    ensures n % 0x1_0000_0000_0000 == 4096 * u + r
  {
    assert n == 0x1_0000_0000_0000 * t + (4096 * u + r);
  }

  /** Bits 48 to 63 repeat bit 47. */
  predicate Canonical(va: nat) {
    va < 0x8000_0000_0000 || 0xffff_8000_0000_0000 <= va < TWO_64
  }

  /** Index splitting identifies pages: two canonical addresses share a path
      exactly when they lie in the same page. */
  lemma PathOfIff(a: nat, b: nat)
    requires Canonical(a) && Canonical(b)
    ensures PathOf(a) == PathOf(b) <==> a / 4096 == b / 4096
  {
    if PathOf(a) == PathOf(b) {
      SplitInjective(a / 4096, b / 4096);
    }
  }

  lemma SplitInjective(a: nat, b: nat)
    requires a < 0x8_0000_0000 || 0xf_fff8_0000_0000 <= a < 0x10_0000_0000_0000
    requires b < 0x8_0000_0000 || 0xf_fff8_0000_0000 <= b < 0x10_0000_0000_0000
    requires a % 512 == b % 512 && a / 512 % 512 == b / 512 % 512
    requires a / 512 / 512 % 512 == b / 512 / 512 % 512
    requires a / 512 / 512 / 512 % 512 == b / 512 / 512 / 512 % 512
    ensures a == b
  {
    var a3, b3 := a / 512 / 512 / 512, b / 512 / 512 / 512;
    assert a3 < 256 || 0x1ff_ff00 <= a3 < 0x200_0000;
    assert b3 < 256 || 0x1ff_ff00 <= b3 < 0x200_0000;
    assert a3 == b3;
    assert a / 512 / 512 == b / 512 / 512;
    assert a / 512 == b / 512;
  }

  /** The pages of the direct map are those below HUGE_SLOT. */
  predicate InDirectMap(va: nat) {
    KERNEL_MMAP_START <= va < KERNEL_HEAP_START
  }

  lemma HugeSlotIff(va: nat)
    requires Canonical(va)
    ensures PathOf(va).up.up.up == HUGE_SLOT <==> InDirectMap(va)
    ensures IsLeaf(PathOf(va))
  {
    var p := PathOf(va);
    assert Depth(p.up.up.up) == 1;
    assert Depth(p.up) == 3;
    var pointers := va / 4096 / 512 / 512 / 512;
    assert pointers == va / 0x80_0000_0000;
    assert pointers < 256 || 0x1ff_ff00 <= pointers < 0x200_0000;
    assert pointers % 512 == 256 <==> pointers == 0x1ff_ff00;
  }

  type Nodes = map<Path, nat>

  /** Who holds a frame that the allocator has handed out. */
  datatype Owner = Table(path: Path) | DemandLeaf(path: Path) | Held

  type Owners = map<nat, Owner>

  /** p names an entry of an existing table. */
  ghost predicate IsEntry(nodes: Nodes, p: Path) {
    p.At? && p.up in nodes && p.i < NUM_ENTRIES
  }

  ghost predicate IsLeaf(p: Path) {
    Depth(p) == 4
  }

  ghost function Entry(ram: Ram, nodes: Nodes, p: Path): (e: Pte)
    requires IsEntry(nodes, p) && nodes[p.up] in ram
  {
    ram[nodes[p.up]][p.i]
  }

  /** The flat map: the leaf entry of a page, all zero where no table leads. */
  ghost function Leaf(ram: Ram, nodes: Nodes, p: Path): (e: Pte) {
    if IsEntry(nodes, p) && nodes[p.up] in ram then ram[nodes[p.up]][p.i] else ZeroPte
  }

  /** An interior entry is present exactly if a table hangs below it, and then
      holds that table's frame number. An absent one is still all zero. */
  ghost predicate Linked(ram: Ram, nodes: Nodes, p: Path)
    requires IsEntry(nodes, p) && nodes[p.up] in ram
  {
    var e := Entry(ram, nodes, p);
    if e.present then p in nodes && nodes[p] == e.base else p !in nodes && e == ZeroPte
  }

  ghost predicate Shape(ram: Ram, nodes: Nodes) {
    && Root in nodes
    && (forall p :: p in nodes ==> Depth(p) <= 3 && nodes[p] < FRAMES && nodes[p] in ram)
    && (forall p :: p in nodes && p.At? ==> p.up in nodes && p.i < NUM_ENTRIES && p != HUGE_SLOT)
  }

  ghost predicate Links(ram: Ram, nodes: Nodes)
    requires Shape(ram, nodes)
  {
    forall p :: IsEntry(nodes, p) && Depth(p) <= 3 && p != HUGE_SLOT ==> Linked(ram, nodes, p)
  }

  /** A demand-paged leaf: present, no longer pending, and holding frame f. */
  ghost predicate Backs(ram: Ram, nodes: Nodes, p: Path, f: nat) {
    && IsLeaf(p) && IsEntry(nodes, p)
    && var e := Leaf(ram, nodes, p);
       e.present && !e.alloc && e.base == f
  }

  /** Every table is owned by its one place in the tree, and every demand leaf's
      frame by its one page. */
  ghost predicate Owned(ram: Ram, nodes: Nodes, owner: Owners) {
    && (forall p :: p in nodes ==> nodes[p] in owner && owner[nodes[p]] == Table(p))
    && (forall f :: f in owner && owner[f].Table? ==> owner[f].path in nodes && nodes[owner[f].path] == f)
    && (forall f :: f in owner && owner[f].DemandLeaf? ==> Backs(ram, nodes, owner[f].path, f))
  }

  ghost predicate TreeInv(ram: Ram, nodes: Nodes, owner: Owners) {
    Shape(ram, nodes) && Links(ram, nodes) && Owned(ram, nodes, owner)
  }

  ghost predicate IsDemand(owner: Owners, p: Path) {
    exists f :: f in owner && owner[f] == DemandLeaf(p)
  }

  /** All pages other than p read the same through both trees. */
  ghost predicate SameLeavesBut(ram: Ram, nodes: Nodes, ram': Ram, nodes': Nodes, p: Path) {
    forall q :: IsLeaf(q) && q != p ==> Leaf(ram', nodes', q) == Leaf(ram, nodes, q)
  }

  ghost predicate SameLeaves(ram: Ram, nodes: Nodes, ram': Ram, nodes': Nodes) {
    forall q :: IsLeaf(q) ==> Leaf(ram', nodes', q) == Leaf(ram, nodes, q)
  }

  /** Virtual memory: what the pages hold that have a frame of their own. */
  type View = map<Path, Page>

  ghost predicate ViewOk(ram: Ram, owner: Owners, view: View) {
    && (forall f :: f in owner && owner[f].DemandLeaf? ==>
          f in ram && owner[f].path in view && view[owner[f].path] == ram[f])
    && (forall p :: p in view ==> IsDemand(owner, p))
  }

  /** The direct map: its table, a frame the kernel holds, what the table contains,
      and what slot 256 does. */
  datatype DirectTable = DirectTable(table: nat, page: Page, entry: Pte)

  /** Once there is a direct map, it stays as it was made. */
  ghost predicate DirectOk(ram: Ram, owner: Owners, pml4: nat, d: Option<DirectTable>) {
    d.Some? ==>
      && d.value.table in owner && owner[d.value.table] == Held
      && d.value.table in ram && ram[d.value.table] == d.value.page
      && pml4 in ram && ram[pml4][256] == d.value.entry
  }

  // ----- consequences of the invariant -----

  /** No table has two parents, no two pages share a demand frame, and no demand
      frame is a table. */
  lemma Exclusive(ram: Ram, nodes: Nodes, owner: Owners)
    requires TreeInv(ram, nodes, owner)
    ensures forall p, q :: p in nodes && q in nodes && nodes[p] == nodes[q] ==> p == q
    ensures forall p, q :: IsDemand(owner, p) && IsDemand(owner, q) && p != q ==>
              Leaf(ram, nodes, p).base != Leaf(ram, nodes, q).base
    ensures forall p, q :: IsDemand(owner, p) && q in nodes ==> Leaf(ram, nodes, p).base != nodes[q]
  {
    forall p | IsDemand(owner, p)
      ensures Leaf(ram, nodes, p).base in owner && owner[Leaf(ram, nodes, p).base] == DemandLeaf(p)
    {
      var f :| f in owner && owner[f] == DemandLeaf(p);
    }
  }

  // ----- changes of memory -----

  /** Writing anything into frames that are not tables leaves the tree alone. */
  lemma TablesUnchanged(ram: Ram, ram': Ram, nodes: Nodes, owner: Owners)
    requires TreeInv(ram, nodes, owner)
    requires forall p :: p in nodes ==> nodes[p] in ram' && ram'[nodes[p]] == ram[nodes[p]]
    ensures TreeInv(ram', nodes, owner)
    ensures SameLeaves(ram, nodes, ram', nodes)
  {
    assert Shape(ram', nodes);
    forall p | IsEntry(nodes, p) && Depth(p) <= 3 && p != HUGE_SLOT
      ensures Linked(ram', nodes, p)
    {
      assert Linked(ram, nodes, p);
    }
  }

  /** Memory after hanging a fresh zeroed table f below entry c. */
  ghost function LinkRam(ram: Ram, nodes: Nodes, c: Path, f: nat, e: Pte): (r: Ram)
    requires IsEntry(nodes, c) && nodes[c.up] in ram
  {
    ram[f := ZeroPage()][nodes[c.up] := ram[nodes[c.up]][c.i := e]]
  }

  ghost predicate CanLink(ram: Ram, nodes: Nodes, owner: Owners, c: Path, f: nat, e: Pte) {
    && TreeInv(ram, nodes, owner)
    && IsEntry(nodes, c) && Depth(c) <= 3 && c != HUGE_SLOT
    && !Entry(ram, nodes, c).present
    && f !in owner && f < FRAMES && f in ram
    && e.present && e.base == f
  }

  lemma LinkShape(ram: Ram, nodes: Nodes, owner: Owners, c: Path, f: nat, e: Pte)
    requires CanLink(ram, nodes, owner, c, f, e)
    ensures c !in nodes && Shape(LinkRam(ram, nodes, c, f, e), nodes[c := f])
  {
    assert Linked(ram, nodes, c);
  }

  /** How each entry reads after the link: the new one is e, those of the new
      table are zero, the others are as before. */
  lemma LinkEntry(ram: Ram, nodes: Nodes, owner: Owners, c: Path, f: nat, e: Pte, p: Path)
    requires CanLink(ram, nodes, owner, c, f, e)
    requires IsEntry(nodes[c := f], p)
    ensures c !in nodes && Shape(LinkRam(ram, nodes, c, f, e), nodes[c := f])
    ensures Entry(LinkRam(ram, nodes, c, f, e), nodes[c := f], p) ==
            if p == c then e else if p.up == c then ZeroPte else Leaf(ram, nodes, p)
  {
    LinkShape(ram, nodes, owner, c, f, e);
    if p.up != c {
      assert owner[nodes[p.up]] == Table(p.up) && owner[nodes[c.up]] == Table(c.up);
      assert nodes[p.up] != f;
    } else {
      assert nodes[c.up] in owner;
      assert nodes[c.up] != f;
    }
  }

  lemma LinkLinks(ram: Ram, nodes: Nodes, owner: Owners, c: Path, f: nat, e: Pte)
    requires CanLink(ram, nodes, owner, c, f, e)
    ensures Shape(LinkRam(ram, nodes, c, f, e), nodes[c := f])
    ensures Links(LinkRam(ram, nodes, c, f, e), nodes[c := f])
  {
    LinkShape(ram, nodes, owner, c, f, e);
    var ram', nodes' := LinkRam(ram, nodes, c, f, e), nodes[c := f];
    forall p | IsEntry(nodes', p) && Depth(p) <= 3 && p != HUGE_SLOT
      ensures Linked(ram', nodes', p)
    {
      LinkEntry(ram, nodes, owner, c, f, e, p);
      if p != c && p.up != c {
        assert Linked(ram, nodes, p);
      }
    }
  }

  lemma LinkLeaves(ram: Ram, nodes: Nodes, owner: Owners, c: Path, f: nat, e: Pte)
    requires CanLink(ram, nodes, owner, c, f, e)
    ensures SameLeaves(ram, nodes, LinkRam(ram, nodes, c, f, e), nodes[c := f])
  {
    LinkShape(ram, nodes, owner, c, f, e);
    var ram', nodes' := LinkRam(ram, nodes, c, f, e), nodes[c := f];
    forall q | IsLeaf(q)
      ensures Leaf(ram', nodes', q) == Leaf(ram, nodes, q)
    {
      if IsEntry(nodes', q) {
        LinkEntry(ram, nodes, owner, c, f, e, q);
      }
    }
  }

  /** Hanging a fresh zeroed table below an absent entry keeps the invariant and
      every page's leaf. */
  lemma LinkKeeps(ram: Ram, nodes: Nodes, owner: Owners, c: Path, f: nat, e: Pte)
    requires CanLink(ram, nodes, owner, c, f, e)
    ensures c !in nodes
    ensures TreeInv(LinkRam(ram, nodes, c, f, e), nodes[c := f], owner[f := Table(c)])
    ensures SameLeaves(ram, nodes, LinkRam(ram, nodes, c, f, e), nodes[c := f])
  {
    LinkShape(ram, nodes, owner, c, f, e);
    LinkLinks(ram, nodes, owner, c, f, e);
    LinkLeaves(ram, nodes, owner, c, f, e);
  }

  /** Nor does it touch the direct map. */
  lemma LinkDirect(ram: Ram, nodes: Nodes, owner: Owners, c: Path, f: nat, e: Pte, d: Option<DirectTable>)
    requires CanLink(ram, nodes, owner, c, f, e) && DirectOk(ram, owner, nodes[Root], d)
    ensures DirectOk(LinkRam(ram, nodes, c, f, e), owner[f := Table(c)], nodes[Root], d)
  {
    assert owner[nodes[Root]] == Table(Root) && owner[nodes[c.up]] == Table(c.up);
  }

  lemma LinkView(ram: Ram, nodes: Nodes, owner: Owners, c: Path, f: nat, e: Pte, view: View)
    requires CanLink(ram, nodes, owner, c, f, e) && ViewOk(ram, owner, view)
    ensures ViewOk(LinkRam(ram, nodes, c, f, e), owner[f := Table(c)], view)
  {
    assert owner[nodes[c.up]] == Table(c.up);
    hide TreeInv, ViewOk;
    var owner', ram1 := owner[f := Table(c)], ram[f := ZeroPage()];
    ViewElsewhere(ram, ram1, owner, owner', view, f);
    ViewElsewhere(ram1, LinkRam(ram, nodes, c, f, e), owner', owner', view, nodes[c.up]);
  }

  // ----- access rights -----

  /** What the entries above and at p allow: each level can only take rights away. */
  datatype Rights = Rights(user: bool, writable: bool)

  function Meet(a: Rights, b: Rights): (r: Rights) {
    Rights(a.user && b.user, a.writable && b.writable)
  }

  function RightsOf(e: Pte): (r: Rights) {
    Rights(e.user, e.writable)
  }

  /** The rights along the entries that exist and are present, down to p. */
  ghost function RightsTo(ram: Ram, nodes: Nodes, p: Path): (r: Rights) {
    match p
    case Root => Rights(true, true)
    case At(up, _) =>
      if IsEntry(nodes, p) && Leaf(ram, nodes, p).present
        then Meet(RightsTo(ram, nodes, up), RightsOf(Leaf(ram, nodes, p)))
      else RightsTo(ram, nodes, up)
  }

  /** Tables may have been added with rights f: where a page could be looked up before,
      its tables allow what they did, and elsewhere that and f come to the same. */
  ghost predicate RightsKept(ram: Ram, nodes: Nodes, ram': Ram, nodes': Nodes, f: Rights) {
    forall q :: IsLeaf(q) ==>
      && Meet(RightsTo(ram', nodes', q.up), f) == Meet(RightsTo(ram, nodes, q.up), f)
      && (IsEntry(nodes, q) ==> RightsTo(ram', nodes', q.up) == RightsTo(ram, nodes, q.up))
  }

  /** A new table's entry carries exactly the rights f, and the table's are all absent. */
  lemma {:induction false} LinkRightsAt(ram: Ram, nodes: Nodes, owner: Owners, c: Path, f: nat, e: Pte, p: Path)
    requires CanLink(ram, nodes, owner, c, f, e) && Depth(p) <= 3
    ensures var ram', nodes', r := LinkRam(ram, nodes, c, f, e), nodes[c := f], RightsOf(e);
      && Meet(RightsTo(ram', nodes', p), r) == Meet(RightsTo(ram, nodes, p), r)
      && (p in nodes ==> RightsTo(ram', nodes', p) == RightsTo(ram, nodes, p))
  {
    LinkShape(ram, nodes, owner, c, f, e);
    if p.At? {
      LinkRightsAt(ram, nodes, owner, c, f, e, p.up);
      if IsEntry(nodes[c := f], p) {
        LinkEntry(ram, nodes, owner, c, f, e, p);
      }
      assert Linked(ram, nodes, c);
    }
  }

  lemma LinkRights(ram: Ram, nodes: Nodes, owner: Owners, c: Path, f: nat, e: Pte)
    requires CanLink(ram, nodes, owner, c, f, e)
    ensures RightsKept(ram, nodes, LinkRam(ram, nodes, c, f, e), nodes[c := f], RightsOf(e))
  {
    hide RightsTo, Links, Owned;
    var ram', nodes', r := LinkRam(ram, nodes, c, f, e), nodes[c := f], RightsOf(e);
    forall q | IsLeaf(q)
      ensures
        && Meet(RightsTo(ram', nodes', q.up), r) == Meet(RightsTo(ram, nodes, q.up), r)
        && (IsEntry(nodes, q) ==> RightsTo(ram', nodes', q.up) == RightsTo(ram, nodes, q.up))
    {
      LinkRightsAt(ram, nodes, owner, c, f, e, q.up);
    }
  }

  /** A leaf entry's rights are its own affair. */
  lemma {:induction false} LeafRightsAt(ram: Ram, nodes: Nodes, owner: Owners, p: Path, e: Pte, q: Path)
    requires TreeInv(ram, nodes, owner) && IsLeaf(p) && IsEntry(nodes, p) && Depth(q) <= 3
    ensures RightsTo(LeafRam(ram, nodes, p, e), nodes, q) == RightsTo(ram, nodes, q)
  {
    if q.At? {
      LeafRightsAt(ram, nodes, owner, p, e, q.up);
      if IsEntry(nodes, q) {
        LeafEntry(ram, nodes, owner, p, e, q);
      }
    }
  }

  lemma LeafRights(ram: Ram, nodes: Nodes, owner: Owners, p: Path, e: Pte, f: Rights)
    requires TreeInv(ram, nodes, owner) && IsLeaf(p) && IsEntry(nodes, p)
    ensures RightsKept(ram, nodes, LeafRam(ram, nodes, p, e), nodes, f)
  {
    hide RightsTo, Links, Owned;
    var ram' := LeafRam(ram, nodes, p, e);
    forall q | IsLeaf(q)
      ensures RightsTo(ram', nodes, q.up) == RightsTo(ram, nodes, q.up)
    {
      LeafRightsAt(ram, nodes, owner, p, e, q.up);
    }
  }

  lemma RightsTrans(r0: Ram, n0: Nodes, r1: Ram, n1: Nodes, r2: Ram, n2: Nodes, f: Rights)
    requires RightsKept(r0, n0, r1, n1, f) && RightsKept(r1, n1, r2, n2, f)
    requires forall q :: IsEntry(n0, q) ==> IsEntry(n1, q)
    ensures RightsKept(r0, n0, r2, n2, f)
  {
    hide RightsTo, Meet;
  }

  lemma RightsRefl(ram: Ram, nodes: Nodes, f: Rights)
    ensures RightsKept(ram, nodes, ram, nodes, f)
  {
  }

  /** Memory after writing e to the leaf entry p. */
  ghost function LeafRam(ram: Ram, nodes: Nodes, p: Path, e: Pte): (r: Ram)
    requires IsEntry(nodes, p) && nodes[p.up] in ram
  {
    ram[nodes[p.up] := ram[nodes[p.up]][p.i := e]]
  }

  lemma LeafEntry(ram: Ram, nodes: Nodes, owner: Owners, p: Path, e: Pte, q: Path)
    requires TreeInv(ram, nodes, owner) && IsLeaf(p) && IsEntry(nodes, p)
    requires IsEntry(nodes, q)
    ensures Shape(LeafRam(ram, nodes, p, e), nodes)
    ensures Entry(LeafRam(ram, nodes, p, e), nodes, q) == if q == p then e else Entry(ram, nodes, q)
  {
    assert owner[nodes[p.up]] == Table(p.up) && owner[nodes[q.up]] == Table(q.up);
  }

  lemma LeafLinks(ram: Ram, nodes: Nodes, owner: Owners, p: Path, e: Pte)
    requires TreeInv(ram, nodes, owner) && IsLeaf(p) && IsEntry(nodes, p)
    ensures Shape(LeafRam(ram, nodes, p, e), nodes) && Links(LeafRam(ram, nodes, p, e), nodes)
  {
    LeafEntry(ram, nodes, owner, p, e, p);
    forall q | IsEntry(nodes, q) && Depth(q) <= 3 && q != HUGE_SLOT
      ensures Linked(LeafRam(ram, nodes, p, e), nodes, q)
    {
      assert Linked(ram, nodes, q);
      LeafEntry(ram, nodes, owner, p, e, q);
    }
  }

  lemma LeafOthers(ram: Ram, nodes: Nodes, owner: Owners, p: Path, e: Pte)
    requires TreeInv(ram, nodes, owner) && IsLeaf(p) && IsEntry(nodes, p)
    ensures Leaf(LeafRam(ram, nodes, p, e), nodes, p) == e
    ensures SameLeavesBut(ram, nodes, LeafRam(ram, nodes, p, e), nodes, p)
  {
    LeafEntry(ram, nodes, owner, p, e, p);
    forall q | IsLeaf(q) && q != p
      ensures Leaf(LeafRam(ram, nodes, p, e), nodes, q) == Leaf(ram, nodes, q)
    {
      if IsEntry(nodes, q) {
        LeafEntry(ram, nodes, owner, p, e, q);
      }
    }
  }

  /** The two owner maps differ at most in who is recorded for page p. */
  ghost predicate SameOwnersBut(owner: Owners, owner': Owners, p: Path) {
    && (forall f :: f in owner' && owner'[f] != DemandLeaf(p) ==> f in owner && owner[f] == owner'[f])
    && (forall f :: f in owner && owner[f] != DemandLeaf(p) ==> f in owner' && owner[f] == owner'[f])
  }

  /** Writing a leaf entry changes that page alone; the invariant survives if the
      page is not a demand page, or becomes one or stops being one together with
      its owner record. */
  lemma LeafKeeps(ram: Ram, nodes: Nodes, owner: Owners, p: Path, e: Pte, owner': Owners)
    requires TreeInv(ram, nodes, owner) && IsLeaf(p) && IsEntry(nodes, p)
    requires SameOwnersBut(owner, owner', p)
    requires forall f :: f in owner' && owner'[f] == DemandLeaf(p) ==> e.present && !e.alloc && e.base == f
    ensures TreeInv(LeafRam(ram, nodes, p, e), nodes, owner')
    ensures Leaf(LeafRam(ram, nodes, p, e), nodes, p) == e
    ensures SameLeavesBut(ram, nodes, LeafRam(ram, nodes, p, e), nodes, p)
  {
    LeafLinks(ram, nodes, owner, p, e);
    LeafOthers(ram, nodes, owner, p, e);
    OwnedTransfer(ram, LeafRam(ram, nodes, p, e), nodes, owner, owner', p);
  }

  lemma LeafDirect(ram: Ram, nodes: Nodes, owner: Owners, p: Path, e: Pte, owner': Owners, d: Option<DirectTable>)
    requires TreeInv(ram, nodes, owner) && IsLeaf(p) && IsEntry(nodes, p) && SameOwnersBut(owner, owner', p)
    requires DirectOk(ram, owner, nodes[Root], d)
    ensures DirectOk(LeafRam(ram, nodes, p, e), owner', nodes[Root], d)
  {
    assert owner[nodes[Root]] == Table(Root) && owner[nodes[p.up]] == Table(p.up);
    assert p.up != Root;
  }

  lemma LeafView(ram: Ram, nodes: Nodes, owner: Owners, p: Path, e: Pte, owner': Owners, view: View)
    requires TreeInv(ram, nodes, owner) && IsLeaf(p) && IsEntry(nodes, p) && SameOwnersBut(owner, owner', p)
    requires ViewOk(ram, owner', view)
    ensures ViewOk(LeafRam(ram, nodes, p, e), owner', view)
  {
    assert owner[nodes[p.up]] == Table(p.up);
  }

  /** The frame of a page holds what the page does. */
  lemma ViewAt(ram: Ram, nodes: Nodes, owner: Owners, view: View, p: Path)
    requires TreeInv(ram, nodes, owner) && ViewOk(ram, owner, view) && IsDemand(owner, p)
    ensures p in view && Leaf(ram, nodes, p).present
    ensures Leaf(ram, nodes, p).base in ram && ram[Leaf(ram, nodes, p).base] == view[p]
    ensures Leaf(ram, nodes, p).base in owner && owner[Leaf(ram, nodes, p).base] == DemandLeaf(p)
  {
    var f :| f in owner && owner[f] == DemandLeaf(p);
    assert Backs(ram, nodes, p, f);
  }

  lemma ViewGains(ram: Ram, owner: Owners, view: View, f: nat, p: Path)
    requires ViewOk(ram, owner, view) && f !in owner && f in ram && !IsDemand(owner, p)
    ensures ViewOk(ram, owner[f := DemandLeaf(p)], view[p := ram[f]])
  {
    var owner', view' := owner[f := DemandLeaf(p)], view[p := ram[f]];
    forall q | q in view'
      ensures IsDemand(owner', q)
    {
      if q == p {
        assert owner'[f] == DemandLeaf(p);
      } else {
        var g :| g in owner && owner[g] == DemandLeaf(q);
        assert owner'[g] == DemandLeaf(q);
      }
    }
  }

  /** A page gives up its frame, whose contents may change at the same time. */
  lemma ViewLoses(ram: Ram, ram': Ram, nodes: Nodes, owner: Owners, view: View, f: nat, p: Path)
    requires TreeInv(ram, nodes, owner) && ViewOk(ram, owner, view) && f in owner && owner[f] == DemandLeaf(p)
    requires forall g :: g in ram && g != f ==> g in ram' && ram'[g] == ram[g]
    ensures ViewOk(ram', owner - {f}, view - {p})
  {
    assert Backs(ram, nodes, p, f);
    forall g | g in owner && owner[g] == DemandLeaf(p)
      ensures g == f
    {
      assert Backs(ram, nodes, p, g);
    }
    forall q | q in view - {p}
      ensures IsDemand(owner - {f}, q)
    {
      var g :| g in owner && owner[g] == DemandLeaf(q);
      assert (owner - {f})[g] == DemandLeaf(q);
    }
  }

  /** A store into a page's frame. */
  lemma ViewStores(ram: Ram, nodes: Nodes, owner: Owners, view: View, f: nat, p: Path, page: Page)
    requires TreeInv(ram, nodes, owner) && ViewOk(ram, owner, view) && f in owner && owner[f] == DemandLeaf(p)
    ensures ViewOk(ram[f := page], owner, view[p := page])
  {
    assert Backs(ram, nodes, p, f);
    forall g | g in owner && owner[g] == DemandLeaf(p)
      ensures g == f
    {
      assert Backs(ram, nodes, p, g);
    }
    forall q | q in view[p := page]
      ensures IsDemand(owner, q)
    {
      assert q == p ==> owner[f] == DemandLeaf(p);
    }
  }

  /** Frames that back no page do not count. */
  lemma ViewElsewhere(ram: Ram, ram': Ram, owner: Owners, owner': Owners, view: View, f: nat)
    requires ViewOk(ram, owner, view)
    requires (f in owner ==> !owner[f].DemandLeaf?) && (f in owner' ==> !owner'[f].DemandLeaf?)
    requires forall g :: g in ram && g != f ==> g in ram' && ram'[g] == ram[g]
    requires forall g :: g != f ==> (g in owner <==> g in owner') && (g in owner ==> owner[g] == owner'[g])
    ensures ViewOk(ram', owner', view)
  {
    forall q | q in view
      ensures IsDemand(owner', q)
    {
      var g :| g in owner && owner[g] == DemandLeaf(q);
      assert owner'[g] == DemandLeaf(q);
    }
  }

  /** A frame that is neither the top-level table nor held has no part in it. */
  lemma OtherDirect(ram: Ram, ram': Ram, nodes: Nodes, owner: Owners, d: Option<DirectTable>, f: nat)
    requires TreeInv(ram, nodes, owner) && DirectOk(ram, owner, nodes[Root], d)
    requires f in owner && !owner[f].Table? && (owner[f] == Held && d.Some? ==> f != d.value.table)
    requires forall g :: g in ram && g != f ==> g in ram' && ram'[g] == ram[g]
    ensures DirectOk(ram', owner, nodes[Root], d)
  {
    assert owner[nodes[Root]] == Table(Root);
  }

  lemma OwnedTransfer(ram: Ram, ram': Ram, nodes: Nodes, owner: Owners, owner': Owners, p: Path)
    requires Owned(ram, nodes, owner)
    requires SameOwnersBut(owner, owner', p) && SameLeavesBut(ram, nodes, ram', nodes, p)
    requires forall f :: f in owner' && owner'[f] == DemandLeaf(p) ==> Backs(ram', nodes, p, f)
    ensures Owned(ram', nodes, owner')
  {
    hide Leaf, IsLeaf, IsEntry;
    forall f | f in owner' && owner'[f].DemandLeaf? && owner'[f].path != p
      ensures Backs(ram', nodes, owner'[f].path, f)
    {
      assert Backs(ram, nodes, owner[f].path, f);
    }
  }
}
