/** Kernel thread stacks (mem/stack_alloc.c): slots of a guard page and two stack
    pages each. Freed slots are kept on a list whose nodes are kmalloc blocks. */
module StackAlloc {
  import opened HeapMemory
  import opened MemDef
  import opened PfAlloc
  import opened PageTree
  import opened PageTable
  import opened HeapAlloc
  import opened KmallocHeap
  import opened KmallocSteps
  import opened KmallocPages
  import opened Kmalloc

  const STACK_SIZE: nat := 8192

  /** Slot j is the guard page at Base(j) and the stack [Top(j) - 8192, Top(j)). */
  function Base(j: nat): (a: nat) {
    KERNEL_STACKS_START + 12288 * j
  }

  function Top(j: nat): (a: nat) {
    KERNEL_STACKS_START + 12288 * j + 12288
  }

  predicate InStackRegion(va: nat) {
    KERNEL_STACKS_START <= va < KERNEL_TEXT_START
  }

  predicate InStack(j: nat, va: nat) {
    Top(j) - STACK_SIZE <= va < Top(j)
  }

  ghost predicate InLiveStack(live: set<nat>, va: nat) {
    exists j :: j in live && InStack(j, va)
  }

  /** Distinct stacks are disjoint, and every stack is above its own guard page
      and below the next one's. */
  lemma StacksDisjoint(i: nat, j: nat, va: nat)
    requires InStack(i, va) && InStack(j, va)
    ensures i == j && va >= Base(i) + PAGE_SIZE
  {
  }

  ghost predicate Unmapped(ram: Ram, nodes: Nodes, p: Path) {
    var e := Leaf(ram, nodes, p); !e.present && !e.alloc
  }

  /** The mapped pages of the stack region are exactly those of the live stacks;
      in particular no guard page is ever mapped. */
  ghost predicate StackPages(ram: Ram, nodes: Nodes, owner: Owners, live: set<nat>) {
    forall va: nat :: InStackRegion(va) ==>
      if InLiveStack(live, va) then Backed(ram, nodes, owner, PathOf(va)) else Unmapped(ram, nodes, PathOf(va))
  }

  // ----- the list of free slots -----

  datatype Node = Node(addr: nat, slot: nat)

  /** A node's two fields are the payload words of a live 16-byte allocation. */
  ghost predicate IsNode(words: Words, blocks: map<nat, Block>, n: Node) {
    && HEADER < n.addr && HeaderOf(n.addr) in blocks && blocks[HeaderOf(n.addr)].full == 32
    && n.addr % 8 == 0
    && n.addr in words && words[n.addr] == Top(n.slot)
    && n.addr + 8 in words
  }

  ghost predicate NodeChain(words: Words, blocks: map<nat, Block>, head: nat, free: seq<Node>)
    decreases |free|
  {
    if free == [] then head == 0
    else
      && head == free[0].addr && IsNode(words, blocks, free[0])
      && NodeChain(words, blocks, words[head + 8], free[1..])
  }

  ghost predicate DistinctNodes(free: seq<Node>) {
    forall i, j :: 0 <= i < j < |free| ==> free[i].addr != free[j].addr && free[i].slot != free[j].slot
  }

  /** None of the list's nodes is the allocation with header h. */
  ghost predicate NoNodeIn(free: seq<Node>, h: nat) {
    forall n :: n in free ==> HEADER < n.addr && HeaderOf(n.addr) != h
  }

  ghost predicate SlotFree(free: seq<Node>, j: nat) {
    exists i :: 0 <= i < |free| && free[i].slot == j
  }

  /** Each of the first `count` slots is live or on the list, not both. */
  ghost predicate Slots(count: nat, free: seq<Node>, live: set<nat>) {
    && DistinctNodes(free)
    && (forall j: nat :: j in live ==> j < count && !SlotFree(free, j))
    && (forall j: nat :: SlotFree(free, j) ==> j < count)
    && (forall j: nat :: j < count ==> j in live || SlotFree(free, j))
  }

  lemma {:induction false} NodeChainFrame(words: Words, words': Words,
                                          blocks: map<nat, Block>, blocks': map<nat, Block>,
                                          head: nat, free: seq<Node>)
    requires NodeChain(words, blocks, head, free)
    requires forall n :: n in free && IsNode(words, blocks, n) ==>
               && HeaderOf(n.addr) in blocks' && blocks'[HeaderOf(n.addr)] == blocks[HeaderOf(n.addr)]
               && n.addr in words' && words'[n.addr] == words[n.addr]
               && n.addr + 8 in words' && words'[n.addr + 8] == words[n.addr + 8]
    ensures NodeChain(words', blocks', head, free)
    decreases |free|
  {
    if free != [] {
      assert free[0] in free;
      NodeChainFrame(words, words', blocks, blocks', words[head + 8], free[1..]);
    }
  }

  ghost predicate SameBlocks(l: Layout, l': Layout, free: seq<Node>) {
    forall n :: n in free && HEADER < n.addr && HeaderOf(n.addr) in l.live ==>
      HeaderOf(n.addr) in l'.live && l'.live[HeaderOf(n.addr)] == l.live[HeaderOf(n.addr)]
  }

  /** Nodes are payload, so whatever keeps payloads keeps the list. */
  lemma NodeChainKept(words: Words, words': Words, l: Layout, l': Layout, p: Layout, head: nat, free: seq<Node>)
    requires NodeChain(words, l.live, head, free)
    requires SameBlocks(l, l', free) && SameBlocks(l, p, free)
    requires PayloadsKept(words, words', p)
    ensures NodeChain(words', l'.live, head, free)
  {
    forall n | n in free && IsNode(words, l.live, n)
      ensures n.addr in words' && words'[n.addr] == words[n.addr]
      ensures n.addr + 8 in words' && words'[n.addr + 8] == words[n.addr + 8]
    {
      NodeWords(p, n.addr);
    }
    NodeChainFrame(words, words', l.live, l'.live, head, free);
  }

  lemma NodeWords(l: Layout, addr: nat)
    requires HEADER < addr && HeaderOf(addr) in l.live && l.live[HeaderOf(addr)].full == 32 && addr % 8 == 0
    ensures InPayload(l, HeaderOf(addr), addr) && InPayload(l, HeaderOf(addr), addr + 8)
  {
  }

  lemma SlotsPop(count: nat, free: seq<Node>, live: set<nat>)
    requires Slots(count, free, live) && free != []
    ensures free[0].slot !in live && free[0].slot < count && DistinctNodes(free)
    ensures Slots(count, free[1..], live + {free[0].slot})
  {
    assert SlotFree(free, free[0].slot);
    forall j | SlotFree(free, j)
      ensures j == free[0].slot || SlotFree(free[1..], j)
    {
      var i :| 0 <= i < |free| && free[i].slot == j;
      assert i > 0 ==> free[1..][i - 1].slot == j;
    }
    forall j | SlotFree(free[1..], j)
      ensures j != free[0].slot && SlotFree(free, j)
    {
      var i :| 0 <= i < |free| - 1 && free[1..][i].slot == j;
      assert free[i + 1].slot == j;
    }
  }

  lemma NoSlots(words: Words, blocks: map<nat, Block>)
    ensures Slots(0, [], {}) && NodeChain(words, blocks, 0, []) && Base(0) == KERNEL_STACKS_START
  {
  }

  lemma SlotsNew(count: nat, live: set<nat>)
    requires Slots(count, [], live)
    ensures count !in live && Slots(count + 1, [], live + {count})
  {
  }

  lemma SlotsPush(count: nat, free: seq<Node>, live: set<nat>, j: nat, addr: nat)
    requires Slots(count, free, live) && j in live
    requires forall i :: 0 <= i < |free| ==> free[i].addr != addr
    ensures Slots(count, [Node(addr, j)] + free, live - {j})
  {
    var free' := [Node(addr, j)] + free;
    forall i | SlotFree(free', i)
      ensures i == j || SlotFree(free, i)
    {
      var k :| 0 <= k < |free'| && free'[k].slot == i;
      assert k > 0 ==> free[k - 1].slot == i;
    }
    forall i | SlotFree(free, i)
      ensures SlotFree(free', i)
    {
      var k :| 0 <= k < |free| && free[k].slot == i;
      assert free'[k + 1].slot == i;
    }
    assert free'[0].slot == j;
    forall i | 0 <= i < |free|
      ensures free[i].slot != j
    {
      assert SlotFree(free, free[i].slot);
    }
  }

  // ----- the pages of the stack region, while a slot is being filled or emptied -----

  /** The mapped pages are those of the live stacks and pages number lo to hi. */
  ghost predicate StackPagesAnd(ram: Ram, nodes: Nodes, owner: Owners, live: set<nat>, lo: nat, hi: nat) {
    forall va: nat :: InStackRegion(va) ==>
      if InLiveStack(live, va) || lo <= va / 4096 < hi then Backed(ram, nodes, owner, PathOf(va))
      else Unmapped(ram, nodes, PathOf(va))
  }

  /** The number of the page above slot j's guard page. */
  function FirstPage(j: nat): (p: nat) {
    0xf_ffff_f800_0001 + 3 * j
  }

  lemma SlotPages(j: nat, va: nat)
    ensures InStack(j, va) <==> FirstPage(j) <= va / 4096 < FirstPage(j) + 2
    ensures Base(j) + 4096 == 4096 * FirstPage(j)
  {
  }

  lemma NoExtra(ram: Ram, nodes: Nodes, owner: Owners, live: set<nat>, lo: nat)
    ensures StackPagesAnd(ram, nodes, owner, live, lo, lo) <==> StackPages(ram, nodes, owner, live)
  {
    hide Backed, Unmapped, PathOf, InLiveStack;
  }

  /** A slot's two pages count as extra just when it does not count as live. */
  lemma SlotAsExtra(ram: Ram, nodes: Nodes, owner: Owners, live: set<nat>, j: nat)
    requires j !in live
    ensures StackPagesAnd(ram, nodes, owner, live, FirstPage(j), FirstPage(j) + 2)
        <==> StackPages(ram, nodes, owner, live + {j})
  {
    hide Backed, Unmapped, PathOf;
    forall va: nat
      ensures InLiveStack(live + {j}, va) <==>
              InLiveStack(live, va) || FirstPage(j) <= va / 4096 < FirstPage(j) + 2
    {
      SlotPages(j, va);
      if InLiveStack(live, va) {
        var i :| i in live && InStack(i, va);
        assert i in live + {j};
      }
      if InStack(j, va) {
        assert j in live + {j};
      }
    }
  }

  /** Changes in the heap region do not concern the stacks. */
  lemma StackPagesKept(ram: Ram, nodes: Nodes, owner: Owners, ram': Ram, nodes': Nodes, owner': Owners, live: set<nat>)
    requires StackPages(ram, nodes, owner, live)
    requires KeptOutside(ram, nodes, owner, ram', nodes', owner')
    ensures StackPages(ram', nodes', owner', live)
  {
    hide Leaf, IsEntry, IsDemand, PathOf, InLiveStack, HeapPath;
    forall va: nat | InStackRegion(va)
      ensures Kept(ram, nodes, owner, ram', nodes', owner', PathOf(va))
    {
      HeapPathIff(va);
      HugeSlotIffLeaf(va);
    }
  }

  /** One page more, or one page less, at the upper end of the extra pages. */
  lemma StackPageStep(ram: Ram, nodes: Nodes, owner: Owners, ram': Ram, nodes': Nodes, owner': Owners,
                      live: set<nat>, lo: nat, hi: nat, page: nat, hi': nat)
    requires StackPagesAnd(ram, nodes, owner, live, lo, hi) && lo <= hi && lo <= hi'
    requires InStackRegion(page) && KeptBut(ram, nodes, owner, ram', nodes', owner', PathOf(page))
    requires (hi' == hi + 1 && page / 4096 == hi && Backed(ram', nodes', owner', PathOf(page)))
             || (hi' + 1 == hi && page / 4096 == hi' && Unmapped(ram', nodes', PathOf(page))
                 && forall va: nat :: InLiveStack(live, va) ==> va / 4096 != page / 4096)
    ensures StackPagesAnd(ram', nodes', owner', live, lo, hi')
  {
    hide Leaf, IsEntry, IsDemand, PathOf, InLiveStack;
    forall va: nat | InStackRegion(va)
      ensures if InLiveStack(live, va) || lo <= va / 4096 < hi' then Backed(ram', nodes', owner', PathOf(va))
              else Unmapped(ram', nodes', PathOf(va))
    {
      HugeSlotIffLeaf(va);
      PathOfIff(va, page);
      if PathOf(va) != PathOf(page) {
        assert Kept(ram, nodes, owner, ram', nodes', owner', PathOf(va));
      }
    }
  }

  /** Changes in the stack region do not concern the heap. */
  lemma HeapPagesOther(ram: Ram, nodes: Nodes, owner: Owners, ram': Ram, nodes': Nodes, owner': Owners,
                       brk: nat, page: nat)
    requires HeapPages(ram, nodes, owner, brk) && InStackRegion(page)
    requires KeptBut(ram, nodes, owner, ram', nodes', owner', PathOf(page))
    ensures HeapPages(ram', nodes', owner', brk)
  {
    hide Leaf, IsEntry, IsDemand, PathOf;
    forall va: nat | InHeap(va)
      ensures Kept(ram, nodes, owner, ram', nodes', owner', PathOf(va))
    {
      HugeSlotIffLeaf(va);
      PathOfIff(va, page);
    }
  }

  /** A new slot's stack ends below the kernel's text exactly if there is room for the
      whole slot, which the source does not check. */
  lemma NewStackFitsIff(count: nat)
    ensures (forall va: nat :: InStack(count, va) ==> va < KERNEL_TEXT_START) <==> Base(count + 1) <= KERNEL_TEXT_START
  {
    assert InStack(count, Top(count) - 1);
  }

  /** The first slot without room lies in the kernel's text altogether. */
  lemma StackInKernelText()
    ensures Base(44_564_480) == KERNEL_TEXT_START
    ensures forall va: nat :: InStack(44_564_480, va) ==> va >= KERNEL_TEXT_START
  {
  }

  /** The live blocks after a stack was allocated: only the list's first node, if
      there was one, has been freed. */
  ghost function BlocksAfter(blocks: map<nat, Block>, head: nat): (r: map<nat, Block>) {
    if head < HEADER then blocks else blocks - {HeaderOf(head)}
  }

  lemma ReusedBlock(l: Layout, head: nat)
    requires head != 0 ==> HEADER < head
    ensures head != 0 && HeaderOf(head) in l.live && l.live[HeaderOf(head)].pool < |l.free| ==>
              PushLayout(l, HeaderOf(head)).live == BlocksAfter(l.live, head)
    ensures BlocksAfter(l.live, 0) == l.live
  {
  }

  class ThreadStacks {
    const alloc: Allocator
    const heap: KernelHeap
    const space: AddressSpace
    var stackBrk: nat
    var freeHead: word

    ghost var count: nat
    ghost var free: seq<Node>
    ghost var live: set<nat>

    ghost predicate Valid()
      reads this, alloc, heap, space, space.fa, space.mem
    {
      && alloc.heap == heap && heap.space == space && alloc.Valid()
      && stackBrk == Base(count) && stackBrk <= KERNEL_TEXT_START
      && Slots(count, free, live)
      && NodeChain(alloc.words, alloc.layout.live, freeHead, free)
      && StackPages(space.mem.ram, space.nodes, space.owner, live)
    }

    constructor (alloc: Allocator)
      requires alloc.Valid()
      requires StackPages(alloc.heap.space.mem.ram, alloc.heap.space.nodes, alloc.heap.space.owner, {})
      ensures Valid() && this.alloc == alloc && live == {} && count == 0
    {
      this.alloc := alloc;
      heap := alloc.heap;
      space := alloc.heap.space;
      stackBrk := KERNEL_STACKS_START;
      freeHead := 0;
      count := 0;
      free := [];
      live := {};
      hide Allocator.Valid, StackPages, Slots, NodeChain, Base;
      NoSlots(alloc.words, alloc.layout.live);
    }

    /** map_page on one page of a slot. */
    method MapStackPage(va: nat, ghost extraLive: set<nat>, ghost lo: nat)
      requires alloc.heap == heap && heap.space == space && alloc.Valid() && space.fa.Available() >= 3
      requires InStackRegion(va) && lo <= va / 4096
      requires StackPagesAnd(space.mem.ram, space.nodes, space.owner, extraLive, lo, va / 4096)
      requires !InLiveStack(extraLive, va)
      modifies space`nodes, space`owner, space`view, space.fa, space.mem
      ensures alloc.Valid()
      ensures StackPagesAnd(space.mem.ram, space.nodes, space.owner, extraLive, lo, va / 4096 + 1)
      ensures space.fa.Available() >= old(space.fa.Available()) - 3
      ensures space.Total() == old(space.Total())
    {
      hide HeapInv, WordsAre, HeapPages, StackPagesAnd, PathOf, LayoutOk;
      hide TreeInv, FrameAllocator.Valid, DirectOk, ViewOk;
      hide Leaf, IsEntry, IsDemand, KeptBut, SameLeaves, SameLeavesBut, Grew, RawEntry, InLiveStack, UnitsBacked;
      InvIsLayout(alloc.words, alloc.pools, alloc.layout, heap.kernelBrk, alloc.table);
      BrkBasics(space.mem.ram, space.nodes, space.owner, heap.kernelBrk);
      NewStackPage(space.mem.ram, space.nodes, space.owner, extraLive, lo, va);
      space.MapPage(va, 0, HEAP_FLAGS);
      PendingIsBacked(space.mem.ram, space.nodes, space.owner, PathOf(va));
      StackPageStep(old(space.mem.ram), old(space.nodes), old(space.owner),
                    space.mem.ram, space.nodes, space.owner, extraLive, lo, va / 4096, va, va / 4096 + 1);
      HeapPagesOther(old(space.mem.ram), old(space.nodes), old(space.owner),
                     space.mem.ram, space.nodes, space.owner, heap.kernelBrk, va);
      UnitsKept(old(space.mem.ram), old(space.nodes), old(space.owner),
                space.mem.ram, space.nodes, space.owner, alloc.layout, heap.kernelBrk, va);
    }

    /** free_pf_from_virtual_addr on one page of a slot. */
    method FreeStackPage(va: nat, ghost extraLive: set<nat>, ghost lo: nat)
      requires alloc.heap == heap && heap.space == space && alloc.Valid()
      requires InStackRegion(va) && lo <= va / 4096
      requires StackPagesAnd(space.mem.ram, space.nodes, space.owner, extraLive, lo, va / 4096 + 1)
      requires forall x: nat :: InLiveStack(extraLive, x) ==> x / 4096 != va / 4096
      modifies space`owner, space`view, space.fa, space.mem
      ensures alloc.Valid()
      ensures StackPagesAnd(space.mem.ram, space.nodes, space.owner, extraLive, lo, va / 4096)
      ensures space.fa.Available() >= old(space.fa.Available())
      ensures space.Total() == old(space.Total())
    {
      hide HeapInv, WordsAre, HeapPages, AddressSpace.Valid, StackPagesAnd, PathOf, LayoutOk;
      hide Leaf, IsEntry, IsDemand, KeptBut, InLiveStack, UnitsBacked;
      InvIsLayout(alloc.words, alloc.pools, alloc.layout, heap.kernelBrk, alloc.table);
      BrkBasics(space.mem.ram, space.nodes, space.owner, heap.kernelBrk);
      OldStackPage(space.mem.ram, space.nodes, space.owner, extraLive, lo, va);
      space.FreePfFromVirtualAddr(va);
      StackIsNoHeap(va);
      WordsElsewhere(old(space.view), space.view, alloc.words);
      StackPageStep(old(space.mem.ram), space.nodes, old(space.owner),
                    space.mem.ram, space.nodes, space.owner, extraLive, lo, va / 4096 + 1, va, va / 4096);
      HeapPagesOther(old(space.mem.ram), space.nodes, old(space.owner),
                     space.mem.ram, space.nodes, space.owner, heap.kernelBrk, va);
      UnitsKept(old(space.mem.ram), space.nodes, old(space.owner),
                space.mem.ram, space.nodes, space.owner, alloc.layout, heap.kernelBrk, va);
    }

    /** MMU_alloc_stack: the most recently freed slot if there is one, else the
        next new one. The two pages above the guard page become pending. */
    method AllocStack() returns (top: nat)
      requires Valid() && space.fa.Available() >= 6
      requires free == [] ==> Base(count + 1) <= KERNEL_TEXT_START
      modifies this, alloc, space`nodes, space`owner, space`view, space.fa, space.mem
      ensures Valid()
      ensures var j := if old(free) != [] then old(free)[0].slot else old(count);
        j !in old(live) && live == old(live) + {j} && top == Top(j)
      ensures if old(free) != [] then free == old(free)[1..] && count == old(count)
              else free == [] && count == old(count) + 1
      ensures alloc.layout.live == BlocksAfter(old(alloc.layout.live), old(freeHead))
      ensures PayloadsKept(old(alloc.words), alloc.words, alloc.layout)
      ensures space.Total() == old(space.Total())
    {
      hide HeapInv, WordsAre, HeapPages, TreeInv, Accounts, MapOk, BumpInv, FreeList, StackPagesAnd, StackPages;
      hide PathOf, Leaf, IsEntry, IsDemand, InLiveStack, NodeChain, Slots, PayloadsKept, Allocator.Valid, BlocksAfter;
      var start;
      ghost var j;
      start, j := TakeSlot();
      SlotFits(count, free, live, j);
      SlotPages(j, start);
      NoExtra(space.mem.ram, space.nodes, space.owner, live, FirstPage(j));
      var vcurrent := start + PAGE_SIZE;
      ghost var k := 0;
      while vcurrent < start + STACK_SIZE + PAGE_SIZE
        invariant 0 <= k <= 2 && vcurrent == 4096 * (FirstPage(j) + k)
        invariant alloc.heap == heap && heap.space == space && alloc.Valid()
        invariant StackPagesAnd(space.mem.ram, space.nodes, space.owner, live, FirstPage(j), FirstPage(j) + k)
        invariant space.fa.Available() >= 6 - 3 * k
        invariant space.Total() == old(space.Total())
        decreases 2 - k
        modifies space`nodes, space`owner, space`view, space.fa, space.mem
      {
        SlotPages(j, vcurrent);
        NotLive(live, j, vcurrent);
        MapStackPage(vcurrent, live, FirstPage(j));
        vcurrent := vcurrent + PAGE_SIZE;
        k := k + 1;
      }
      SlotAsExtra(space.mem.ram, space.nodes, space.owner, live, j);
      top := vcurrent;
      live := live + {j};
    }

    /** The choice of the slot: returns its base, off the list and not yet live. */
    method TakeSlot() returns (start: nat, ghost j: nat)
      requires Valid()
      requires free == [] ==> Base(count + 1) <= KERNEL_TEXT_START
      modifies this, alloc, space`owner, space`view, space.fa, space.mem
      ensures alloc.heap == heap && heap.space == space && alloc.Valid()
      ensures stackBrk == Base(count) && stackBrk <= KERNEL_TEXT_START
      ensures j == if old(free) != [] then old(free)[0].slot else old(count)
      ensures start == Base(j) && j !in live && Slots(count, free, live + {j})
      ensures live == old(live)
      ensures if old(free) != [] then free == old(free)[1..] && count == old(count)
              else free == [] && count == old(count) + 1
      ensures NodeChain(alloc.words, alloc.layout.live, freeHead, free)
      ensures StackPages(space.mem.ram, space.nodes, space.owner, live)
      ensures alloc.layout.live == BlocksAfter(old(alloc.layout.live), old(freeHead))
      ensures PayloadsKept(old(alloc.words), alloc.words, alloc.layout)
      ensures space.fa.Available() >= old(space.fa.Available())
      ensures space.Total() == old(space.Total())
    {
      hide HeapInv, WordsAre, HeapPages, TreeInv, Accounts, MapOk, BumpInv, FreeList, StackPages;
      hide PathOf, Leaf, IsEntry, IsDemand, InLiveStack, Slots, PayloadsKept, KeptOutside, NodeChain, UnitsBacked;
      hide AddressSpace.Valid, KernelHeap.Valid, Allocator.Valid;
      HeadIff(alloc.words, alloc.layout.live, freeHead, free);
      start := stackBrk;
      PayloadsRefl(alloc.words, alloc.layout);
      if freeHead != 0 {
        start, j := ReuseSlot();
      } else {
        SlotsNew(count, live);
        j := count;
        stackBrk := stackBrk + STACK_SIZE + PAGE_SIZE;
        count := count + 1;
      }
    }

    method ReuseSlot() returns (start: nat, ghost j: nat)
      requires Valid() && freeHead != 0
      modifies this`freeHead, this`free, alloc, space`owner, space`view, space.fa, space.mem
      ensures alloc.Valid()
      ensures old(free) != [] && free == old(free)[1..] && j == old(free)[0].slot
      ensures start == Base(j) && j !in live && Slots(count, free, live + {j})
      ensures NodeChain(alloc.words, alloc.layout.live, freeHead, free)
      ensures StackPages(space.mem.ram, space.nodes, space.owner, live)
      ensures alloc.layout.live == BlocksAfter(old(alloc.layout.live), old(freeHead))
      ensures PayloadsKept(old(alloc.words), alloc.words, alloc.layout)
      ensures space.fa.Available() >= old(space.fa.Available())
      ensures space.Total() == old(space.Total())
    {
      hide HeapInv, WordsAre, HeapPages, TreeInv, Accounts, MapOk, BumpInv, FreeList, StackPages, UnitsBacked;
      hide PathOf, Leaf, IsEntry, IsDemand, InLiveStack, Slots, PayloadsKept, KeptOutside, Put, PushLayout, PoolFor;
      hide NodeChain;
      FirstNode(alloc.words, alloc.layout, freeHead, free);
      ReusedBlock(alloc.layout, freeHead);
      j := free[0].slot;
      SlotsPop(count, free, live);
      NodeIsPoolBlock(alloc.words, alloc.pools, alloc.layout, heap.kernelBrk, alloc.table, freeHead);
      var top := alloc.Peek(freeHead);
      start := top - STACK_SIZE - PAGE_SIZE;
      alloc.Kfree(freeHead);
      StackPagesKept(old(space.mem.ram), space.nodes, old(space.owner),
                     space.mem.ram, space.nodes, space.owner, live);
      // the node has been freed, but its second word still holds the link
      LinkSurvives(old(alloc.words), alloc.words, old(alloc.layout), alloc.layout, freeHead, free,
                   old(alloc.pools.head)[old(alloc.layout).live[HeaderOf(freeHead)].pool]);
      freeHead := alloc.Peek(freeHead + 8);
      free := free[1..];
    }

    /** MMU_free_stack, given the top of live slot j: its two pages are released
        and the slot goes to the front of the list. */
    method FreeStack(top: word, ghost j: nat)
      requires Valid() && j in live && top == Top(j) && alloc.Room(32)
      modifies this, alloc, heap, space`nodes, space`owner, space`view, space.fa, space.mem
      ensures Valid()
      ensures live == old(live) - {j} && count == old(count)
      ensures |free| == |old(free)| + 1 && free[0].slot == j && free[1..] == old(free)
      ensures HEADER < freeHead && HeaderOf(freeHead) !in old(alloc.layout.live)
      ensures alloc.layout.live == old(alloc.layout.live)[HeaderOf(freeHead) := Block(0, 32)]
      ensures PayloadsKept(old(alloc.words), alloc.words, old(alloc.layout))
      ensures space.Total() == old(space.Total())
    {
      hide HeapInv, WordsAre, HeapPages, TreeInv, Accounts, MapOk, BumpInv, FreeList, StackPagesAnd, StackPages;
      hide PathOf, Leaf, IsEntry, IsDemand, InLiveStack, NodeChain, Slots, PayloadsKept, PoolFor, UnitsBacked;
      ReleaseSlot(top, j);
      NoExtra(space.mem.ram, space.nodes, space.owner, live - {j}, FirstPage(j));
      PushNode(top, j);
    }

    /** The page loop of MMU_free_stack. */
    method ReleaseSlot(top: nat, ghost j: nat)
      requires Valid() && j in live && top == Top(j)
      modifies space`owner, space`view, space.fa, space.mem
      ensures alloc.Valid()
      ensures StackPagesAnd(space.mem.ram, space.nodes, space.owner, live - {j}, FirstPage(j), FirstPage(j))
      ensures space.fa.Available() >= old(space.fa.Available())
      ensures space.Total() == old(space.Total())
    {
      hide HeapInv, WordsAre, HeapPages, TreeInv, Accounts, MapOk, BumpInv, FreeList, StackPagesAnd, StackPages;
      hide PathOf, Leaf, IsEntry, IsDemand, InLiveStack, NodeChain, Slots, Allocator.Valid;
      assert (live - {j}) + {j} == live;
      SlotFits(count, free, live - {j}, j);
      SlotPages(j, Base(j));
      SlotAsExtra(space.mem.ram, space.nodes, space.owner, live - {j}, j);
      var vcurrent := top - PAGE_SIZE;
      ghost var k := 2;
      while vcurrent > top - PAGE_SIZE - STACK_SIZE
        invariant 0 <= k <= 2 && vcurrent == 4096 * (FirstPage(j) + k - 1)
        invariant alloc.heap == heap && heap.space == space && alloc.Valid()
        invariant StackPagesAnd(space.mem.ram, space.nodes, space.owner, live - {j}, FirstPage(j), FirstPage(j) + k)
        invariant space.fa.Available() >= old(space.fa.Available())
        invariant space.Total() == old(space.Total())
        decreases k
      {
        OtherPages(live - {j}, j, vcurrent);
        FreeStackPage(vcurrent, live - {j}, FirstPage(j));
        vcurrent := vcurrent - PAGE_SIZE;
        k := k - 1;
      }
    }

    /** The rest of MMU_free_stack: a new list node for the slot. */
    method PushNode(top: word, ghost j: nat)
      requires alloc.heap == heap && heap.space == space && alloc.Valid() && alloc.Room(32)
      requires stackBrk == Base(count) && stackBrk <= KERNEL_TEXT_START
      requires Slots(count, free, live) && j in live && top == Top(j)
      requires NodeChain(alloc.words, alloc.layout.live, freeHead, free)
      requires StackPages(space.mem.ram, space.nodes, space.owner, live - {j})
      modifies this`freeHead, this`free, this`live, alloc, heap
      modifies space`nodes, space`owner, space`view, space.fa, space.mem
      ensures Valid()
      ensures live == old(live) - {j}
      ensures |free| == |old(free)| + 1 && free[0].slot == j && free[1..] == old(free)
      ensures HEADER < freeHead && HeaderOf(freeHead) !in old(alloc.layout.live)
      ensures alloc.layout.live == old(alloc.layout.live)[HeaderOf(freeHead) := Block(0, 32)]
      ensures PayloadsKept(old(alloc.words), alloc.words, old(alloc.layout))
      ensures space.Total() == old(space.Total())
    {
      hide HeapInv, WordsAre, HeapPages, TreeInv, StackPages, UnitsBacked, Allocator.Valid, LayoutOk;
      hide NodeChain, Slots, PayloadsKept, InPayload;
      var node := MakeNode(top, live - {j});
      StackLayout();
      NodePushed(old(alloc.words), alloc.words, old(alloc.layout), alloc.layout, freeHead, free, node, j);
      SlotsPush(count, free, live, j, node);
      assert ([Node(node, j)] + free)[1..] == free;
      free := [Node(node, j)] + free;
      live := live - {j};
      freeHead := node;
    }

    /** kmalloc of a list node, and its fields. */
    method MakeNode(top: word, ghost stacks: set<nat>) returns (node: nat)
      requires alloc.heap == heap && heap.space == space && alloc.Valid() && alloc.Room(32)
      requires StackPages(space.mem.ram, space.nodes, space.owner, stacks)
      modifies alloc, heap, space`nodes, space`owner, space`view, space.fa, space.mem
      ensures alloc.Valid() && StackPages(space.mem.ram, space.nodes, space.owner, stacks)
      ensures HEADER < node < TWO_64 && node % 8 == 0 && HeaderOf(node) !in old(alloc.layout.live)
      ensures alloc.layout.live == old(alloc.layout.live)[HeaderOf(node) := Block(0, 32)]
      ensures PayloadsKept(old(alloc.words), alloc.words, old(alloc.layout))
      ensures node in alloc.words && alloc.words[node] == top
      ensures node + 8 in alloc.words && alloc.words[node + 8] == freeHead
      ensures space.Total() == old(space.Total())
    {
      hide HeapInv, WordsAre, HeapPages, TreeInv, Accounts, MapOk, BumpInv, FreeList, StackPages, UnitsBacked;
      hide PathOf, Leaf, IsEntry, IsDemand, InLiveStack, NodeChain, Slots, PayloadsKept, PoolFor, KeptOutside;
      hide InPayload, BlockSize, RunPages;
      PoolFor32();
      node := alloc.Kmalloc(16);
      StackPagesKept(old(space.mem.ram), old(space.nodes), old(space.owner),
                     space.mem.ram, space.nodes, space.owner, stacks);
      ghost var words1, ram1 := alloc.words, space.mem.ram;
      FillNode(node, top, freeHead);
      StackPagesSame(ram1, space.nodes, space.owner, space.mem.ram, stacks);
      InvIsLayout(alloc.words, alloc.pools, alloc.layout, heap.kernelBrk, alloc.table);
      hide LayoutOk;
      StoresKeep(old(alloc.words), words1, alloc.words, old(alloc.layout), alloc.layout, heap.kernelBrk, node);
    }

    lemma StackLayout()
      requires alloc.heap == heap && alloc.Valid()
      ensures LayoutOk(alloc.layout, heap.kernelBrk)
    {
      hide HeapPages, UnitsBacked, WordsAre, TreeInv;
      InvIsLayout(alloc.words, alloc.pools, alloc.layout, heap.kernelBrk, alloc.table);
    }

    /** The two field writes; `next` is the old head, NULL or not. */
    method FillNode(node: nat, top: word, next: word)
      requires alloc.heap == heap && heap.space == space
      requires alloc.Valid() && HEADER <= node && HeaderOf(node) in alloc.layout.live
      requires alloc.layout.live[HeaderOf(node)].full == 32
      modifies alloc`words, space`view, space.mem
      ensures SameLeaves(old(space.mem.ram), space.nodes, space.mem.ram, space.nodes)
      ensures alloc.Valid() && HEADER < node < TWO_64 && node % 8 == 0
      ensures SameBut(old(alloc.words), alloc.words, node)
      ensures InPayload(alloc.layout, HeaderOf(node), node) && InPayload(alloc.layout, HeaderOf(node), node + 8)
      ensures node in alloc.words && alloc.words[node] == top
      ensures node + 8 in alloc.words && alloc.words[node + 8] == next
    {
      hide AddressSpace.Valid, HeapPages, HeapInv, WordsAre, InPayload, UnitsBacked, SameLeaves, LayoutOk;
      BrkBasics(space.mem.ram, space.nodes, space.owner, heap.kernelBrk);
      InvIsLayout(alloc.words, alloc.pools, alloc.layout, heap.kernelBrk, alloc.table);
      NodeReady(alloc.words, alloc.pools, alloc.layout, heap.kernelBrk, alloc.table, node);
      alloc.PayloadTouched(HeaderOf(node), node);
      alloc.PayloadTouched(HeaderOf(node), node + 8);
      alloc.Store(HeaderOf(node), node, top);
      ghost var r1 := space.mem.ram;
      alloc.Store(HeaderOf(node), node + 8, 0);
      SameLeavesTrans(old(space.mem.ram), space.nodes, r1, space.nodes, space.mem.ram, space.nodes);
      ghost var r2 := space.mem.ram;
      if next != 0 {
        alloc.Store(HeaderOf(node), node + 8, next);
        SameLeavesTrans(old(space.mem.ram), space.nodes, r2, space.nodes, space.mem.ram, space.nodes);
      }
    }

    // ----- what the rest of the kernel may do meanwhile -----

    /** kmalloc by a client. */
    method ClientKmalloc(size: nat) returns (addr: nat)
      requires Valid() && size < TWO_64 && alloc.Room(Full(size))
      modifies alloc, heap, space`nodes, space`owner, space`view, space.fa, space.mem
      ensures Valid()
      ensures HEADER <= addr && HeaderOf(addr) !in old(alloc.layout.live)
      ensures alloc.layout.live == old(alloc.layout.live)[HeaderOf(addr) := Block(PoolFor(Full(size)), Full(size))]
      ensures PayloadsKept(old(alloc.words), alloc.words, old(alloc.layout))
      ensures space.Total() == old(space.Total())
    {
      hide Slots, StackPages, NodeChain, PayloadsKept, KeptOutside, PoolFor, Full, Allocator.Valid, RunPages;
      addr := alloc.Kmalloc(size);
      StackPagesKept(old(space.mem.ram), old(space.nodes), old(space.owner),
                     space.mem.ram, space.nodes, space.owner, live);
      ListAfterKmalloc(old(alloc.words), alloc.words, old(alloc.layout), alloc.layout, freeHead, free, HeaderOf(addr));
    }

    /** kcalloc by a client. */
    method ClientKcalloc(nmemb: nat, size: nat) returns (addr: nat)
      requires Valid() && Product(nmemb, size) + HEADER < TWO_64 && alloc.Room(Full(Product(nmemb, size)))
      modifies alloc, heap, space`nodes, space`owner, space`view, space.fa, space.mem
      ensures Valid()
      ensures HEADER <= addr && HeaderOf(addr) !in old(alloc.layout.live)
      ensures var full := Full(Product(nmemb, size));
        && alloc.layout.live == old(alloc.layout.live)[HeaderOf(addr) := Block(PoolFor(full), full)]
        && (PoolFor(full) < NUM_POOLS ==> space.fa.Available() >= old(space.fa.Available()) - 4)
      ensures PayloadsKept(old(alloc.words), alloc.words, old(alloc.layout))
      ensures ZeroBytes(alloc.words, addr, Product(nmemb, size))
      ensures space.Total() == old(space.Total())
    {
      hide Slots, StackPages, NodeChain, PayloadsKept, KeptOutside, PoolFor, Full, Product, Allocator.Valid, RunPages;
      hide ZeroBytes;
      addr := alloc.Kcalloc(nmemb, size);
      StackPagesKept(old(space.mem.ram), old(space.nodes), old(space.owner),
                     space.mem.ram, space.nodes, space.owner, live);
      ListAfterKmalloc(old(alloc.words), alloc.words, old(alloc.layout), alloc.layout, freeHead, free, HeaderOf(addr));
    }

    /** kfree by a client, of an allocation of its own. */
    method ClientKfree(addr: nat)
      requires Valid() && addr >= HEADER && HeaderOf(addr) in alloc.layout.live && NoNodeIn(free, HeaderOf(addr))
      modifies alloc, space`owner, space`view, space.fa, space.mem
      ensures Valid()
      ensures alloc.layout.live == old(alloc.layout.live) - {HeaderOf(addr)}
      ensures PayloadsKept(old(alloc.words), alloc.words, alloc.layout)
      ensures old(alloc.layout.live)[HeaderOf(addr)].pool < NUM_POOLS ==>
                IsFreed(alloc.layout, HeaderOf(addr), BlockSize(old(alloc.layout.live)[HeaderOf(addr)].pool))
      ensures space.Total() == old(space.Total())
    {
      hide Slots, StackPages, NodeChain, PayloadsKept, KeptOutside, KeptButPages, Released, RunPages;
      hide HeapPages, TreeInv, FrameAllocator.Valid, KernelHeap.Valid, UnitsBacked, WordsAre, IsFreed, BlockSize;
      InvIsLayout(alloc.words, alloc.pools, alloc.layout, heap.kernelBrk, alloc.table);
      if alloc.layout.live[HeaderOf(addr)].pool < NUM_POOLS {
        PushFreed(alloc.layout, heap.kernelBrk, HeaderOf(addr));
      }
      LivePool(alloc.words, alloc.pools, alloc.layout, heap.kernelBrk, alloc.table, HeaderOf(addr));
      hide HeapInv;
      alloc.Kfree(addr);
      StackPagesKept(old(space.mem.ram), space.nodes, old(space.owner),
                     space.mem.ram, space.nodes, space.owner, live);
      ListAfterKfree(old(alloc.words), alloc.words, old(alloc.layout), alloc.layout, freeHead, free, HeaderOf(addr));
    }

    /** A store by a client into a payload of its own. */
    method ClientStore(h: nat, w: nat, v: word)
      requires Valid() && h in alloc.layout.live && InPayload(alloc.layout, h, w) && NoNodeIn(free, h)
      requires w in alloc.words
      modifies alloc`words, space`view, space.mem
      ensures Valid() && alloc.words == old(alloc.words)[w := v]
    {
      hide Slots, StackPages, NodeChain, Allocator.Valid, InPayload, SameLeaves;
      alloc.Store(h, w, v);
      StackPagesSame(old(space.mem.ram), space.nodes, space.owner, space.mem.ram, live);
      ListAfterStore(old(alloc.words), alloc.words, alloc.layout, freeHead, free, h);
    }

    /** A store into a freed block, behind its link. */
    method StoreFreed(b: nat, size: nat, w: nat, v: word)
      requires Valid() && IsFreed(alloc.layout, b, size) && size < 4096 && b < w < b + size && w % 8 == 0
      modifies alloc`words, space`view, space.mem
      ensures Valid() && alloc.words == old(alloc.words)[w := v]
      ensures PayloadsKept(old(alloc.words), alloc.words, alloc.layout)
    {
      hide Slots, StackPages, NodeChain, Allocator.Valid, IsFreed, PayloadsKept, SameLeaves;
      alloc.StoreFreed(b, size, w, v);
      StackPagesSame(old(space.mem.ram), space.nodes, space.owner, space.mem.ram, live);
      ListAfterFreedStore(old(alloc.words), alloc.words, alloc.layout, freeHead, free);
    }

    /** First touch of a heap page. */
    method TouchHeap(va: nat) returns (handled: bool)
      requires Valid() && KERNEL_HEAP_START <= va < heap.kernelBrk && space.fa.Available() > 0
      modifies alloc`words, space`owner, space`view, space.fa, space.mem
      ensures Valid() && PayloadsKept(old(alloc.words), alloc.words, alloc.layout)
      ensures handled <==> old(space.LeafAt(va)).alloc
      ensures space.Total() == old(space.Total())
    {
      hide Slots, StackPages, NodeChain, Allocator.Valid, KeptOutside, Leaf, PathOf, Extends, PayloadsKept;
      handled := alloc.Touch(va);
      ExtendedPayloads(old(alloc.words), alloc.words, alloc.layout);
      ListAfterFreedStore(old(alloc.words), alloc.words, alloc.layout, freeHead, free);
      StackPagesKept(old(space.mem.ram), space.nodes, old(space.owner),
                     space.mem.ram, space.nodes, space.owner, live);
    }

    /** First touch of a page of a live stack: it gets a frame of its own. */
    method TouchStack(va: nat) returns (handled: bool)
      requires Valid() && InLiveStack(live, va) && InStackRegion(va) && space.fa.Available() > 0
      modifies space`owner, space`view, space.fa, space.mem
      ensures Valid()
      ensures handled <==> old(space.LeafAt(va)).alloc
      ensures handled ==> space.LeafAt(va).present && IsDemand(space.owner, PathOf(va))
      ensures space.Total() == old(space.Total())
    {
      hide Slots, StackPages, NodeChain, HeapInv, WordsAre, HeapPages, TreeInv, UnitsBacked, FrameAllocator.Valid;
      hide PathOf, Leaf, IsEntry, IsDemand, InLiveStack, KeptBut;
      InvIsLayout(alloc.words, alloc.pools, alloc.layout, heap.kernelBrk, alloc.table);
      hide LayoutOk;
      BrkBasics(space.mem.ram, space.nodes, space.owner, heap.kernelBrk);
      LiveStackPage(space.mem.ram, space.nodes, space.owner, live, va);
      handled := space.PageFault(va);
      StackIsNoHeap(va);
      WordsElsewhere(old(space.view), space.view, alloc.words);
      if handled {
        OwnedIsDemand(space.owner, space.LeafAt(va).base, PathOf(va));
        TouchedIsBacked(space.mem.ram, space.nodes, space.owner, PathOf(va));
        StackTouched(old(space.mem.ram), space.nodes, old(space.owner),
                     space.mem.ram, space.nodes, space.owner, live, va);
        HeapPagesOther(old(space.mem.ram), space.nodes, old(space.owner),
                       space.mem.ram, space.nodes, space.owner, heap.kernelBrk, va);
        UnitsKept(old(space.mem.ram), space.nodes, old(space.owner),
                  space.mem.ram, space.nodes, space.owner, alloc.layout, heap.kernelBrk, va);
      }
    }
  }

  lemma StackIsNoHeap(va: nat)
    requires InStackRegion(va)
    ensures !HeapPath(PathOf(va))
  {
    HeapPathIff(va);
  }

  lemma StackPagesSame(ram: Ram, nodes: Nodes, owner: Owners, ram': Ram, live: set<nat>)
    requires StackPages(ram, nodes, owner, live) && SameLeaves(ram, nodes, ram', nodes)
    ensures StackPages(ram', nodes, owner, live)
  {
    hide StackPages, SameLeaves;
    AllKept(ram, nodes, owner, ram', Root);
    StackPagesKept(ram, nodes, owner, ram', nodes, owner, live);
  }

  lemma ExtendedPayloads(words: Words, words': Words, l: Layout)
    requires Extends(words, words')
    ensures PayloadsKept(words, words', l)
  {
  }

  lemma OwnedIsDemand(owner: Owners, f: nat, p: Path)
    requires f in owner && owner[f] == DemandLeaf(p)
    ensures IsDemand(owner, p)
  {
  }

  lemma LivePool(words: Words, pools: Pools, l: Layout, brk: nat, table: nat, h: nat)
    requires HeapInv(words, pools, l, brk, table) && h in l.live
    ensures l.live[h].pool < NUM_POOLS ==> |l.free| == NUM_POOLS && PushLayout(l, h).live == l.live - {h}
  {
  }

  /** The list survives a new allocation ... */
  lemma ListAfterKmalloc(words: Words, words': Words, l: Layout, l': Layout, head: nat, free: seq<Node>, h: nat)
    requires NodeChain(words, l.live, head, free) && PayloadsKept(words, words', l)
    requires h !in l.live && h in l'.live && l'.live == l.live[h := l'.live[h]]
    ensures NodeChain(words', l'.live, head, free)
  {
    hide NodeChain, PayloadsKept;
    assert SameBlocks(l, l', free) && SameBlocks(l, l, free);
    NodeChainKept(words, words', l, l', l, head, free);
  }

  /** ... the end of one that holds no node ... */
  lemma ListAfterKfree(words: Words, words': Words, l: Layout, l': Layout, head: nat, free: seq<Node>, h: nat)
    requires NodeChain(words, l.live, head, free) && PayloadsKept(words, words', l')
    requires l'.live == l.live - {h} && NoNodeIn(free, h)
    ensures NodeChain(words', l'.live, head, free)
  {
    hide NodeChain, PayloadsKept;
    assert SameBlocks(l, l', free);
    NodeChainKept(words, words', l, l', l', head, free);
  }

  /** ... and a store into one that holds no node. */
  lemma ListAfterStore(words: Words, words': Words, l: Layout, head: nat, free: seq<Node>, h: nat)
    requires NodeChain(words, l.live, head, free) && NoNodeIn(free, h)
    requires forall g, x :: g in l.live && g != h && InPayload(l, g, x) && x in words ==>
               x in words' && words'[x] == words[x]
    ensures NodeChain(words', l.live, head, free)
  {
    hide NodeChain;
    forall n | n in free && IsNode(words, l.live, n)
      ensures n.addr in words' && words'[n.addr] == words[n.addr]
      ensures n.addr + 8 in words' && words'[n.addr + 8] == words[n.addr + 8]
    {
      NodeWords(l, n.addr);
    }
    NodeChainFrame(words, words', l.live, l.live, head, free);
  }

  lemma ListAfterFreedStore(words: Words, words': Words, l: Layout, head: nat, free: seq<Node>)
    requires NodeChain(words, l.live, head, free) && PayloadsKept(words, words', l)
    ensures NodeChain(words', l.live, head, free)
  {
    hide NodeChain;
    forall n | n in free && IsNode(words, l.live, n)
      ensures n.addr in words' && words'[n.addr] == words[n.addr]
      ensures n.addr + 8 in words' && words'[n.addr + 8] == words[n.addr + 8]
    {
      NodeWords(l, n.addr);
    }
    NodeChainFrame(words, words', l.live, l.live, head, free);
  }

  /** First touch of a page of a live stack. */
  lemma StackTouched(ram: Ram, nodes: Nodes, owner: Owners, ram': Ram, nodes': Nodes, owner': Owners,
                     live: set<nat>, page: nat)
    requires StackPages(ram, nodes, owner, live) && InLiveStack(live, page) && InStackRegion(page)
    requires KeptBut(ram, nodes, owner, ram', nodes', owner', PathOf(page))
    requires Backed(ram', nodes', owner', PathOf(page))
    ensures StackPages(ram', nodes', owner', live)
  {
    hide Backed, InLiveStack, PathOf, Kept, Unmapped;
    forall va: nat | InStackRegion(va)
      ensures if InLiveStack(live, va) then Backed(ram', nodes', owner', PathOf(va))
              else Unmapped(ram', nodes', PathOf(va))
    {
      HeapAddress(va);
      HeapAddress(page);
      PathOfIff(va, page);
      if va / 4096 == page / 4096 {
        SameStack(live, va, page);
      } else {
        KeptPage(ram, nodes, owner, ram', nodes', owner', PathOf(va));
      }
    }
  }

  lemma SameStack(live: set<nat>, va: nat, page: nat)
    requires InLiveStack(live, page) && va / 4096 == page / 4096
    ensures InLiveStack(live, va)
  {
    var j :| j in live && InStack(j, page);
    SlotPages(j, va);
    SlotPages(j, page);
  }

  lemma KeptPage(ram: Ram, nodes: Nodes, owner: Owners, ram': Ram, nodes': Nodes, owner': Owners, q: Path)
    requires Kept(ram, nodes, owner, ram', nodes', owner', q)
    ensures Backed(ram, nodes, owner, q) ==> Backed(ram', nodes', owner', q)
    ensures Unmapped(ram, nodes, q) ==> Unmapped(ram', nodes', q)
  {
    hide Leaf, IsDemand, IsEntry;
  }

  lemma LiveStackPage(ram: Ram, nodes: Nodes, owner: Owners, live: set<nat>, va: nat)
    requires StackPages(ram, nodes, owner, live) && InLiveStack(live, va) && InStackRegion(va)
    ensures IsEntry(nodes, PathOf(va)) && Backed(ram, nodes, owner, PathOf(va))
    ensures KernelData(Leaf(ram, nodes, PathOf(va)))
  {
  }

  lemma NewStackPage(ram: Ram, nodes: Nodes, owner: Owners, live: set<nat>, lo: nat, va: nat)
    requires InStackRegion(va) && StackPagesAnd(ram, nodes, owner, live, lo, va / 4096) && !InLiveStack(live, va)
    requires TreeInv(ram, nodes, owner)
    ensures !IsDemand(owner, PathOf(va)) && Mappable(va) && PhysAddr(0) && va > 0
  {
    assert Unmapped(ram, nodes, PathOf(va));
    NotPresentIsNotDemand(ram, nodes, owner, PathOf(va));
  }

  lemma OldStackPage(ram: Ram, nodes: Nodes, owner: Owners, live: set<nat>, lo: nat, va: nat)
    requires InStackRegion(va) && lo <= va / 4096 && StackPagesAnd(ram, nodes, owner, live, lo, va / 4096 + 1)
    ensures IsEntry(nodes, PathOf(va))
    ensures Leaf(ram, nodes, PathOf(va)).present ==> IsDemand(owner, PathOf(va))
  {
    assert Backed(ram, nodes, owner, PathOf(va));
  }

  lemma SlotFits(count: nat, free: seq<Node>, live: set<nat>, j: nat)
    requires Slots(count, free, live + {j}) && Base(count) <= KERNEL_TEXT_START
    ensures j < count && Top(j) <= KERNEL_TEXT_START
  {
    assert j in live + {j};
  }

  lemma NotLive(live: set<nat>, j: nat, va: nat)
    requires j !in live && InStack(j, va)
    ensures !InLiveStack(live, va)
  {
    if i :| i in live && InStack(i, va) {
      StacksDisjoint(i, j, va);
    }
  }

  lemma OtherPages(live: set<nat>, j: nat, va: nat)
    requires j !in live && FirstPage(j) <= va / 4096 < FirstPage(j) + 2
    ensures forall x: nat :: InLiveStack(live, x) ==> x / 4096 != va / 4096
  {
    forall x: nat | InLiveStack(live, x)
      ensures x / 4096 != va / 4096
    {
      var i :| i in live && InStack(i, x);
      SlotPages(i, x);
    }
  }

  lemma PoolFor32()
    ensures PoolFor(32) == 0 && Full(16) == 32
  {
  }

  ghost predicate SameBut(words: Words, words': Words, node: nat) {
    forall x :: x in words && x != node && x != node + 8 ==> x in words' && words'[x] == words[x]
  }

  lemma PoolNode(l: Layout, brk: nat, node: nat)
    requires LayoutOk(l, brk) && HEADER <= node && HeaderOf(node) in l.live && l.live[HeaderOf(node)].full == 32
    ensures l.live[HeaderOf(node)].pool < NUM_POOLS
  {
    hide Separate, UnitsIn, FreeOk, Covered;
  }

  lemma NodeReady(words: Words, pools: Pools, l: Layout, brk: nat, table: nat, node: nat)
    requires HeapInv(words, pools, l, brk, table) && brk <= KERNEL_STACKS_START
    requires HEADER <= node && HeaderOf(node) in l.live && l.live[HeaderOf(node)].full == 32
    ensures HEADER < node < TWO_64 && node % 8 == 0 && l.live[HeaderOf(node)].pool < NUM_POOLS
    ensures InPayload(l, HeaderOf(node), node) && InPayload(l, HeaderOf(node), node + 8)
  {
    hide HeapInv, LayoutOk, InPayload;
    InvIsLayout(words, pools, l, brk, table);
    PoolNode(l, brk, node);
    PayloadWord(l, brk, HeaderOf(node), 0, 16);
    PayloadWord(l, brk, HeaderOf(node), 8, 16);
    PayloadInUnit(l, brk, HeaderOf(node), node);
    LiveStart(l, brk, HeaderOf(node));
  }

  /** Linking a new node in front, after the allocator has made it and its fields
      have been written. */
  lemma NodePushed(words: Words, words': Words, l: Layout, l': Layout, head: nat, free: seq<Node>, node: nat, j: nat)
    requires NodeChain(words, l.live, head, free) && PayloadsKept(words, words', l)
    requires HEADER < node && HeaderOf(node) !in l.live && node % 8 == 0
    requires l'.live == l.live[HeaderOf(node) := Block(0, 32)]
    requires node in words' && words'[node] == Top(j) && node + 8 in words' && words'[node + 8] == head
    ensures NodeChain(words', l'.live, node, [Node(node, j)] + free)
    ensures forall i :: 0 <= i < |free| ==> free[i].addr != node
  {
    assert SameBlocks(l, l', free) && SameBlocks(l, l, free);
    NodeChainKept(words, words', l, l', l, head, free);
    NodesLive(words, l, head, free);
    assert ([Node(node, j)] + free)[1..] == free;
  }

  lemma {:induction false} NodesLive(words: Words, l: Layout, head: nat, free: seq<Node>)
    requires NodeChain(words, l.live, head, free)
    ensures forall i :: 0 <= i < |free| ==> HEADER < free[i].addr && HeaderOf(free[i].addr) in l.live
    decreases |free|
  {
    if free != [] {
      NodesLive(words, l, words[head + 8], free[1..]);
      assert forall i :: 0 < i < |free| ==> free[i] == free[1..][i - 1];
    }
  }

  /** Writes into a block that was not live before keep the older payloads. */
  lemma StoresKeep(words: Words, words1: Words, words2: Words, l: Layout, l': Layout, brk: nat, node: nat)
    requires PayloadsKept(words, words1, l) && LayoutOk(l', brk) && SameBut(words1, words2, node)
    requires HEADER < node && HeaderOf(node) !in l.live && HeaderOf(node) in l'.live
    requires l'.live == l.live[HeaderOf(node) := l'.live[HeaderOf(node)]]
    requires InPayload(l', HeaderOf(node), node) && InPayload(l', HeaderOf(node), node + 8)
    ensures PayloadsKept(words, words2, l)
  {
    hide LayoutOk, IsMeta;
    forall g, w | g in l.live && InPayload(l, g, w) && w in words
      ensures w in words2 && words2[w] == words[w]
    {
      assert InPayload(l', g, w);
      Separation(l', brk, g, w);
    }
  }

  lemma HeadIff(words: Words, blocks: map<nat, Block>, head: nat, free: seq<Node>)
    requires NodeChain(words, blocks, head, free)
    ensures head == 0 <==> free == []
  {
  }

  lemma FirstNode(words: Words, l: Layout, head: nat, free: seq<Node>)
    requires NodeChain(words, l.live, head, free) && head != 0
    ensures free != [] && IsNode(words, l.live, free[0]) && head == free[0].addr
    ensures NodeChain(words, l.live, words[head + 8], free[1..])
  {
  }

  lemma NodeIsPoolBlock(words: Words, pools: Pools, l: Layout, brk: nat, table: nat, addr: nat)
    requires HeapInv(words, pools, l, brk, table)
    requires HEADER <= addr && HeaderOf(addr) in l.live && l.live[HeaderOf(addr)].full == 32
    ensures l.live[HeaderOf(addr)].pool < NUM_POOLS && |l.free| == NUM_POOLS && |pools.head| == NUM_POOLS
  {
  }

  /** Freeing the first node overwrites only its header: both the link in its
      second word and the rest of the list are intact. */
  lemma LinkSurvives(words: Words, words': Words, l: Layout, l': Layout, head: nat, free: seq<Node>, v: word)
    requires NodeChain(words, l.live, head, free) && head != 0 && DistinctNodes(free)
    requires HEADER <= head && HeaderOf(head) in l.live && l.live[HeaderOf(head)].pool < |l.free|
    requires l' == PushLayout(l, HeaderOf(head)) && words' == Put(words, HeaderOf(head), v)
    requires PayloadsKept(words, words', l')
    ensures head + 8 in words' && NodeChain(words', l'.live, words'[head + 8], free[1..])
  {
    FirstNode(words, l, head, free);
    var next := words[head + 8];
    assert head + 8 in words' && words'[head + 8] == next;
    hide NodeChain, PayloadsKept, Put;
    forall n | n in free[1..] && HEADER < n.addr && HeaderOf(n.addr) in l.live
      ensures HeaderOf(n.addr) in l'.live && l'.live[HeaderOf(n.addr)] == l.live[HeaderOf(n.addr)]
    {
      var i :| 0 <= i < |free| - 1 && free[1..][i] == n;
      assert free[0].addr != free[i + 1].addr;
    }
    NodeChainKept(words, words', l, l', l', next, free[1..]);
  }
}
