/** Threads with their memory (proc/proc.c): the context of a thread is a block of the
    kernel allocator, its stack a slot of the stack allocator, and its place a queue. */
module Threads {
  import opened HeapMemory
  import opened Wrappers
  import opened MemDef
  import opened KmallocHeap
  import opened KmallocSteps
  import opened KmallocPages
  import opened PageTree
  import opened PageTable
  import opened HeapAlloc
  import opened PfAlloc
  import opened Kmalloc
  import opened StackAlloc
  import opened ProcQueue
  import opened ProcModel
  import opened Proc
  import opened ContextLayout

  /** The size of a process_t, and of its block with the header. */
  const PROCESS_SIZE: nat := 192
  const CONTEXT: Block := Block(3, 208)
  const BLOCK: nat := 256

  /** Offsets of the fields that creation fills in. */
  const RDI: nat := 32
  const RSI: nat := 40
  const CS: nat := 112
  const RBP: nat := 128
  const RSP: nat := 136
  const RIP: nat := 144
  const RFLAGS: nat := 152
  const PID: nat := 160
  const STACK_TOP: nat := 168
  /** The links of the queues, which a thread's admission writes. */
  const LINKS: nat := 176

  const KERNEL_CODE_SELECTOR: word := 8
  const INITIAL_FLAGS: word := 0x202

  /** A thread has a context block, which is no node of the stack allocator's list, and
      a live stack, whose top the context remembers. */
  ghost predicate HomeOk(words: Words, blocks: map<nat, Block>, free: seq<Node>, live: set<nat>, a: nat, j: nat) {
    && HEADER <= a && HeaderOf(a) in blocks && blocks[HeaderOf(a)] == CONTEXT
    && NoNodeIn(free, HeaderOf(a))
    && j in live
    && a + STACK_TOP in words && words[a + STACK_TOP] == Top(j)
  }

  /** Every thread has a context and a stack, and no two threads share either. */
  ghost predicate Homes(words: Words, blocks: map<nat, Block>, free: seq<Node>, live: set<nat>,
                        context: map<Process, nat>, slot: map<Process, nat>) {
    && context.Keys == slot.Keys
    && (forall t :: t in context ==> HomeOk(words, blocks, free, live, context[t], slot[t]))
    && (forall t, u :: t in context && u in context && t != u ==> context[t] != context[u] && slot[t] != slot[u])
  }

  lemma ContextBlock()
    ensures Product(1, PROCESS_SIZE) == PROCESS_SIZE && Full(PROCESS_SIZE) == 208 && PoolFor(208) == 3
  {
  }

  /** The words of a context are payload of its block. */
  lemma ContextWord(l: Layout, brk: nat, a: nat, o: nat)
    requires LayoutOk(l, brk) && HEADER <= a && HeaderOf(a) in l.live && l.live[HeaderOf(a)] == CONTEXT
    requires o < PROCESS_SIZE && o % 8 == 0
    ensures InPayload(l, HeaderOf(a), a + o)
  {
    LiveStart(l, brk, HeaderOf(a));
    PayloadGrid(HeaderOf(a), o);
  }

  /** A home survives what keeps its block, its payload and its stack. */
  lemma HomeKept(words: Words, words': Words, l: Layout, brk: nat, p: Layout, blocks': map<nat, Block>,
                 free: seq<Node>, free': seq<Node>, live: set<nat>, live': set<nat>, a: nat, j: nat)
    requires HomeOk(words, l.live, free, live, a, j) && LayoutOk(l, brk) && PayloadsKept(words, words', p)
    requires HeaderOf(a) in p.live && p.live[HeaderOf(a)] == CONTEXT
    requires HeaderOf(a) in blocks' && blocks'[HeaderOf(a)] == CONTEXT
    requires NoNodeIn(free', HeaderOf(a)) && j in live'
    ensures HomeOk(words', blocks', free', live', a, j)
  {
    ContextWord(l, brk, a, STACK_TOP);
    assert InPayload(p, HeaderOf(a), a + STACK_TOP);
  }

  /** A new block leaves all homes alone. */
  lemma HomesAfterKmalloc(words: Words, words': Words, l: Layout, brk: nat, l': Layout, h: nat, free: seq<Node>,
                          live: set<nat>, context: map<Process, nat>, slot: map<Process, nat>)
    requires Homes(words, l.live, free, live, context, slot) && LayoutOk(l, brk) && PayloadsKept(words, words', l)
    requires h !in l.live && h in l'.live && l'.live == l.live[h := l'.live[h]]
    ensures Homes(words', l'.live, free, live, context, slot)
  {
    hide LayoutOk, PayloadsKept, HomeOk;
    forall t | t in context
      ensures HomeOk(words', l'.live, free, live, context[t], slot[t])
    {
      HomeBlock(words, l.live, free, live, context[t], slot[t]);
      HomeKept(words, words', l, brk, l, l'.live, free, free, live, live, context[t], slot[t]);
    }
  }

  lemma HomeBlock(words: Words, blocks: map<nat, Block>, free: seq<Node>, live: set<nat>, a: nat, j: nat)
    requires HomeOk(words, blocks, free, live, a, j)
    ensures HEADER <= a && HeaderOf(a) in blocks && blocks[HeaderOf(a)] == CONTEXT
    ensures NoNodeIn(free, HeaderOf(a)) && j in live
  {
  }

  /** So does a new stack, even if the list's first node is freed for it. */
  lemma HomesAfterStack(words: Words, words': Words, l: Layout, brk: nat, l': Layout, head: nat,
                        free: seq<Node>, free': seq<Node>, live: set<nat>, j: nat,
                        context: map<Process, nat>, slot: map<Process, nat>)
    requires Homes(words, l.live, free, live, context, slot) && LayoutOk(l, brk) && PayloadsKept(words, words', l')
    requires NodeChain(words, l.live, head, free) && l'.live == BlocksAfter(l.live, head)
    requires if free == [] then free' == [] else free' == free[1..]
    ensures Homes(words', l'.live, free', live + {j}, context, slot)
  {
    ListHead(words, l, head, free);
    hide LayoutOk, PayloadsKept, HomeOk, NodeChain, BlocksAfter, NoNodeIn;
    forall t | t in context
      ensures HomeOk(words', l'.live, free', live + {j}, context[t], slot[t])
    {
      HomeBlock(words, l.live, free, live, context[t], slot[t]);
      StillNoNode(free, free', HeaderOf(context[t]));
      StillABlock(l.live, head, free, HeaderOf(context[t]));
      HomeKept(words, words', l, brk, l', l'.live, free, free', live, live + {j}, context[t], slot[t]);
    }
  }

  lemma ListHead(words: Words, l: Layout, head: nat, free: seq<Node>)
    requires NodeChain(words, l.live, head, free)
    ensures if free == [] then head == 0 else HEADER < head && free[0].addr == head
  {
    HeadIff(words, l.live, head, free);
    if head != 0 {
      FirstNode(words, l, head, free);
    }
  }

  lemma StillNoNode(free: seq<Node>, free': seq<Node>, h: nat)
    requires NoNodeIn(free, h) && if free == [] then free' == [] else free' == free[1..]
    ensures NoNodeIn(free', h)
  {
    assert forall n :: n in free' ==> n in free;
  }

  lemma StillABlock(blocks: map<nat, Block>, head: nat, free: seq<Node>, h: nat)
    requires h in blocks && NoNodeIn(free, h)
    requires if free == [] then head == 0 else HEADER < head && free[0].addr == head
    ensures h in BlocksAfter(blocks, head) && BlocksAfter(blocks, head)[h] == blocks[h]
  {
    assert free != [] ==> free[0] in free;
  }

  /** A store into another block, or elsewhere in a context. */
  lemma HomesAfterStore(words: Words, w: nat, v: word, l: Layout, brk: nat, free: seq<Node>, live: set<nat>,
                        context: map<Process, nat>, slot: map<Process, nat>, h: nat)
    requires Homes(words, l.live, free, live, context, slot) && LayoutOk(l, brk)
    requires h in l.live && InPayload(l, h, w) && forall t :: t in context ==> context[t] != h + HEADER
    ensures Homes(words[w := v], l.live, free, live, context, slot)
  {
    hide LayoutOk;
    forall t | t in context
      ensures HomeOk(words[w := v], l.live, free, live, context[t], slot[t])
    {
      ContextWord(l, brk, context[t], STACK_TOP);
      Separation(l, brk, h, w);
    }
  }

  /** A thread that is given a context and a stack of its own. */
  lemma HomesAdd(words: Words, blocks: map<nat, Block>, free: seq<Node>, live: set<nat>,
                 context: map<Process, nat>, slot: map<Process, nat>, t: Process, a: nat, j: nat)
    requires Homes(words, blocks, free, live, context, slot) && HomeOk(words, blocks, free, live, a, j)
    requires t !in context && forall u :: u in context ==> context[u] != a && slot[u] != j
    ensures Homes(words, blocks, free, live, context[t := a], slot[t := j])
  {
    hide HomeOk;
  }

  /** A thread that loses its stack: the new list node is not one of the contexts. */
  lemma HomesAfterFreeStack(words: Words, words': Words, l: Layout, brk: nat, l': Layout, head': nat,
                            free: seq<Node>, free': seq<Node>, live: set<nat>,
                            context: map<Process, nat>, slot: map<Process, nat>, t: Process)
    requires Homes(words, l.live, free, live, context, slot) && LayoutOk(l, brk) && PayloadsKept(words, words', l)
    requires t in context && HEADER < head' && HeaderOf(head') !in l.live
    requires l'.live == l.live[HeaderOf(head') := Block(0, 32)]
    requires |free'| == |free| + 1 && free'[0].addr == head' && free'[1..] == free
    ensures Homes(words', l'.live, free', live - {slot[t]}, context - {t}, slot - {t})
    ensures HeaderOf(context[t]) in l'.live && l'.live[HeaderOf(context[t])] == CONTEXT
    ensures NoNodeIn(free', HeaderOf(context[t]))
  {
    hide LayoutOk, PayloadsKept, HomeOk;
    forall u | u in context
      ensures HEADER <= context[u] && HeaderOf(context[u]) in l'.live && l'.live[HeaderOf(context[u])] == CONTEXT
      ensures NoNodeIn(free', HeaderOf(context[u]))
      ensures u != t ==> HomeOk(words', l'.live, free', live - {slot[t]}, context[u], slot[u])
    {
      HomeBlock(words, l.live, free, live, context[u], slot[u]);
      assert free' == [free'[0]] + free;
      if u != t {
        HomeKept(words, words', l, brk, l, l'.live, free, free', live, live - {slot[t]}, context[u], slot[u]);
      }
    }
  }

  /** A context switch stores a register into a context, below the stack's top. */
  lemma HomesAfterSave(words: Words, o: nat, v: word, l: Layout, brk: nat, free: seq<Node>, live: set<nat>,
                       context: map<Process, nat>, slot: map<Process, nat>, t: Process)
    requires Homes(words, l.live, free, live, context, slot) && LayoutOk(l, brk)
    requires t in context && o < STACK_TOP && o % 8 == 0
    ensures Homes(words[context[t] + o := v], l.live, free, live, context, slot)
  {
    hide LayoutOk;
    HomeBlock(words, l.live, free, live, context[t], slot[t]);
    ContextWord(l, brk, context[t], o);
    forall u | u in context
      ensures HomeOk(words[context[t] + o := v], l.live, free, live, context[u], slot[u])
    {
      ContextWord(l, brk, context[u], STACK_TOP);
      Separation(l, brk, HeaderOf(context[t]), context[t] + o);
    }
  }

  /** A block that is no context goes. */
  lemma HomesAfterKfree(words: Words, words': Words, l: Layout, brk: nat, l': Layout, h: nat, free: seq<Node>,
                        live: set<nat>, context: map<Process, nat>, slot: map<Process, nat>)
    requires Homes(words, l.live, free, live, context, slot) && LayoutOk(l, brk) && PayloadsKept(words, words', l')
    requires l'.live == l.live - {h} && forall t :: t in context ==> context[t] != h + HEADER
    ensures Homes(words', l'.live, free, live, context, slot)
  {
    hide LayoutOk, PayloadsKept, HomeOk;
    forall t | t in context
      ensures HomeOk(words', l'.live, free, live, context[t], slot[t])
    {
      HomeBlock(words, l.live, free, live, context[t], slot[t]);
      HomeKept(words, words', l, brk, l', l'.live, free, free, live, live, context[t], slot[t]);
    }
  }

  lemma NotANode(words: Words, l: Layout, head: nat, free: seq<Node>, h: nat)
    requires NodeChain(words, l.live, head, free) && h !in l.live
    ensures NoNodeIn(free, h)
  {
    NodesLive(words, l, head, free);
  }

  /** The first words of the context at a: these fields, and zero elsewhere. */
  ghost predicate FilledTo(words: Words, a: nat, fields: map<nat, word>, end: nat) {
    forall o :: 0 <= o < end && o % 8 == 0 ==>
      a + o in words && words[a + o] == if o in fields then fields[o] else 0
  }

  ghost predicate Filled(words: Words, a: nat, fields: map<nat, word>) {
    FilledTo(words, a, fields, PROCESS_SIZE)
  }

  /** The fields of a new thread's context. */
  function InitialFields(entry: word, arg: word, wrapper: word, top: word, pid: int): (fields: map<nat, word>) {
    map[RDI := entry, RSI := arg, CS := KERNEL_CODE_SELECTOR, RBP := top, RSP := top, RIP := wrapper,
        RFLAGS := INITIAL_FLAGS, PID := pid % 0x1_0000_0000, STACK_TOP := top]
  }

  ghost predicate Holds(words: Words, w: nat, v: word) {
    w in words && words[w] == v
  }

  /** What the first switch to a new thread loads: it enters the wrapper in the kernel's
      code segment with `entry` and `arg` as its arguments, on an empty stack, with the
      interrupt flag and the flag that is always set. */
  ghost predicate StartsIn(words: Words, a: nat, entry: word, arg: word, wrapper: word, top: word, pid: int) {
    var s := ProcessStruct();
    var rdi, rsi, cs, rbp, rsp, rip, rflags := Field(s, 0, 4), Field(s, 0, 5), Field(s, 1, 0),
        Field(s, 2, 0), Field(s, 2, 1), Field(s, 2, 2), Field(s, 2, 3);
    && Holds(words, a + rdi, entry) && Holds(words, a + rsi, arg)
    && Holds(words, a + rip, wrapper) && Holds(words, a + cs, 8)
    && Holds(words, a + rbp, top) && Holds(words, a + rsp, top)
    && Holds(words, a + rflags, 0x200 + 0x2)
    && Holds(words, a + Field(s, 3, 0), pid % 0x1_0000_0000)
    && Holds(words, a + Field(s, 4, 0), top)
  }

  /** The offsets are those of the structure. */
  lemma ContextOffsets()
    ensures var s := ProcessStruct();
      && RDI == Field(s, 0, 4) && RSI == Field(s, 0, 5) && CS == Field(s, 1, 0)
      && RBP == Field(s, 2, 0) && RSP == Field(s, 2, 1) && RIP == Field(s, 2, 2) && RFLAGS == Field(s, 2, 3)
      && PID == Field(s, 3, 0) && STACK_TOP == Field(s, 4, 0) && LINKS == Field(s, 4, 1)
      && PROCESS_SIZE == End(s, 5)
  {
    StructStarts();
  }

  lemma FilledStarts(words: Words, a: nat, entry: word, arg: word, wrapper: word, top: word, pid: int)
    requires FilledTo(words, a, InitialFields(entry, arg, wrapper, top, pid), LINKS)
    ensures StartsIn(words, a, entry, arg, wrapper, top, pid)
  {
    var fields := InitialFields(entry, arg, wrapper, top, pid);
    ContextOffsets();
    FieldIs(words, a, fields, RDI, entry);
    FieldIs(words, a, fields, RSI, arg);
    FieldIs(words, a, fields, CS, 8);
    FieldIs(words, a, fields, RBP, top);
    FieldIs(words, a, fields, RSP, top);
    FieldIs(words, a, fields, RIP, wrapper);
    FieldIs(words, a, fields, RFLAGS, 0x200 + 0x2);
    FieldIs(words, a, fields, PID, pid % 0x1_0000_0000);
    FieldIs(words, a, fields, STACK_TOP, top);
    hide Field, FilledTo, InitialFields, Holds;
  }

  lemma FieldIs(words: Words, a: nat, fields: map<nat, word>, o: nat, v: word)
    requires FilledTo(words, a, fields, LINKS) && o < LINKS && o % 8 == 0 && o in fields && fields[o] == v
    ensures Holds(words, a + o, v)
  {
  }

  function StackFields(top: word, pid: word): (fields: map<nat, word>) {
    map[][STACK_TOP := top][PID := pid][RBP := top][RSP := top]
  }

  lemma AllFields(entry: word, arg: word, wrapper: word, top: word, pid: int)
    ensures StackFields(top, pid % 0x1_0000_0000)[RIP := wrapper][RDI := entry][RSI := arg]
              [CS := KERNEL_CODE_SELECTOR][RFLAGS := INITIAL_FLAGS]
         == InitialFields(entry, arg, wrapper, top, pid)
  {
  }

  lemma ZeroIsFilled(words: Words, l: Layout, brk: nat, a: nat)
    requires ZeroBytes(words, a, PROCESS_SIZE) && LayoutOk(l, brk)
    requires HEADER <= a && HeaderOf(a) in l.live && l.live[HeaderOf(a)] == CONTEXT
    ensures Filled(words, a, map[])
  {
    hide LayoutOk;
    forall o | 0 <= o < PROCESS_SIZE && o % 8 == 0
      ensures a + o in words && words[a + o] == 0
    {
      ContextWord(l, brk, a, o);
      PayloadInUnit(l, brk, HeaderOf(a), a + o);
      LiveStart(l, brk, HeaderOf(a));
      WholeWord(a, o);
    }
  }

  lemma WholeWord(a: nat, o: nat)
    requires o < PROCESS_SIZE && o % 8 == 0
    ensures a + o + 8 <= a + PROCESS_SIZE
  {
  }

  lemma FilledKept(words: Words, words': Words, l: Layout, brk: nat, p: Layout, a: nat, fields: map<nat, word>)
    requires Filled(words, a, fields) && LayoutOk(l, brk) && PayloadsKept(words, words', p)
    requires HEADER <= a && HeaderOf(a) in l.live && l.live[HeaderOf(a)] == CONTEXT
    requires HeaderOf(a) in p.live && p.live[HeaderOf(a)] == CONTEXT
    ensures Filled(words', a, fields)
  {
    hide LayoutOk;
    forall o | 0 <= o < PROCESS_SIZE && o % 8 == 0
      ensures a + o in words' && words'[a + o] == words[a + o]
    {
      ContextWord(l, brk, a, o);
      assert InPayload(p, HeaderOf(a), a + o);
    }
  }

  lemma FieldThere(words: Words, a: nat, fields: map<nat, word>, o: nat)
    requires Filled(words, a, fields) && o < PROCESS_SIZE && o % 8 == 0
    ensures a + o in words
  {
  }

  lemma FreedGrid(l: Layout, brk: nat, a: nat, o: nat)
    requires LayoutOk(l, brk) && HEADER <= a && IsFreed(l, HeaderOf(a), BLOCK) && o % 8 == 0
    ensures (a + o) % 8 == 0
  {
    UnitStart(l, brk, HeaderOf(a));
    hide LayoutOk;
    PayloadGrid(HeaderOf(a), o);
  }

  lemma FieldSet(words: Words, a: nat, fields: map<nat, word>, o: nat, v: word)
    requires Filled(words, a, fields) && o < PROCESS_SIZE && o % 8 == 0
    ensures Filled(words[a + o := v], a, fields[o := v])
  {
  }

  class ThreadTable {
    const procs: ProcTable
    const stacks: ThreadStacks
    /** Where each thread's process_t lies. */
    var context: map<Process, nat>

    ghost var slot: map<Process, nat>

    ghost predicate HomesOk()
      reads this, stacks, stacks.alloc
    {
      Homes(stacks.alloc.words, stacks.alloc.layout.live, stacks.free, stacks.live, context, slot)
    }

    /** These are the queued threads. */
    ghost predicate QueuedAre(threads: set<Process>)
      reads procs, procs.sched, procs.sched.queue, procs.waits, procs.members
    {
      && procs.Valid() && threads <= procs.members
      && forall t :: t in procs.members ==> (Queued(procs.s, t) <==> t in threads)
    }

    ghost predicate Valid()
      reads this, procs, procs.sched, procs.sched.queue, procs.waits, procs.members
      reads stacks, stacks.alloc, stacks.heap, stacks.space, stacks.space.fa, stacks.space.mem
    {
      QueuedAre(context.Keys) && stacks.Valid() && HomesOk()
    }

    constructor (procs: ProcTable, stacks: ThreadStacks)
      requires procs.Valid() && stacks.Valid()
      requires forall t :: t in procs.members ==> !Queued(procs.s, t)
      ensures Valid() && this.procs == procs && this.stacks == stacks && context == map[]
    {
      this.procs := procs;
      this.stacks := stacks;
      context := map[];
      slot := map[];
      hide ThreadStacks.Valid, ProcTable.Valid, Queued;
    }

    /** The block at a is being made the context of a thread to come. */
    ghost predicate Drafting(a: nat, fields: map<nat, word>)
      reads this, stacks, stacks.alloc, stacks.heap, stacks.space, stacks.space.fa, stacks.space.mem
    {
      && stacks.Valid() && HomesOk()
      && HEADER <= a && HeaderOf(a) in stacks.alloc.layout.live && stacks.alloc.layout.live[HeaderOf(a)] == CONTEXT
      && NoNodeIn(stacks.free, HeaderOf(a)) && (forall u :: u in context ==> context[u] != a)
      && Filled(stacks.alloc.words, a, fields)
    }

    /** One assignment to a field of such a context. */
    method SetField(a: nat, o: nat, v: word, ghost fields: map<nat, word>)
      requires Drafting(a, fields) && o < PROCESS_SIZE && o % 8 == 0
      modifies stacks.alloc`words, stacks.space`view, stacks.space.mem
      ensures Drafting(a, fields[o := v])
    {
      hide ThreadStacks.Valid, LayoutOk, NodeChain, Homes, Filled, InPayload, NoNodeIn;
      ghost var l, brk := stacks.alloc.layout, stacks.heap.kernelBrk;
      StackFacts();
      ContextWord(l, brk, a, o);
      HomesAfterStore(stacks.alloc.words, a + o, v, l, brk, stacks.free, stacks.live, context, slot, HeaderOf(a));
      FieldThere(stacks.alloc.words, a, fields, o);
      FieldSet(stacks.alloc.words, a, fields, o, v);
      stacks.ClientStore(HeaderOf(a), a + o, v);
    }

    /** The kcalloc of a new context. */
    method NewContext() returns (a: nat)
      requires stacks.Valid() && HomesOk() && stacks.alloc.Room(208)
      modifies stacks.alloc, stacks.heap
      modifies stacks.space`nodes, stacks.space`owner, stacks.space`view, stacks.space.fa, stacks.space.mem
      ensures Drafting(a, map[])
      ensures stacks.space.fa.Available() >= old(stacks.space.fa.Available()) - 4
      ensures stacks.space.Total() == old(stacks.space.Total())
    {
      hide HeapInv, UnitsBacked, HeapPages, Slots, StackPages, NodeChain, Homes, Filled, NoNodeIn;
      hide PayloadsKept, ZeroBytes, AddressSpace.Valid, Product, Full, PoolFor;
      ContextBlock();
      ghost var l, brk := stacks.alloc.layout, stacks.heap.kernelBrk;
      InvIsLayout(stacks.alloc.words, stacks.alloc.pools, l, brk, stacks.alloc.table);
      HomesElsewhere(stacks.alloc.words, l.live, stacks.free, stacks.live, context, slot);
      a := stacks.ClientKcalloc(1, PROCESS_SIZE);
      var alloc := stacks.alloc;
      InvIsLayout(alloc.words, alloc.pools, alloc.layout, stacks.heap.kernelBrk, alloc.table);
      BrkBasics(stacks.space.mem.ram, stacks.space.nodes, stacks.space.owner, stacks.heap.kernelBrk);
      hide LayoutOk;
      NotANode(old(stacks.alloc.words), l, stacks.freeHead, stacks.free, HeaderOf(a));
      HomesAfterKmalloc(old(stacks.alloc.words), stacks.alloc.words, l, brk, stacks.alloc.layout, HeaderOf(a),
                        stacks.free, stacks.live, context, slot);
      ZeroIsFilled(stacks.alloc.words, stacks.alloc.layout, stacks.heap.kernelBrk, a);
    }

    /** The stack of a new thread with context a. */
    method NewStack(a: nat) returns (top: word, ghost j: nat)
      requires Drafting(a, map[]) && stacks.space.fa.Available() >= 6
      requires stacks.free == [] ==> Base(stacks.count + 1) <= KERNEL_TEXT_START
      modifies stacks, stacks.alloc
      modifies stacks.space`nodes, stacks.space`owner, stacks.space`view, stacks.space.fa, stacks.space.mem
      ensures Drafting(a, map[])
      ensures j !in old(stacks.live) && stacks.live == old(stacks.live) + {j} && top == Top(j)
      ensures forall u :: u in slot ==> slot[u] != j
      ensures stacks.space.Total() == old(stacks.space.Total())
    {
      hide HeapInv, UnitsBacked, HeapPages, Slots, StackPages, NodeChain, Homes, Filled, NoNodeIn;
      hide PayloadsKept, AddressSpace.Valid, BlocksAfter;
      ghost var w, l, brk := stacks.alloc.words, stacks.alloc.layout, stacks.heap.kernelBrk;
      ghost var head, free, live := stacks.freeHead, stacks.free, stacks.live;
      InvIsLayout(w, stacks.alloc.pools, l, brk, stacks.alloc.table);
      hide LayoutOk;
      HomesElsewhere(w, l.live, free, live, context, slot);
      ListHead(w, l, head, free);
      StillABlock(l.live, head, free, HeaderOf(a));
      j := if free != [] then free[0].slot else stacks.count;
      var newTop := stacks.AllocStack();
      LiveTop(stacks.count, stacks.free, stacks.live, j);
      top := newTop;
      StillNoNode(free, stacks.free, HeaderOf(a));
      HomesAfterStack(w, stacks.alloc.words, l, brk, stacks.alloc.layout, head, free, stacks.free, live, j,
                      context, slot);
      FilledKept(w, stacks.alloc.words, l, brk, stacks.alloc.layout, a, map[]);
    }

    /** The assignments to the fields of a new context. */
    method FillContext(a: nat, entry: word, arg: word, wrapper: word, top: word)
      requires Drafting(a, map[])
      modifies stacks.alloc`words, stacks.space`view, stacks.space.mem
      ensures Drafting(a, InitialFields(entry, arg, wrapper, top, procs.pid))
    {
      hide Drafting, StackFields, InitialFields;
      var pid: word := procs.pid % 0x1_0000_0000;
      FillStack(a, top, pid);
      ghost var f := StackFields(top, pid);
      SetField(a, RIP, wrapper, f);
      SetField(a, RDI, entry, f[RIP := wrapper]);
      SetField(a, RSI, arg, f[RIP := wrapper][RDI := entry]);
      SetField(a, CS, KERNEL_CODE_SELECTOR, f[RIP := wrapper][RDI := entry][RSI := arg]);
      SetField(a, RFLAGS, INITIAL_FLAGS, f[RIP := wrapper][RDI := entry][RSI := arg][CS := KERNEL_CODE_SELECTOR]);
      AllFields(entry, arg, wrapper, top, procs.pid);
    }

    method FillStack(a: nat, top: word, pid: word)
      requires Drafting(a, map[])
      modifies stacks.alloc`words, stacks.space`view, stacks.space.mem
      ensures Drafting(a, StackFields(top, pid))
    {
      hide Drafting;
      SetField(a, STACK_TOP, top, map[]);
      SetField(a, PID, pid, map[][STACK_TOP := top]);
      SetField(a, RBP, top, map[][STACK_TOP := top][PID := pid]);
      SetField(a, RSP, top, map[][STACK_TOP := top][PID := pid][RBP := top]);
    }

    /** All that a new thread needs before it is admitted. */
    method MakeHome(entry: word, arg: word, wrapper: word) returns (a: nat, ghost j: nat)
      requires stacks.Valid() && HomesOk() && stacks.alloc.Room(208) && stacks.space.fa.Available() >= 10
      requires stacks.free == [] ==> Base(stacks.count + 1) <= KERNEL_TEXT_START
      modifies stacks, stacks.alloc, stacks.heap
      modifies stacks.space`nodes, stacks.space`owner, stacks.space`view, stacks.space.fa, stacks.space.mem
      ensures j !in old(stacks.live) && stacks.live == old(stacks.live) + {j} && Top(j) < TWO_64
      ensures Drafting(a, InitialFields(entry, arg, wrapper, Top(j), procs.pid))
      ensures forall u :: u in slot ==> slot[u] != j
      ensures stacks.space.Total() == old(stacks.space.Total())
    {
      hide Drafting, HomesOk, ThreadStacks.Valid;
      a := NewContext();
      var top;
      top, j := NewStack(a);
      FillContext(a, entry, arg, wrapper, top);
    }

    /** Admission of a new thread to the home made for it. */
    method AdmitThread(a: nat, ghost j: nat, ghost fields: map<nat, word>) returns (t: Process)
      requires QueuedAre(context.Keys) && Drafting(a, fields)
      requires j in stacks.live && STACK_TOP in fields && fields[STACK_TOP] == Top(j)
      requires forall u :: u in slot ==> slot[u] != j
      modifies this, procs`pid, procs`s, procs`members, procs.sched.queue, procs.s.ready.q
      ensures Valid() && fresh(t) && procs.s == Create(old(procs.s), t)
      ensures context == old(context)[t := a] && slot == old(slot)[t := j]
      ensures t.pid == old(procs.pid) && procs.pid == old(procs.pid) + 1
    {
      hide Homes, Filled, Queued, ProcTable.Valid, ThreadStacks.Valid, NoNodeIn, HomeOk, Create;
      NewHome(stacks.alloc.words, stacks.alloc.layout.live, stacks.free, stacks.live, a, j, fields);
      HomesElsewhere(stacks.alloc.words, stacks.alloc.layout.live, stacks.free, stacks.live, context, slot);
      procs.AllMembers();
      ghost var s0, members0 := procs.s, procs.members;
      t := procs.CreateKthread();
      CreatedIsQueued(s0, members0, t);
      HomesAdd(stacks.alloc.words, stacks.alloc.layout.live, stacks.free, stacks.live, context, slot, t, a, j);
      context := context[t := a];
      slot := slot[t := j];
    }

    /** PROC_create_kthread: a zeroed context, a stack, the fields, and admission. */
    method CreateThread(entry: word, arg: word, wrapper: word) returns (t: Process)
      requires Valid() && stacks.alloc.Room(208) && stacks.space.fa.Available() >= 10
      requires stacks.free == [] ==> Base(stacks.count + 1) <= KERNEL_TEXT_START
      modifies this, procs`pid, procs`s, procs`members, procs.sched.queue, procs.s.ready.q
      modifies stacks, stacks.alloc, stacks.heap
      modifies stacks.space`nodes, stacks.space`owner, stacks.space`view, stacks.space.fa, stacks.space.mem
      ensures Valid() && fresh(t) && procs.s == Create(old(procs.s), t)
      ensures t in context && context == old(context)[t := context[t]]
      ensures t in slot && slot == old(slot)[t := slot[t]]
      ensures slot[t] !in old(stacks.live) && stacks.live == old(stacks.live) + {slot[t]} && Top(slot[t]) < TWO_64
      ensures FilledTo(stacks.alloc.words, context[t],
                       InitialFields(entry, arg, wrapper, Top(slot[t]), old(procs.pid)), LINKS)
      ensures StartsIn(stacks.alloc.words, context[t], entry, arg, wrapper, Top(slot[t]), old(procs.pid))
      ensures t.pid == old(procs.pid) && procs.pid == old(procs.pid) + 1
      ensures stacks.space.Total() == old(stacks.space.Total())
    {
      hide StartsIn, HomesOk, FilledTo, QueuedAre, ProcTable.Valid, ThreadStacks.Valid, NoNodeIn, Create, InitialFields;
      var a;
      ghost var j;
      a, j := MakeHome(entry, arg, wrapper);
      ghost var fields := InitialFields(entry, arg, wrapper, Top(j), procs.pid);
      StackTopField(entry, arg, wrapper, Top(j), procs.pid);
      t := AdmitThread(a, j, fields);
      WithoutLinks(stacks.alloc.words, a, fields);
      FilledStarts(stacks.alloc.words, a, entry, arg, wrapper, Top(j), old(procs.pid));
    }

    lemma StackMemory()
      requires stacks.Valid()
      ensures stacks.alloc.Valid() && stacks.alloc.Memory()
    {
      hide NodeChain, Slots, StackPages, UnitsBacked, Allocator.Memory, HeapInv;
    }

    lemma StackFacts()
      requires stacks.Valid()
      ensures LayoutOk(stacks.alloc.layout, stacks.heap.kernelBrk)
      ensures NodeChain(stacks.alloc.words, stacks.alloc.layout.live, stacks.freeHead, stacks.free)
    {
      hide NodeChain, Slots, StackPages, UnitsBacked, Allocator.Memory, HeapInv;
      var alloc := stacks.alloc;
      InvIsLayout(alloc.words, alloc.pools, alloc.layout, stacks.heap.kernelBrk, alloc.table);
    }

    /** MMU_free_stack of the stack that a thread's context names. */
    method ReleaseStack(t: Process)
      requires stacks.Valid() && HomesOk() && t in context && stacks.alloc.Room(32)
      modifies this, stacks, stacks.alloc, stacks.heap
      modifies stacks.space`nodes, stacks.space`owner, stacks.space`view, stacks.space.fa, stacks.space.mem
      ensures stacks.Valid() && HomesOk()
      ensures context == old(context) - {t} && slot == old(slot) - {t}
      ensures stacks.live == old(stacks.live) - {old(slot)[t]}
      ensures Spare(old(context)[t])
      ensures stacks.space.Total() == old(stacks.space.Total())
    {
      hide ThreadStacks.Valid, Allocator.Valid, Allocator.Memory, LayoutOk, NodeChain, NoNodeIn, PayloadsKept, PoolFor;
      ghost var w, l, brk := stacks.alloc.words, stacks.alloc.layout, stacks.heap.kernelBrk;
      ghost var free, live := stacks.free, stacks.live;
      StackFacts();
      assert HomeOk(w, l.live, free, live, context[t], slot[t]);
      hide Homes;
      StackMemory();
      var top := stacks.alloc.Peek(context[t] + STACK_TOP);
      stacks.FreeStack(top, slot[t]);
      StackFacts();
      ListHead(stacks.alloc.words, stacks.alloc.layout, stacks.freeHead, stacks.free);
      HomesAfterFreeStack(w, stacks.alloc.words, l, brk, stacks.alloc.layout, stacks.freeHead,
                          free, stacks.free, live, context, slot, t);
      context, slot := context - {t}, slot - {t};
    }

    /** The block at a is a context that no thread has any more. */
    ghost predicate Spare(a: nat)
      reads this, stacks, stacks.alloc
    {
      && HEADER <= a && HeaderOf(a) in stacks.alloc.layout.live && NoNodeIn(stacks.free, HeaderOf(a))
      && stacks.alloc.layout.live[HeaderOf(a)] == CONTEXT
      && forall u :: u in context ==> context[u] != a
    }

    /** kfree of such a context. */
    method ReleaseContext(a: nat)
      requires stacks.Valid() && HomesOk() && Spare(a)
      modifies stacks.alloc, stacks.space`owner, stacks.space`view, stacks.space.fa, stacks.space.mem
      ensures stacks.Valid() && HomesOk()
      ensures stacks.alloc.layout.live == old(stacks.alloc.layout.live) - {HeaderOf(a)}
      ensures IsFreed(stacks.alloc.layout, HeaderOf(a), BLOCK)
      ensures stacks.space.Total() == old(stacks.space.Total())
    {
      hide HeapInv, UnitsBacked, HeapPages, Slots, StackPages, NodeChain, Homes, NoNodeIn;
      hide PayloadsKept, AddressSpace.Valid, KernelHeap.Valid;
      ghost var w, l, brk := stacks.alloc.words, stacks.alloc.layout, stacks.heap.kernelBrk;
      InvIsLayout(w, stacks.alloc.pools, l, brk, stacks.alloc.table);
      hide LayoutOk;
      stacks.ClientKfree(a);
      HomesAfterKfree(w, stacks.alloc.words, l, brk, stacks.alloc.layout, HeaderOf(a),
                      stacks.free, stacks.live, context, slot);
    }

    /** sched_remove of the running thread, PROC_reschedule and the context switch. */
    method LeaveQueues(ghost threads: set<Process>)
      requires QueuedAre(threads) && Settled(procs.s, procs.orig) && procs.curr != procs.orig
      modifies procs`s, procs`curr, procs`next, procs.sched`current, procs.sched.queue, procs.members
      ensures QueuedAre(threads - {old(procs.curr)}) && exists i :: ExitedAt(old(procs.s), procs.s, procs.orig, i)
    {
      hide ExitedAt, Queued, ProcTable.Valid, Exit, Switch, Settled, Placed;
      procs.Running();
      ExitedIsQueued(procs.s, procs.orig);
      procs.ExitProc();
    }

    // ----- while threads run -----

    /** The yield and switch of the running thread. */
    method YieldThread()
      requires Valid()
      modifies procs`curr, procs`next, procs`s, procs.sched`current
      ensures Valid() && SwitchedTo(old(procs.s), procs.s, procs.orig)
    {
      hide SwitchedTo, Queued, ProcTable.Valid, Placed, ThreadStacks.Valid, HomesOk;
      procs.Running();
      YieldPlaced(procs.s, procs.orig);
      procs.Yield();
    }

    method BlockThread(w: nat)
      requires Valid() && w < |procs.waits| && Settled(procs.s, procs.orig) && procs.curr != procs.orig
      modifies procs`s, procs.sched`current, procs.sched.queue, procs.waits[w], procs.members
      ensures Valid() && w < |old(procs.s).waits| && procs.curr == old(procs.curr)
      ensures procs.s.waits == old(procs.s).waits[w := old(procs.s).waits[w] + [old(procs.curr)]]
      ensures exists i :: LeftAt(old(procs.s), procs.s, i)
    {
      hide LeftAt, Queued, ProcTable.Valid, Placed, ThreadStacks.Valid, HomesOk, BlockOn, Settled;
      procs.Running();
      BlockPlaced(procs.s, procs.orig, w);
      procs.BlockProc(w);
    }

    method WakeThread(w: nat) returns (woken: bool)
      requires Valid() && w < |procs.waits|
      modifies procs`s, procs.sched.queue, procs.waits[w], procs.members
      ensures Valid() && w < |old(procs.s).waits| && procs.s == UnblockHead(old(procs.s), w)
      ensures woken <==> old(procs.s).waits[w] != []
    {
      hide Queued, ProcTable.Valid, Placed, ThreadStacks.Valid, HomesOk, UnblockHead;
      procs.Running();
      UnblockPlaced(procs.s, procs.orig, w);
      woken := procs.UnblockHeadProc(w);
    }

    method WakeThreads(w: nat)
      requires Valid() && w < |procs.waits|
      modifies procs`s, procs.sched.queue, procs.waits[w], procs.members
      ensures Valid() && w < |old(procs.s).waits| && procs.s == UnblockAll(old(procs.s), w)
    {
      hide Queued, ProcTable.Valid, Placed, ThreadStacks.Valid, HomesOk, UnblockAll;
      procs.Running();
      UnblockAllPlaced(procs.s, procs.orig, w);
      procs.UnblockAllProc(w);
    }

    /** The context switch saves one of a thread's registers in its context. */
    method SaveRegister(t: Process, a: nat, o: nat, v: word)
      requires Valid() && t in context && context[t] == a && o < PID && o % 8 == 0
      modifies stacks.alloc`words, stacks.space`view, stacks.space.mem
      ensures Valid() && stacks.alloc.words == old(stacks.alloc.words)[a + o := v]
    {
      hide HeapInv, UnitsBacked, HeapPages, Slots, StackPages, NodeChain, InPayload, NoNodeIn, QueuedAre;
      hide HomeOk, ThreadStacks.Valid, LayoutOk, Allocator.Valid, Allocator.Memory;
      ghost var l, brk := stacks.alloc.layout, stacks.heap.kernelBrk;
      StackFacts();
      HomeBlock(stacks.alloc.words, l.live, stacks.free, stacks.live, context[t], slot[t]);
      ContextWord(l, brk, context[t], o);
      StackMemory();
      stacks.alloc.PayloadTouched(HeaderOf(a), a + o);
      HomesAfterSave(stacks.alloc.words, o, v, l, brk, stacks.free, stacks.live, context, slot, t);
      stacks.ClientStore(HeaderOf(a), a + o, v);
    }

    /** h is a block of a client: neither a context nor a node of the list of stacks. */
    ghost predicate ClientBlock(h: nat)
      reads this, stacks, stacks.alloc
    {
      && h in stacks.alloc.layout.live && NoNodeIn(stacks.free, h)
      && forall t :: t in context ==> context[t] != h + HEADER
    }

    /** kmalloc by a client: what it gets is nobody's. */
    method ClientKmalloc(size: nat) returns (addr: nat)
      requires Valid() && size < TWO_64 && stacks.alloc.Room(Full(size))
      modifies stacks.alloc, stacks.heap
      modifies stacks.space`nodes, stacks.space`owner, stacks.space`view, stacks.space.fa, stacks.space.mem
      ensures Valid() && HEADER <= addr && ClientBlock(HeaderOf(addr))
      ensures HeaderOf(addr) !in old(stacks.alloc.layout.live)
      ensures stacks.alloc.layout.live ==
              old(stacks.alloc.layout.live)[HeaderOf(addr) := Block(PoolFor(Full(size)), Full(size))]
      ensures PayloadsKept(old(stacks.alloc.words), stacks.alloc.words, old(stacks.alloc.layout))
    {
      hide ThreadStacks.Valid, LayoutOk, NodeChain, NoNodeIn, PayloadsKept, PoolFor, Full, QueuedAre, HomeOk;
      hide Allocator.Room;
      ghost var w, l, brk := stacks.alloc.words, stacks.alloc.layout, stacks.heap.kernelBrk;
      StackFacts();
      HomesElsewhere(w, l.live, stacks.free, stacks.live, context, slot);
      hide Homes;
      addr := stacks.ClientKmalloc(size);
      NotANode(w, l, stacks.freeHead, stacks.free, HeaderOf(addr));
      HomesAfterKmalloc(w, stacks.alloc.words, l, brk, stacks.alloc.layout, HeaderOf(addr),
                        stacks.free, stacks.live, context, slot);
    }

    /** kfree by a client, of a block of its own. */
    method ClientKfree(addr: nat)
      requires Valid() && HEADER <= addr && ClientBlock(HeaderOf(addr))
      modifies stacks.alloc, stacks.space`owner, stacks.space`view, stacks.space.fa, stacks.space.mem
      ensures Valid()
      ensures stacks.alloc.layout.live == old(stacks.alloc.layout.live) - {HeaderOf(addr)}
      ensures PayloadsKept(old(stacks.alloc.words), stacks.alloc.words, stacks.alloc.layout)
    {
      hide ThreadStacks.Valid, LayoutOk, NodeChain, NoNodeIn, PayloadsKept, QueuedAre, Homes;
      ghost var w, l, brk := stacks.alloc.words, stacks.alloc.layout, stacks.heap.kernelBrk;
      StackFacts();
      stacks.ClientKfree(addr);
      HomesAfterKfree(w, stacks.alloc.words, l, brk, stacks.alloc.layout, HeaderOf(addr),
                      stacks.free, stacks.live, context, slot);
    }

    /** A store by a client into a block of its own. */
    method ClientStore(h: nat, w: nat, v: word)
      requires Valid() && ClientBlock(h) && InPayload(stacks.alloc.layout, h, w) && w in stacks.alloc.words
      modifies stacks.alloc`words, stacks.space`view, stacks.space.mem
      ensures Valid() && stacks.alloc.words == old(stacks.alloc.words)[w := v]
    {
      hide ThreadStacks.Valid, LayoutOk, NodeChain, NoNodeIn, InPayload, QueuedAre, Homes;
      StackFacts();
      HomesAfterStore(stacks.alloc.words, w, v, stacks.alloc.layout, stacks.heap.kernelBrk, stacks.free, stacks.live,
                      context, slot, h);
      stacks.ClientStore(h, w, v);
    }

    /** First touch of a heap page. */
    method TouchHeap(va: nat) returns (handled: bool)
      requires Valid() && KERNEL_HEAP_START <= va < stacks.heap.kernelBrk && stacks.space.fa.Available() > 0
      modifies stacks.alloc`words, stacks.space`owner, stacks.space`view, stacks.space.fa, stacks.space.mem
      ensures Valid() && (handled <==> old(stacks.space.LeafAt(va)).alloc)
    {
      hide ThreadStacks.Valid, QueuedAre, Homes, LayoutOk, PayloadsKept;
      StackFacts();
      handled := stacks.TouchHeap(va);
      HomesAfterDead(old(stacks.alloc.words), stacks.alloc.words, stacks.alloc.layout, stacks.heap.kernelBrk,
                     stacks.free, stacks.live, context, slot);
    }

    /** First touch of a page of a live stack. */
    method TouchStack(va: nat) returns (handled: bool)
      requires Valid() && InLiveStack(stacks.live, va) && InStackRegion(va) && stacks.space.fa.Available() > 0
      modifies stacks.space`owner, stacks.space`view, stacks.space.fa, stacks.space.mem
      ensures Valid() && (handled <==> old(stacks.space.LeafAt(va)).alloc)
    {
      hide ThreadStacks.Valid, QueuedAre, Homes, InLiveStack;
      handled := stacks.TouchStack(va);
    }

    // ----- exit -----

    lemma RunningHasHome()
      requires Valid() && Settled(procs.s, procs.orig) && procs.curr != procs.orig
      ensures procs.curr in context && procs.curr in slot
    {
      hide Queued, ProcTable.Valid, ThreadStacks.Valid, Settled, Placed, HomeOk, Exit, Switch;
      procs.Running();
      ExitedIsQueued(procs.s, procs.orig);
    }

    /** kexit_isr and the context switch: stack, queue place and context all go. */
    method ExitThread() returns (t: Process, a: nat)
      requires Valid() && Settled(procs.s, procs.orig) && procs.curr != procs.orig && stacks.alloc.Room(32)
      modifies this, procs`s, procs`curr, procs`next, procs.sched`current, procs.sched.queue, procs.members
      modifies stacks, stacks.alloc, stacks.heap
      modifies stacks.space`nodes, stacks.space`owner, stacks.space`view, stacks.space.fa, stacks.space.mem
      ensures Valid() && exists i :: ExitedAt(old(procs.s), procs.s, procs.orig, i)
      ensures t == old(procs.curr) && t in old(context) && a == old(context)[t] && t in old(slot)
      ensures context == old(context) - {t} && slot == old(slot) - {t}
      ensures stacks.live == old(stacks.live) - {old(slot)[t]} && HeaderOf(a) !in stacks.alloc.layout.live
      ensures IsFreed(stacks.alloc.layout, HeaderOf(a), BLOCK)
      ensures stacks.space.Total() == old(stacks.space.Total())
    {
      hide HomesOk, QueuedAre, ThreadStacks.Valid, ProcTable.Valid, NoNodeIn, Exit, Switch, Settled, Placed, ExitedAt;
      hide Allocator.Room, AddressSpace.Total;
      t := procs.curr;
      RunningHasHome();
      a := context[t];
      ReleaseStack(t);
      LeaveQueues(old(context.Keys));
      assert old(context.Keys) - {t} == context.Keys;
      ReleaseContext(a);
    }

    /** The context switch behind kexit_isr still saves the dead thread's registers
        into the context, which is free by then. The free list's link is in the block's
        header, so that disturbs neither the list nor anyone else. */
    method SaveDead(a: nat, o: nat, v: word)
      requires Valid() && HEADER <= a && IsFreed(stacks.alloc.layout, HeaderOf(a), BLOCK) && o < PID && o % 8 == 0
      modifies stacks.alloc`words, stacks.space`view, stacks.space.mem
      ensures Valid() && stacks.alloc.words == old(stacks.alloc.words)[a + o := v]
      ensures PayloadsKept(old(stacks.alloc.words), stacks.alloc.words, stacks.alloc.layout)
    {
      hide ThreadStacks.Valid, LayoutOk, NodeChain, NoNodeIn, QueuedAre, Homes, IsFreed, PayloadsKept;
      StackFacts();
      ghost var w, l := stacks.alloc.words, stacks.alloc.layout;
      FreedGrid(l, stacks.heap.kernelBrk, a, o);
      stacks.StoreFreed(HeaderOf(a), BLOCK, a + o, v);
      HomesAfterDead(w, stacks.alloc.words, l, stacks.heap.kernelBrk, stacks.free, stacks.live, context, slot);
    }
  }

  lemma HomesAfterDead(words: Words, words': Words, l: Layout, brk: nat, free: seq<Node>, live: set<nat>,
                       context: map<Process, nat>, slot: map<Process, nat>)
    requires Homes(words, l.live, free, live, context, slot) && LayoutOk(l, brk) && PayloadsKept(words, words', l)
    ensures Homes(words', l.live, free, live, context, slot)
  {
    hide LayoutOk, PayloadsKept, HomeOk;
    forall t | t in context
      ensures HomeOk(words', l.live, free, live, context[t], slot[t])
    {
      HomeBlock(words, l.live, free, live, context[t], slot[t]);
      HomeKept(words, words', l, brk, l, l.live, free, free, live, live, context[t], slot[t]);
    }
  }

  lemma ExitedIsQueued(s: Procs<Process>, orig: Process)
    requires Placed(s, orig) && Settled(s, orig) && s.curr != orig
    ensures Queued(s, s.curr)
    ensures forall t :: Queued(Switch(Exit(s, orig)), t) <==> Queued(s, t) && t != s.curr
  {
    ExitPlaced(s, orig);
  }

  lemma WithoutLinks(words: Words, a: nat, fields: map<nat, word>)
    requires Filled(words, a, fields)
    ensures FilledTo(words, a, fields, LINKS)
  {
  }

  lemma StackTopField(entry: word, arg: word, wrapper: word, top: word, pid: int)
    ensures var f := InitialFields(entry, arg, wrapper, top, pid); STACK_TOP in f && f[STACK_TOP] == top
  {
  }

  /** Homes use live blocks and live slots. */
  lemma HomesElsewhere(words: Words, blocks: map<nat, Block>, free: seq<Node>, live: set<nat>,
                       context: map<Process, nat>, slot: map<Process, nat>)
    requires Homes(words, blocks, free, live, context, slot)
    ensures context.Keys == slot.Keys
    ensures forall u :: u in context ==> HEADER <= context[u] && HeaderOf(context[u]) in blocks
    ensures forall u :: u in slot ==> slot[u] in live
  {
  }

  lemma NewHome(words: Words, blocks: map<nat, Block>, free: seq<Node>, live: set<nat>, a: nat, j: nat,
                fields: map<nat, word>)
    requires HEADER <= a && HeaderOf(a) in blocks && blocks[HeaderOf(a)] == CONTEXT && NoNodeIn(free, HeaderOf(a))
    requires j in live && Filled(words, a, fields) && STACK_TOP in fields && fields[STACK_TOP] == Top(j)
    ensures HomeOk(words, blocks, free, live, a, j)
  {
  }

  lemma LiveTop(count: nat, free: seq<Node>, live: set<nat>, j: nat)
    requires Slots(count, free, live) && j in live && Base(count) <= KERNEL_TEXT_START
    ensures Top(j) <= KERNEL_TEXT_START
  {
  }

  lemma CreatedIsQueued(s: Procs<Process>, members: set<Process>, t: Process)
    requires t !in members && InMembers(s, members)
    ensures forall u :: u in members ==> (Queued(Create(s, t), u) <==> Queued(s, u))
    ensures Queued(Create(s, t), t)
  {
  }
}
