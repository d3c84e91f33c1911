/** How each allocator step changes the heap of KmallocHeap, and that it keeps the
    heap's invariant. */
module KmallocSteps {
  import opened MemDef
  import opened KmallocHeap

  /** A word of one unit's start is not the start, or the size word, of another. */
  lemma StartApart(l: Layout, brk: nat, h: nat, g: nat)
    requires LayoutOk(l, brk) && h in l.units && g in l.units && g != h
    ensures g != h + 8 && g + 8 != h && g + 8 != h + 8
  {
    hide FreeOk, LiveOk, Covered;
    assert g < h ==> g + l.units[g] <= h;
    assert h < g ==> h + l.units[h] <= g;
  }

  lemma InListIsUnit(l: Layout, brk: nat, i: nat, b: nat)
    requires LayoutOk(l, brk) && i < NUM_POOLS && b in l.free[i]
    ensures |l.free| == NUM_POOLS && b in l.units && l.units[b] == BlockSize(i) && b !in l.live
    ensures forall j :: 0 <= j < NUM_POOLS && j != i ==> b !in l.free[j]
  {
    assert FreeOk(l) && |l.free| == NUM_POOLS;
    hide LayoutOk, FreeOk, BlockSize;
    ListedUnit(l, i, b);
    forall j | 0 <= j < NUM_POOLS && b in l.free[j]
      ensures j == i
    {
      ListedUnit(l, j, b);
      SizesDiffer(i, j);
    }
  }

  lemma ListedUnit(l: Layout, i: nat, b: nat)
    requires FreeOk(l) && i < NUM_POOLS && b in l.free[i]
    ensures b in l.units && l.units[b] == BlockSize(i) && b !in l.live
  {
    hide BlockSize;
  }

  lemma SizesDiffer(i: nat, j: nat)
    requires i < NUM_POOLS && j < NUM_POOLS
    ensures BlockSize(i) == BlockSize(j) <==> i == j
  {
  }

  /** Writing the two words at a unit's start does not touch any other unit's
      list node or header. */
  lemma {:induction false} ChainApart(words: Words, l: Layout, brk: nat, head: nat, i: nat, list: seq<nat>,
                                      h: nat, v: word, v': word)
    requires LayoutOk(l, brk) && h in l.units && i < NUM_POOLS
    requires Chain(words, head, list) && h !in list
    requires forall a :: a in list ==> a in l.free[i]
    ensures Chain(words[h := v], head, list)
    ensures Chain(words[h := v][h + 8 := v'], head, list)
  {
    hide Chain;
    forall a | a in list
      ensures a != h && a != h + 8
    {
      InListIsUnit(l, brk, i, a);
      StartApart(l, brk, h, a);
    }
    ChainFrame(words, words[h := v], head, list);
    ChainFrame(words, words[h := v][h + 8 := v'], head, list);
  }

  lemma HeadersApart(words: Words, l: Layout, brk: nat, table: nat, live: map<nat, Block>, h: nat, v: word, v': word)
    requires LayoutOk(l, brk) && h in l.units && h !in live && live.Keys <= l.units.Keys
    requires Headers(words, live, table)
    ensures Headers(words[h := v], live, table)
    ensures Headers(words[h := v][h + 8 := v'], live, table)
  {
    hide LayoutOk, PoolPtr;
    forall g | g in live
      ensures g != h + 8 && g + 8 != h && g + 8 != h + 8
    {
      StartApart(l, brk, h, g);
    }
  }

  lemma HeadersSub(words: Words, live: map<nat, Block>, table: nat, h: nat)
    requires Headers(words, live, table)
    ensures Headers(words, live - {h}, table)
  {
  }

  lemma LiveInUnits(l: Layout, brk: nat)
    requires LayoutOk(l, brk)
    ensures l.live.Keys <= l.units.Keys
  {
    hide PoolFor, UnitSize, Separate, UnitsIn, FreeOk, Covered;
  }

  lemma HeadersAdd(words: Words, live: map<nat, Block>, table: nat, h: nat, b: Block)
    requires Headers(words, live, table)
    requires h in words && words[h] == PoolPtr(table, b.pool) && h + 8 in words && words[h + 8] == b.full
    ensures Headers(words, live[h := b], table)
  {
  }

  // ----- taking a block from a pool -----

  ghost function PopLayout(l: Layout, i: nat, full: nat): (r: Layout)
    requires i < |l.free| && l.free[i] != []
  {
    Layout(l.units, l.free[i := l.free[i][1..]], l.live[l.free[i][0] := Block(i, full)])
  }

  lemma PopLayoutOk(l: Layout, brk: nat, i: nat, full: nat)
    requires LayoutOk(l, brk) && i < NUM_POOLS && l.free[i] != []
    requires i == PoolFor(full)
    ensures LayoutOk(PopLayout(l, i, full), brk)
  {
    InListIsUnit(l, brk, i, l.free[i][0]);
    PopFree(l, brk, i, full);
    hide PoolFor, FreeOk, Separate, UnitsIn, InSomeList, BlockSize;
    forall a | a in l.units
      ensures var l' := PopLayout(l, i, full); a in l'.live || InSomeList(l'.free, a)
    {
      PopCovered(l, i, full, a);
    }
  }

  lemma PopFree(l: Layout, brk: nat, i: nat, full: nat)
    requires LayoutOk(l, brk) && i < NUM_POOLS && l.free[i] != []
    ensures FreeOk(PopLayout(l, i, full))
  {
    hide PoolFor, LiveOk, Covered, Separate, UnitsIn, BlockSize;
    var l' := PopLayout(l, i, full);
    forall j, a | 0 <= j < NUM_POOLS && a in l'.free[j]
      ensures a in l.free[j] && a != l.free[i][0]
    {
      PopTail(l, brk, i, j, a);
    }
  }

  lemma PopTail(l: Layout, brk: nat, i: nat, j: nat, a: nat)
    requires LayoutOk(l, brk) && i < NUM_POOLS && j < NUM_POOLS && l.free[i] != []
    requires a in l.free[i := l.free[i][1..]][j]
    ensures a in l.free[j] && a != l.free[i][0]
  {
    InListIsUnit(l, brk, i, l.free[i][0]);
    hide LiveOk, Covered, Separate, UnitsIn;
    assert NoDup(l.free[i]);
  }

  lemma PopCovered(l: Layout, i: nat, full: nat, a: nat)
    requires i < |l.free| && l.free[i] != []
    requires a in l.live || InSomeList(l.free, a)
    ensures var l' := PopLayout(l, i, full); a in l'.live || InSomeList(l'.free, a)
  {
    if a !in l.live {
      var j :| 0 <= j < |l.free| && a in l.free[j];
      if j == i {
        assert l.free[i] == [l.free[i][0]] + l.free[i][1..];
      }
      assert a == l.free[i][0] || a in PopLayout(l, i, full).free[j];
    }
  }

  ghost function PopPools(words: Words, pools: Pools, i: nat): (r: Pools)
    requires |pools.avail| == |pools.head| == NUM_POOLS && i < NUM_POOLS
    requires pools.avail[i] > 0 && pools.head[i] in words
  {
    Pools(pools.avail[i := pools.avail[i] - 1], pools.head[i := words[pools.head[i]]])
  }

  /** pop_free_block and the header writes of kmalloc. */
  lemma PopKeeps(words: Words, pools: Pools, l: Layout, brk: nat, table: word, i: nat, full: word, ptr: word)
    requires HeapInv(words, pools, l, brk, table) && i < NUM_POOLS && l.free[i] != []
    requires i == PoolFor(full) && ptr == PoolPtr(table, i)
    ensures pools.head[i] == l.free[i][0] && pools.head[i] in words && pools.avail[i] > 0
    ensures HeapInv(Put(Put(words, l.free[i][0], ptr), l.free[i][0] + 8, full), PopPools(words, pools, i),
                    PopLayout(l, i, full), brk, table)
  {
    hide Chain, Separate, UnitsIn, FreeOk, LiveOk, Covered, PoolFor, BlockSize, Headers, PoolPtr;
    PopLayoutOk(l, brk, i, full);
    var b := l.free[i][0];
    InListIsUnit(l, brk, i, b);
    LiveInUnits(l, brk);
    HeadersApart(words, l, brk, table, l.live, b, ptr, full);
    HeadersAdd(words[b := ptr][b + 8 := full], l.live, table, b, Block(i, full));
    PopChain(words, pools, l, brk, table, i, i, ptr, full);
    forall j | 0 <= j < NUM_POOLS
      ensures Chain(words[b := ptr][b + 8 := full], PopPools(words, pools, i).head[j], PopLayout(l, i, full).free[j])
    {
      PopChain(words, pools, l, brk, table, i, j, ptr, full);
    }
  }

  lemma PopChain(words: Words, pools: Pools, l: Layout, brk: nat, table: nat, i: nat, j: nat, ptr: word, full: word)
    requires HeapInv(words, pools, l, brk, table) && i < NUM_POOLS && j < NUM_POOLS && l.free[i] != []
    ensures pools.head[i] == l.free[i][0] && pools.head[i] in words && pools.avail[i] > 0
    ensures Chain(words[l.free[i][0] := ptr][l.free[i][0] + 8 := full],
                  PopPools(words, pools, i).head[j], l.free[i := l.free[i][1..]][j])
  {
    LayoutFree(l, brk, i);
    hide LayoutOk, Headers, BlockSize;
    var b := l.free[i][0];
    InListIsUnit(l, brk, i, b);
    assert Chain(words, pools.head[i], l.free[i]) && Chain(words, pools.head[j], l.free[j]);
    if j == i {
      ChainApart(words, l, brk, words[b], i, l.free[i][1..], b, ptr, full);
    } else {
      ChainApart(words, l, brk, pools.head[j], j, l.free[j], b, ptr, full);
    }
  }

  lemma LayoutFree(l: Layout, brk: nat, i: nat)
    requires LayoutOk(l, brk) && i < NUM_POOLS
    ensures |l.free| == NUM_POOLS && NoDup(l.free[i])
  {
  }

  // ----- giving a block back -----

  ghost function PushLayout(l: Layout, h: nat): (r: Layout)
    requires h in l.live && l.live[h].pool < |l.free|
  {
    var i := l.live[h].pool;
    Layout(l.units, l.free[i := [h] + l.free[i]], l.live - {h})
  }

  lemma PushFreed(l: Layout, brk: nat, h: nat)
    requires LayoutOk(l, brk) && h in l.live && l.live[h].pool < NUM_POOLS
    ensures IsFreed(PushLayout(l, h), h, BlockSize(l.live[h].pool))
  {
    LiveNotFree(l, brk, h);
    hide BlockSize;
    var r := PushLayout(l, h);
    assert h in r.free[l.live[h].pool];
  }

  lemma LiveNotFree(l: Layout, brk: nat, h: nat)
    requires LayoutOk(l, brk) && h in l.live
    ensures h in l.units && forall j :: 0 <= j < NUM_POOLS ==> h !in l.free[j]
    ensures l.live[h].pool < NUM_POOLS ==> l.units[h] == BlockSize(l.live[h].pool)
  {
  }

  lemma PushLayoutOk(l: Layout, brk: nat, h: nat)
    requires LayoutOk(l, brk) && h in l.live && l.live[h].pool < NUM_POOLS
    ensures LayoutOk(PushLayout(l, h), brk)
  {
    hide PoolFor, Separate, UnitsIn, FreeOk, BlockSize, InSomeList;
    LiveNotFree(l, brk, h);
    LayoutFree(l, brk, 0);
    var l' := PushLayout(l, h);
    PushFree(l, h);
    forall a | a in l.units
      ensures a in l'.live || InSomeList(l'.free, a)
    {
      PushCovered(l, h, a);
    }
  }

  lemma PushFree(l: Layout, h: nat)
    requires FreeOk(l) && h in l.live && l.live[h].pool < NUM_POOLS && h in l.units
    requires l.units[h] == BlockSize(l.live[h].pool)
    requires forall j :: 0 <= j < NUM_POOLS ==> h !in l.free[j]
    ensures FreeOk(PushLayout(l, h))
  {
    hide BlockSize;
    var l' := PushLayout(l, h);
    var i := l.live[h].pool;
    forall j, a | 0 <= j < NUM_POOLS && a in l'.free[j]
      ensures a in l.free[j] || (a == h && j == i)
    {
    }
    assert NoDup([h] + l.free[i]);
  }

  lemma PushCovered(l: Layout, h: nat, a: nat)
    requires h in l.live && l.live[h].pool < |l.free|
    requires a in l.live || InSomeList(l.free, a)
    ensures var l' := PushLayout(l, h); a in l'.live || InSomeList(l'.free, a)
  {
    var l' := PushLayout(l, h);
    if a == h {
      assert a in l'.free[l.live[h].pool];
    } else if a !in l.live {
      var j :| 0 <= j < |l.free| && a in l.free[j];
      assert a in l'.free[j];
    }
  }

  ghost function PushPools(pools: Pools, i: nat, h: word): (r: Pools)
    requires |pools.avail| == |pools.head| == NUM_POOLS && i < NUM_POOLS
  {
    Pools(pools.avail[i := pools.avail[i] + 1], pools.head[i := h])
  }

  /** push_free_block: only the first header word is overwritten. */
  lemma PushKeeps(words: Words, pools: Pools, l: Layout, brk: nat, table: nat, h: word, next: word)
    requires HeapInv(words, pools, l, brk, table) && h in l.live && l.live[h].pool < NUM_POOLS
    requires next == pools.head[l.live[h].pool]
    ensures HeapInv(Put(words, h, next), PushPools(pools, l.live[h].pool, h), PushLayout(l, h), brk, table)
  {
    hide Chain, Separate, UnitsIn, FreeOk, LiveOk, Covered, PoolFor, BlockSize, Headers;
    PushLayoutOk(l, brk, h);
    LiveNotFree(l, brk, h);
    LiveInUnits(l, brk);
    HeadersSub(words, l.live, table, h);
    HeadersApart(words, l, brk, table, l.live - {h}, h, next, next);
    forall j | 0 <= j < NUM_POOLS
      ensures Chain(words[h := next], PushPools(pools, l.live[h].pool, h).head[j], PushLayout(l, h).free[j])
    {
      PushChain(words, pools, l, brk, table, h, j, next);
    }
  }

  lemma PushChain(words: Words, pools: Pools, l: Layout, brk: nat, table: nat, h: word, j: nat, next: word)
    requires HeapInv(words, pools, l, brk, table) && h in l.live && l.live[h].pool < NUM_POOLS
    requires next == pools.head[l.live[h].pool] && j < NUM_POOLS
    ensures Chain(words[h := next], PushPools(pools, l.live[h].pool, h).head[j], PushLayout(l, h).free[j])
  {
    LiveNotFree(l, brk, h);
    hide LayoutOk, Headers;
    ChainApart(words, l, brk, pools.head[j], j, l.free[j], h, next, next);
    assert ([h] + l.free[j])[1..] == l.free[j];
  }

  // ----- page runs -----

  ghost function RunLayout(l: Layout, h: nat, full: nat): (r: Layout) {
    Layout(l.units[h := 4096 * RunPages(full)], l.free, l.live[h := Block(NUM_POOLS, full)])
  }

  lemma RunFresh(l: Layout, brk: nat, full: nat)
    requires LayoutOk(l, brk) && KERNEL_HEAP_START <= brk && brk % 4096 == 0
    requires PoolFor(full) == NUM_POOLS
    ensures brk !in l.units && full > 2048 && brk % 32 == 0 && 4096 * RunPages(full) >= full
  {
    assert BlockSize(6) < full;
    Multiple32(brk, 128 * (brk / 4096));
  }

  lemma Multiple32(x: nat, k: nat)
    requires x == 32 * k
    ensures x % 32 == 0
  {
  }

  lemma RunLayoutOk(l: Layout, brk: nat, full: nat)
    requires LayoutOk(l, brk) && KERNEL_HEAP_START <= brk && brk % 4096 == 0
    requires PoolFor(full) == NUM_POOLS && full <= MAX_FULL
    ensures LayoutOk(RunLayout(l, brk, full), brk + 4096 * RunPages(full)) && brk !in l.units
  {
    RunFresh(l, brk, full);
    RunUnits(l.units, brk, 4096 * RunPages(full));
    hide PoolFor, BlockSize, Separate, UnitsIn, RunPages;
    RunLists(l, brk, full);
  }

  lemma RunUnits(units: map<nat, nat>, brk: nat, size: nat)
    requires Separate(units) && UnitsIn(units, brk) && brk % 32 == 0 && KERNEL_HEAP_START <= brk && 32 <= size
    ensures Separate(units[brk := size]) && UnitsIn(units[brk := size], brk + size)
  {
  }

  lemma RunLists(l: Layout, brk: nat, full: nat)
    requires FreeOk(l) && LiveOk(l) && Covered(l) && brk !in l.units
    requires full <= MAX_FULL && PoolFor(full) == NUM_POOLS
    ensures FreeOk(RunLayout(l, brk, full)) && LiveOk(RunLayout(l, brk, full)) && Covered(RunLayout(l, brk, full))
  {
    RunFree(l, brk, full);
    hide PoolFor, BlockSize, RunPages, FreeOk, InSomeList;
  }

  lemma RunFree(l: Layout, brk: nat, full: nat)
    requires FreeOk(l) && brk !in l.units
    ensures FreeOk(RunLayout(l, brk, full))
  {
    hide BlockSize, RunPages;
  }

  lemma RunKeeps(words: Words, pools: Pools, l: Layout, brk: nat, table: nat, full: word)
    requires HeapInv(words, pools, l, brk, table) && KERNEL_HEAP_START <= brk && brk % 4096 == 0
    requires PoolFor(full) == NUM_POOLS && full <= MAX_FULL
    ensures HeapInv(Put(Put(words, brk, 0), brk + 8, full), pools, RunLayout(l, brk, full),
                    brk + 4096 * RunPages(full), table)
  {
    hide Chain, Separate, UnitsIn, FreeOk, LiveOk, Covered, PoolFor, BlockSize, Headers, RunPages;
    RunLayoutOk(l, brk, full);
    var l', brk' := RunLayout(l, brk, full), brk + 4096 * RunPages(full);
    LiveInUnits(l, brk);
    HeadersApart(words, l', brk', table, l.live, brk, 0, full);
    HeadersAdd(words[brk := 0][brk + 8 := full], l.live, table, brk, Block(NUM_POOLS, full));
    forall j | 0 <= j < NUM_POOLS
      ensures Chain(words[brk := 0][brk + 8 := full], pools.head[j], l'.free[j])
    {
      LiveNotFree(l', brk', brk);
      assert Chain(words, pools.head[j], l.free[j]);
      ChainApart(words, l', brk', pools.head[j], j, l'.free[j], brk, 0, full);
    }
  }

  ghost function DropLayout(l: Layout, h: nat): (r: Layout) {
    Layout(l.units - {h}, l.free, l.live - {h})
  }

  lemma DropLayoutOk(l: Layout, brk: nat, h: nat)
    requires LayoutOk(l, brk) && h in l.live
    ensures LayoutOk(DropLayout(l, h), brk)
  {
    LiveNotFree(l, brk, h);
    DropFree(l, h);
    DropCovered(l, h);
    DropUnits(l, brk, h);
    hide FreeOk, Covered, LiveOk, Separate, UnitsIn;
  }

  lemma DropUnits(l: Layout, brk: nat, h: nat)
    requires Separate(l.units) && UnitsIn(l.units, brk) && LiveOk(l)
    ensures var r := DropLayout(l, h); Separate(r.units) && UnitsIn(r.units, brk) && LiveOk(r)
  {
    hide PoolFor, UnitSize;
  }

  lemma DropCovered(l: Layout, h: nat)
    requires Covered(l) && h in l.live
    ensures Covered(DropLayout(l, h))
  {
    hide InSomeList;
  }

  lemma DropFree(l: Layout, h: nat)
    requires FreeOk(l) && forall j :: 0 <= j < NUM_POOLS ==> h !in l.free[j]
    ensures FreeOk(DropLayout(l, h))
  {
    hide BlockSize;
  }

  lemma DropKeeps(words: Words, pools: Pools, l: Layout, brk: nat, table: nat, h: nat)
    requires HeapInv(words, pools, l, brk, table) && h in l.live
    ensures HeapInv(words, pools, DropLayout(l, h), brk, table)
  {
    DropLayoutOk(l, brk, h);
    hide LayoutOk, Lists;
  }

  // ----- carving a fresh page into blocks -----

  /** The addresses a, a + s, a + 2 s, ... of n blocks. */
  ghost function Blocks(a: nat, s: nat, n: nat): (r: seq<nat>)
    ensures |r| == n
    decreases n
  {
    if n == 0 then [] else [a] + Blocks(a + s, s, n - 1)
  }

  lemma StepTo(a: nat, s: nat, n: nat, end: nat)
    requires a + n * s == end && s > 0 && n > 0
    ensures (a + s) + (n - 1) * s == end && a + s <= end
    ensures a + s < end <==> n > 1
  {
    assert n * s == (n - 1) * s + s;
    if n > 1 {
      assert (n - 1) * s >= s;
    }
  }

  /** They fill [a, end) without overlap, in increasing order. */
  lemma {:induction false} BlocksSpread(a: nat, s: nat, n: nat, end: nat)
    requires a + n * s == end && s > 0 && a % 32 == 0 && s % 32 == 0
    ensures forall b :: b in Blocks(a, s, n) ==> a <= b && b + s <= end && b % 32 == 0
    ensures forall i, j :: 0 <= i < j < n ==> Blocks(a, s, n)[i] + s <= Blocks(a, s, n)[j]
    decreases n
  {
    if n > 0 {
      StepTo(a, s, n, end);
      BlocksSpread(a + s, s, n - 1, end);
      var r, t := Blocks(a, s, n), Blocks(a + s, s, n - 1);
      assert r == [a] + t;
      forall b | b in r
        ensures a <= b && b + s <= end && b % 32 == 0
      {
        assert b == a || b in t;
      }
      forall i, j | 0 <= i < j < n
        ensures r[i] + s <= r[j]
      {
        assert r[j] == t[j - 1] && t[j - 1] in t;
        assert i > 0 ==> r[i] == t[i - 1];
      }
    }
  }

  lemma BlocksApart(a: nat, s: nat, n: nat, end: nat)
    requires a + n * s == end && s > 0 && a % 32 == 0 && s % 32 == 0
    ensures forall b, c :: b in Blocks(a, s, n) && c in Blocks(a, s, n) && b < c ==> b + s <= c
    ensures NoDup(Blocks(a, s, n))
  {
    BlocksSpread(a, s, n, end);
    var r := Blocks(a, s, n);
    forall b, c | b in r && c in r && b < c
      ensures b + s <= c
    {
      var i :| 0 <= i < |r| && r[i] == b;
      var j :| 0 <= j < |r| && r[j] == c;
      assert i < j;
    }
  }

  /** The next-pointer written into the block at b. */
  function NextIn(b: nat, s: nat, end: nat): (p: nat) {
    if b + s < end then b + s else 0
  }

  lemma {:induction false} ChainBlocks(words: Words, a: nat, s: nat, n: nat, end: nat)
    requires a + n * s == end && s > 0 && n > 0
    requires forall b :: b in Blocks(a, s, n) ==> b in words && words[b] == NextIn(b, s, end)
    ensures Chain(words, a, Blocks(a, s, n))
    decreases n
  {
    var r, t := Blocks(a, s, n), Blocks(a + s, s, n - 1);
    assert r == [a] + t && r[1..] == t;
    assert a in r;
    assert forall b :: b in t ==> b in r;
    StepTo(a, s, n, end);
    if n > 1 {
      ChainBlocks(words, a + s, s, n - 1, end);
    }
  }

  ghost function BlockUnits(a: nat, s: nat, n: nat): (m: map<nat, nat>) {
    map b | b in Blocks(a, s, n) :: s
  }

  ghost function CarveLayout(l: Layout, i: nat, page: nat): (r: Layout)
    requires i < NUM_POOLS && i < |l.free|
  {
    var s, n := BlockSize(i), BlocksPerPage(i);
    Layout(l.units + BlockUnits(page, s, n), l.free[i := Blocks(page, s, n)], l.live)
  }

  lemma CarveUnits(units: map<nat, nat>, brk: nat, s: nat, n: nat)
    requires Separate(units) && UnitsIn(units, brk) && KERNEL_HEAP_START <= brk
    requires brk % 32 == 0 && s % 32 == 0 && 32 <= s && n * s == 4096
    ensures Separate(units + BlockUnits(brk, s, n)) && UnitsIn(units + BlockUnits(brk, s, n), brk + 4096)
    ensures forall b :: b in Blocks(brk, s, n) ==> b !in units && brk <= b
  {
    BlocksSpread(brk, s, n, brk + 4096);
    BlocksApart(brk, s, n, brk + 4096);
    hide Blocks;
  }

  lemma CarveLists(l: Layout, i: nat, brk: nat)
    requires FreeOk(l) && LiveOk(l) && Covered(l) && i < NUM_POOLS && l.free[i] == []
    requires forall b :: b in Blocks(brk, BlockSize(i), BlocksPerPage(i)) ==> b !in l.units
    requires NoDup(Blocks(brk, BlockSize(i), BlocksPerPage(i)))
    ensures FreeOk(CarveLayout(l, i, brk)) && LiveOk(CarveLayout(l, i, brk))
  {
    hide Blocks, BlocksPerPage, PoolFor, UnitSize, BlockSize;
  }

  lemma CarveCovered(l: Layout, i: nat, brk: nat)
    requires FreeOk(l) && Covered(l) && i < NUM_POOLS && l.free[i] == []
    ensures Covered(CarveLayout(l, i, brk))
  {
    var l' := CarveLayout(l, i, brk);
    hide Blocks, BlocksPerPage, BlockSize, FreeOk;
    forall a | a in l'.units
      ensures a in l'.live || InSomeList(l'.free, a)
    {
      if a in l'.free[i] {
        assert InSomeList(l'.free, a);
      } else if a !in l.live {
        var j :| 0 <= j < |l.free| && a in l.free[j];
        assert a in l'.free[j];
      }
    }
  }

  lemma CarveLayoutOk(l: Layout, i: nat, brk: nat)
    requires LayoutOk(l, brk) && KERNEL_HEAP_START <= brk && brk % 4096 == 0
    requires i < NUM_POOLS && l.free[i] == []
    ensures LayoutOk(CarveLayout(l, i, brk), brk + 4096)
    ensures forall b :: b in Blocks(brk, BlockSize(i), BlocksPerPage(i)) ==> b !in l.units && brk <= b
  {
    Multiple32(brk, 128 * (brk / 4096));
    hide FreeOk, LiveOk, Covered, Separate, UnitsIn, PoolFor, Blocks, NoDup, BlockUnits;
    CarveUnits(l.units, brk, BlockSize(i), BlocksPerPage(i));
    BlocksApart(brk, BlockSize(i), BlocksPerPage(i), brk + 4096);
    CarveLists(l, i, brk);
    CarveCovered(l, i, brk);
  }

  /** allocate_blocks, once its loop has written every block's next-pointer. */
  lemma CarveKeeps(words: Words, words': Words, pools: Pools, l: Layout, brk: word, table: nat, i: nat)
    requires HeapInv(words, pools, l, brk, table) && KERNEL_HEAP_START <= brk && brk % 4096 == 0
    requires i < NUM_POOLS && pools.avail[i] == 0
    requires forall w :: w in words && w < brk ==> w in words' && words'[w] == words[w]
    requires forall b :: b in Blocks(brk, BlockSize(i), BlocksPerPage(i)) ==>
               b in words' && words'[b] == NextIn(b, BlockSize(i), brk + 4096)
    ensures l.free[i] == []
    ensures HeapInv(words', Pools(pools.avail[i := BlocksPerPage(i)], pools.head[i := brk]),
                    CarveLayout(l, i, brk), brk + 4096, table)
  {
    hide LayoutOk, Chain, Blocks, IsMeta, Headers, NextIn;
    MetaBelow(l, brk);
    MetaFrame(words, words', pools, l, brk, table);
    assert l.free[i] == [];
    CarveLayoutOk(l, i, brk);
    ChainBlocks(words', brk, BlockSize(i), BlocksPerPage(i), brk + 4096);
  }

  lemma MetaBelow(l: Layout, brk: nat)
    requires LayoutOk(l, brk)
    ensures forall w: nat :: IsMeta(l, w) ==> w < brk
  {
    forall w: nat | IsMeta(l, w)
      ensures w < brk
    {
      if h :| h in l.live && (w == h || w == h + 8) {
        LiveNotFree(l, brk, h);
        hide FreeOk, LiveOk, Covered, Separate;
      } else {
        var i :| 0 <= i < |l.free| && w in l.free[i];
        InListIsUnit(l, brk, i, w);
        hide FreeOk, LiveOk, Covered, Separate;
      }
    }
  }
}
