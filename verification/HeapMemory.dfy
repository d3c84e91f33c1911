/** The heap's words are what the processor finds behind the page tables: each word of a
    page that holds a frame is the word of that frame. */
module HeapMemory {
  import opened MemDef
  import opened PageTree
  import opened PageTable
  import opened HeapAlloc
  import opened KmallocHeap

  /** The word's place in its frame. */
  function Slot(va: nat): (i: nat)
    ensures i < NUM_ENTRIES
  {
    va % 4096 / 8
  }

  predicate HeapWord(w: nat) {
    InHeap(w) && w % 8 == 0
  }

  /** These are exactly the words of the heap pages that hold a frame. */
  ghost predicate WordsAre(view: View, words: Words) {
    && (forall w: nat :: w in words ==>
          HeapWord(w) && PathOf(w) in view && words[w] == Pack(view[PathOf(w)][Slot(w)]))
    && (forall w: nat :: HeapWord(w) && PathOf(w) in view ==> w in words)
  }

  lemma SameHeapPage(w: nat, x: nat)
    requires InHeap(w) && InHeap(x)
    ensures PathOf(w) == PathOf(x) <==> w / 4096 == x / 4096
  {
    PathOfIff(w, x);
  }

  lemma OtherSlot(w: nat, x: nat)
    requires w % 8 == 0 && x % 8 == 0 && w != x && w / 4096 == x / 4096
    ensures Slot(w) != Slot(x)
  {
    var q, a, b := w / 4096, w / 8, x / 8;
    assert w == 8 * a && x == 8 * b;
    SlotIs(w, q, a);
    SlotIs(x, q, b);
  }

  lemma SlotIs(w: nat, q: nat, a: nat)
    requires w == 8 * a && w / 4096 == q
    ensures Slot(w) == a - 512 * q
  {
  }

  /** A store reaches its own word only. */
  lemma PokeWords(view: View, words: Words, va: nat, v: word)
    requires WordsAre(view, words) && va in words
    ensures PathOf(va) in view
    ensures WordsAre(view[PathOf(va) := view[PathOf(va)][Slot(va) := Unpack(v)]], words[va := v])
  {
    hide PathOf, Pack, Unpack, Slot;
    PackUnpack(v);
    forall w: nat | w in words && w != va && PathOf(w) == PathOf(va)
      ensures Slot(w) != Slot(va)
    {
      SameHeapPage(w, va);
      OtherSlot(w, va);
    }
  }

  /** The words of a page with these contents. */
  function PageWords(c: Page, page: nat): (words: Words)
    ensures forall w: nat :: w in words <==> page <= w < page + 4096 && w % 8 == 0
  {
    map w: nat | page <= w < page + 4096 && w % 8 == 0 :: Pack(c[Slot(w)])
  }

  function PageOf(va: nat): (page: nat) {
    va / 4096 * 4096
  }

  lemma InPage(w: nat, va: nat)
    ensures PageOf(va) <= w < PageOf(va) + 4096 <==> w / 4096 == va / 4096
    ensures InHeap(va) && w / 4096 == va / 4096 ==> InHeap(w)
  {
  }

  /** A page gets a frame: its words are those the frame happens to hold. */
  lemma TouchWords(view: View, words: Words, c: Page, va: nat)
    requires WordsAre(view, words) && InHeap(va) && PathOf(va) !in view
    ensures WordsAre(view[PathOf(va) := c], words + PageWords(c, PageOf(va)))
    ensures forall w: nat :: w in words ==> w !in PageWords(c, PageOf(va))
  {
    hide PathOf, Pack, Slot, PageOf, InHeap;
    var added := PageWords(c, PageOf(va));
    forall w: nat | w in words
      ensures w !in added
    {
      InPage(w, va);
      SameHeapPage(w, va);
    }
    forall w: nat | w in added
      ensures HeapWord(w) && PathOf(w) == PathOf(va)
    {
      InPage(w, va);
      SameHeapPage(w, va);
    }
    forall w: nat | HeapWord(w) && PathOf(w) == PathOf(va)
      ensures w in added
    {
      SameHeapPage(w, va);
      InPage(w, va);
    }
  }

  ghost function Restrict(words: Words, view: View): (r: Words) {
    map w | w in words && PathOf(w) in view :: words[w]
  }

  /** Pages give up their frames. */
  lemma DropWords(view: View, view': View, words: Words)
    requires WordsAre(view, words) && forall p :: p in view' ==> p in view && view'[p] == view[p]
    ensures WordsAre(view', Restrict(words, view'))
  {
    hide PathOf, Pack, Slot;
  }

  /** Pages outside the heap do not matter. */
  lemma WordsElsewhere(view: View, view': View, words: Words)
    requires WordsAre(view, words)
    requires forall p :: HeapPath(p) ==> (p in view <==> p in view') && (p in view ==> view'[p] == view[p])
    ensures WordsAre(view', words)
  {
    forall w: nat | HeapWord(w)
      ensures HeapPath(PathOf(w))
    {
      HeapPathIff(w);
    }
    hide PathOf, Pack, Slot, HeapPath;
  }

  /** A page is touched as a whole. */
  lemma SamePageIn(view: View, words: Words, w: nat, x: nat)
    requires WordsAre(view, words) && w in words && HeapWord(x) && x / 4096 == w / 4096
    ensures x in words
  {
    hide PathOf, Pack, Slot;
    SameHeapPage(w, x);
  }

  /** A page that is in order has words exactly if it is not pending. */
  lemma TouchedIff(ram: Ram, nodes: Nodes, owner: Owners, view: View, words: Words, va: nat)
    requires TreeInv(ram, nodes, owner) && ViewOk(ram, owner, view) && WordsAre(view, words)
    requires Backed(ram, nodes, owner, PathOf(va)) && HeapWord(va)
    ensures va in words <==> !Leaf(ram, nodes, PathOf(va)).alloc
    ensures va in words <==> PathOf(va) in view
  {
    if IsDemand(owner, PathOf(va)) {
      ViewAt(ram, nodes, owner, view, PathOf(va));
      DemandFrame(ram, nodes, owner, PathOf(va));
    } else {
      assert PathOf(va) !in view;
    }
  }

  /** Where all leaves stay, so does all that is said of them. */
  lemma AllKept(ram: Ram, nodes: Nodes, owner: Owners, ram': Ram, p: Path)
    requires SameLeaves(ram, nodes, ram', nodes)
    ensures KeptBut(ram, nodes, owner, ram', nodes, owner, p)
    ensures KeptOutside(ram, nodes, owner, ram', nodes, owner)
  {
    hide Leaf, IsEntry, IsDemand, HeapPath;
  }

  lemma PagesSame(ram: Ram, nodes: Nodes, owner: Owners, ram': Ram, brk: nat)
    requires HeapPages(ram, nodes, owner, brk) && SameLeaves(ram, nodes, ram', nodes)
    ensures HeapPages(ram', nodes, owner, brk)
  {
    hide Leaf, IsEntry, IsDemand, PathOf;
    forall va: nat | KERNEL_HEAP_START <= va < brk
      ensures Pageable(ram', nodes, owner, PathOf(va))
    {
      HugeSlotIffLeaf(va);
      assert Pageable(ram, nodes, owner, PathOf(va));
    }
  }
}
