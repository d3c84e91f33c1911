/** The boot loader's tags (mem/multiboot.c): where physical memory is free, and
    which part of it the kernel's own ELF sections occupy. */
module Multiboot {
  import opened MemDef
  import opened PfAlloc
  import opened Wrappers

  const MMAP_ENTRY_FREE_TYPE: nat := 1
  const MAX_REGIONS: nat := 64

  datatype Section = Section(address: word, size: word)

  datatype Entry = Entry(addr: word, len: word, kind: nat)

  /** The tags up to the end tag. */
  datatype Tag = Elf(sections: seq<Section>) | Mmap(entries: seq<Entry>) | Other

  function Add64(a: word, b: word): (s: word) {
    (a + b) % TWO_64
  }

  // ----- the kernel's sections -----

  /** Sections linked into the kernel's half are loaded at their offset there. */
  function LoadAddress(address: word): (p: word) {
    if address >= KERNEL_TEXT_START then address - KERNEL_TEXT_START else address
  }

  /** Where the section lies in physical memory. */
  function LoadRange(s: Section): (r: Region) {
    Region(LoadAddress(s.address), LoadAddress(s.address) + s.size)
  }

  /** The code's idea of it. */
  function Physical(address: word): (p: word) {
    if address > KERNEL_TEXT_START then address - KERNEL_TEXT_START else address
  }

  function SectionRange(s: Section): (r: Region) {
    Region(Physical(s.address), Physical(s.address) + s.size)
  }

  /** The section's range does not run past the end of the address space. */
  predicate Loadable(s: Section) {
    SectionRange(s).end < TWO_64
  }

  /** The code is right exactly if the section does not start at the very first address
      of the kernel's half, which the comparison leaves out. */
  lemma AdjustedIff(address: word)
    ensures Physical(address) == LoadAddress(address) <==> address != KERNEL_TEXT_START
  {
  }

  predicate Spans(w: Region, r: Region) {
    w.start <= r.start && r.end <= w.end
  }

  predicate Covers(r: Region, s: Section) {
    s.size > 0 ==> Spans(r, LoadRange(s))
  }

  /** The kernel range widened by one section. */
  function Widen(r: Region, s: Section): (w: Region) {
    if s.size == 0 then r
    else
      var p := Physical(s.address);
      var e := Add64(p, s.size);
      Region(if p < r.start then p else r.start, if e > r.end then e else r.end)
  }

  function WidenAll(r: Region, ss: seq<Section>): (w: Region)
    decreases |ss|
  {
    if ss == [] then r else WidenAll(Widen(r, ss[0]), ss[1..])
  }

  /** The hull of a range and some sections: it contains them all, and each of its
      two bounds belongs to one of them. */
  ghost predicate Hull(w: Region, r: Region, ss: seq<Section>) {
    && Spans(w, r)
    && (forall s :: s in ss && s.size > 0 ==> Spans(w, SectionRange(s)))
    && (w.start == r.start || exists s :: s in ss && s.size > 0 && w.start == SectionRange(s).start)
    && (w.end == r.end || exists s :: s in ss && s.size > 0 && w.end == SectionRange(s).end)
  }

  lemma {:induction false} WidenAllIsHull(r: Region, ss: seq<Section>)
    requires forall s :: s in ss ==> Loadable(s)
    ensures Hull(WidenAll(r, ss), r, ss)
    decreases |ss|
  {
    if ss != [] {
      var w := Widen(r, ss[0]);
      assert ss[0] in ss && ss == [ss[0]] + ss[1..];
      WidenAllIsHull(w, ss[1..]);
      assert ss[0].size > 0 ==> Spans(w, SectionRange(ss[0]));
    }
  }

  /** Where nothing was recorded yet: what parse_mmap_tag puts there. */
  function Nothing(): (r: Region) {
    Region(TWO_64 - 1, 0)
  }

  // ----- free regions -----

  function FreeRegions(es: seq<Entry>): (rs: seq<Region>)
    ensures |rs| <= |es|
  {
    if es == [] then []
    else if es[0].kind == MMAP_ENTRY_FREE_TYPE
      then [Region(es[0].addr, Add64(es[0].addr, es[0].len))] + FreeRegions(es[1..])
    else FreeRegions(es[1..])
  }

  lemma {:induction false} FreeRegionsAppend(es: seq<Entry>, e: Entry)
    ensures FreeRegions(es + [e])
         == FreeRegions(es) + if e.kind == MMAP_ENTRY_FREE_TYPE then [Region(e.addr, Add64(e.addr, e.len))] else []
    decreases |es|
  {
    if es == [] {
      assert FreeRegions([e][1..]) == [];
    } else {
      assert (es + [e])[1..] == es[1..] + [e];
      FreeRegionsAppend(es[1..], e);
    }
  }

  lemma {:induction false} FreeRegionsPrefix(es: seq<Entry>, k: nat)
    requires k <= |es|
    ensures FreeRegions(es[..k]) <= FreeRegions(es)
    decreases |es| - k
  {
    if k < |es| {
      assert es[..k + 1] == es[..k] + [es[k]];
      FreeRegionsAppend(es[..k], es[k]);
      FreeRegionsPrefix(es, k + 1);
    } else {
      assert es[..k] == es;
    }
  }

  /** The regions a memory map leaves in the 64 slots. */
  function Recorded(es: seq<Entry>): (rs: seq<Region>)
    ensures |rs| <= MAX_REGIONS && rs <= FreeRegions(es)
    ensures rs == FreeRegions(es) <==> |FreeRegions(es)| <= MAX_REGIONS
  {
    var free := FreeRegions(es);
    free[..if |free| < MAX_REGIONS then |free| else MAX_REGIONS]
  }

  // ----- the whole tag list -----

  /** The free regions after the tags: those of the last memory map. */
  function RegionsAfter(rs: seq<Region>, tags: seq<Tag>): (r: seq<Region>)
    decreases |tags|
  {
    if tags == [] then rs
    else RegionsAfter(if tags[0].Mmap? then Recorded(tags[0].entries) else rs, tags[1..])
  }

  lemma {:induction false} RegionsAreLastMap(rs: seq<Region>, before: seq<Tag>, es: seq<Entry>, after: seq<Tag>)
    requires forall i :: 0 <= i < |after| ==> !after[i].Mmap?
    ensures RegionsAfter(rs, before + [Mmap(es)] + after) == Recorded(es)
    decreases |before| + |after|
  {
    hide Recorded;
    var tags := before + [Mmap(es)] + after;
    if before != [] {
      assert tags[1..] == before[1..] + [Mmap(es)] + after;
      RegionsAreLastMap(if before[0].Mmap? then Recorded(before[0].entries) else rs, before[1..], es, after);
    } else {
      assert tags[1..] == after;
      NoMapKeeps(Recorded(es), after);
    }
  }

  lemma {:induction false} NoMapKeeps(rs: seq<Region>, tags: seq<Tag>)
    requires forall i :: 0 <= i < |tags| ==> !tags[i].Mmap?
    ensures RegionsAfter(rs, tags) == rs
    decreases |tags|
  {
    if tags != [] {
      NoMapKeeps(rs, tags[1..]);
    }
  }

  /** The kernel range after the tags: each memory map starts it afresh, each list
      of sections widens it. */
  function KernelAfter(r: Region, tags: seq<Tag>): (w: Region)
    decreases |tags|
  {
    if tags == [] then r
    else
      match tags[0]
      case Elf(ss) => KernelAfter(WidenAll(r, ss), tags[1..])
      case Mmap(_) => KernelAfter(Nothing(), tags[1..])
      case Other => KernelAfter(r, tags[1..])
  }

  lemma {:induction false} KernelAfterAppend(r: Region, a: seq<Tag>, b: seq<Tag>)
    ensures KernelAfter(r, a + b) == KernelAfter(KernelAfter(r, a), b)
    decreases |a|
  {
    if a == [] {
      assert a + b == b;
    } else {
      assert (a + b)[1..] == a[1..] + b;
      match a[0] {
        case Elf(ss) => KernelAfterAppend(WidenAll(r, ss), a[1..], b);
        case Mmap(_) => KernelAfterAppend(Nothing(), a[1..], b);
        case Other => KernelAfterAppend(r, a[1..], b);
      }
    }
  }

  /** Tags of other kinds leave the range alone; one memory map among them is
      enough to forget it. */
  lemma {:induction false} WithoutSections(r: Region, tags: seq<Tag>)
    requires forall i :: 0 <= i < |tags| ==> !tags[i].Elf?
    ensures KernelAfter(r, tags) == if exists i :: 0 <= i < |tags| && tags[i].Mmap? then Nothing() else r
    decreases |tags|
  {
    if tags != [] {
      WithoutSections(if tags[0].Mmap? then Nothing() else r, tags[1..]);
      assert tags == [tags[0]] + tags[1..];
    }
  }

  /** With one list of sections among the tags, the kernel range covers what they are
      loaded to exactly when no memory map comes after it, and none of them starts at
      the first address of the kernel's half, unless the range starts at 0 anyway. */
  lemma CoveredIff(r: Region, before: seq<Tag>, ss: seq<Section>, after: seq<Tag>)
    requires forall s :: s in ss ==> Loadable(s)
    requires exists s :: s in ss && s.size > 0
    requires forall i :: 0 <= i < |after| ==> !after[i].Elf?
    ensures (forall s :: s in ss ==> Covers(KernelAfter(r, before + [Elf(ss)] + after), s))
        <==> && (!exists i :: 0 <= i < |after| && after[i].Mmap?)
             && ((exists s :: s in ss && s.size > 0 && s.address == KERNEL_TEXT_START) ==>
                   KernelAfter(r, before).start == 0 || exists s :: s in ss && s.size > 0 && s.address == 0)
  {
    var start := KernelAfter(r, before);
    KernelAfterAppend(r, before + [Elf(ss)], after);
    KernelAfterAppend(r, before, [Elf(ss)]);
    assert KernelAfter(start, [Elf(ss)]) == WidenAll(start, ss);
    WithoutSections(WidenAll(start, ss), after);
    WidenAllIsHull(start, ss);
    hide KernelAfter, WidenAll;
    var s :| s in ss && s.size > 0;
    assert !Covers(Nothing(), s);
    HullCovers(WidenAll(start, ss), start, ss);
  }

  lemma HullCovers(w: Region, start: Region, ss: seq<Section>)
    requires Hull(w, start, ss) && exists s :: s in ss && s.size > 0
    ensures (forall s :: s in ss ==> Covers(w, s))
        <==> ((exists s :: s in ss && s.size > 0 && s.address == KERNEL_TEXT_START) ==>
                start.start == 0 || exists s :: s in ss && s.size > 0 && s.address == 0)
  {
    forall s | s in ss && s.size > 0
      ensures Covers(w, s) <==> s.address != KERNEL_TEXT_START || w.start == 0
    {
      AdjustedIff(s.address);
    }
    if exists s :: s in ss && s.size > 0 && s.address == KERNEL_TEXT_START {
      HullFromZero(w, start, ss);
    }
  }

  lemma HullFromZero(w: Region, start: Region, ss: seq<Section>)
    requires Hull(w, start, ss)
    ensures w.start == 0 <==> start.start == 0 || exists s :: s in ss && s.size > 0 && s.address == 0
  {
  }

  /** A section the code places right, in physical memory. */
  predicate Placeable(s: Section) {
    s.size > 0 ==> s.address != KERNEL_TEXT_START && LoadRange(s).end <= PHYS_LIMIT
  }

  /** When the memory map came first and all sections lie in physical memory, the
      range is one the frame allocator accepts. */
  lemma KernelIsReserved(before: seq<Tag>, ss: seq<Section>)
    requires forall s :: s in ss ==> Loadable(s) && Placeable(s)
    requires exists i :: 0 <= i < |before| && before[i].Mmap?
    requires forall i :: 0 <= i < |before| ==> !before[i].Elf?
    ensures var w := KernelAfter(Region(0, 0), before + [Elf(ss)]);
      ReservedOk(w) && w == WidenAll(Nothing(), ss) && Hull(w, Nothing(), ss)
  {
    var r := Region(0, 0);
    KernelAfterAppend(r, before, [Elf(ss)]);
    WithoutSections(r, before);
    assert KernelAfter(Nothing(), [Elf(ss)]) == WidenAll(Nothing(), ss);
    WidenAllIsHull(Nothing(), ss);
    HullIsReserved(WidenAll(Nothing(), ss), ss);
  }

  lemma HullIsReserved(w: Region, ss: seq<Section>)
    requires Hull(w, Nothing(), ss) && forall s :: s in ss ==> Placeable(s)
    ensures ReservedOk(w)
  {
    if s :| s in ss && s.size > 0 {
      assert Spans(w, SectionRange(s));
    }
  }

  // ----- what is spared -----

  /** No byte of a frame that may be handed out lies in the range. */
  ghost predicate Spared(mm: MemMap, r: Region) {
    forall f, a :: Usable(mm, f) && InFrame(a, f) ==> !InRange(a, r)
  }

  predicate InFrame(a: nat, f: nat) {
    Addr(f) <= a < Addr(f) + 4096
  }

  /** The allocator looks at a frame's first byte only. So a reserved range is spared
      to its last byte exactly if it starts at a frame's first byte, or the frame it
      starts in is not handed out for another reason. */
  lemma ReservedIsSparedIff(mm: MemMap, r: Region)
    requires r == mm.kernel || r == mm.multiboot
    requires r.start < r.end
    ensures Spared(mm, r) <==> r.start % 4096 == 0 || !Usable(mm, r.start / 4096)
  {
    if r.start % 4096 != 0 && Usable(mm, r.start / 4096) {
      assert InFrame(r.start, r.start / 4096);
    }
    forall f, a | Usable(mm, f) && InFrame(a, f) && InRange(a, r)
      ensures f == r.start / 4096 && r.start % 4096 != 0
    {
      assert !InRange(Addr(f), r);
    }
  }

  /** All sections are spared, to their last byte. */
  ghost predicate SparesSections(mm: MemMap, ss: seq<Section>) {
    forall s :: s in ss && s.size > 0 ==> Spared(mm, LoadRange(s))
  }

  /** At least no frame that is handed out starts in a section. */
  ghost predicate SparesStarts(mm: MemMap, ss: seq<Section>) {
    forall f, s :: Usable(mm, f) && s in ss && s.size > 0 ==> !InRange(Addr(f), LoadRange(s))
  }

  lemma PlacedRange(s: Section)
    requires Placeable(s) && s.size > 0
    ensures SectionRange(s) == LoadRange(s)
  {
  }

  /** With the hull of the sections as the kernel range. */
  lemma HullIsSparedIff(mm: MemMap, ss: seq<Section>)
    requires Hull(mm.kernel, Nothing(), ss) && forall s :: s in ss ==> Placeable(s)
    ensures SparesStarts(mm, ss)
    ensures SparesSections(mm, ss) <==> mm.kernel.start % 4096 == 0 || !Usable(mm, mm.kernel.start / 4096)
  {
    forall s | s in ss && s.size > 0
      ensures Spans(mm.kernel, LoadRange(s)) && LoadRange(s) == SectionRange(s)
    {
      PlacedRange(s);
    }
    if s :| s in ss && s.size > 0 {
      assert mm.kernel.start < mm.kernel.end;
      ReservedIsSparedIff(mm, mm.kernel);
      SomeSectionFirst(mm, ss);
      hide Usable;
    } else {
      assert mm.kernel.start / 4096 >= FRAMES;
    }
  }

  /** The kernel range starts where some section does, so if it is not spared neither
      is that section. */
  lemma SomeSectionFirst(mm: MemMap, ss: seq<Section>)
    requires Hull(mm.kernel, Nothing(), ss)
    requires forall s :: s in ss && s.size > 0 ==> LoadRange(s) == SectionRange(s)
    ensures mm.kernel.start % 4096 != 0 && Usable(mm, mm.kernel.start / 4096) ==> !SparesSections(mm, ss)
  {
    if mm.kernel.start % 4096 != 0 && Usable(mm, mm.kernel.start / 4096) {
      var first :| first in ss && first.size > 0 && mm.kernel.start == SectionRange(first).start;
      assert InFrame(mm.kernel.start, mm.kernel.start / 4096) && InRange(mm.kernel.start, LoadRange(first));
      assert !Spared(mm, LoadRange(first));
    }
  }

  /** What the frame allocator demands of the recorded regions: some, but not all 64
      slots; sorted and disjoint; each holding the start of an aligned frame. */
  ghost predicate RegionsOk(rs: seq<Region>) {
    && 0 < |rs| < MAX_REGIONS
    && (forall j :: 0 <= j < |rs| ==> rs[j].start <= AlignPage(rs[j].start) < rs[j].end <= PHYS_LIMIT)
    && (forall j, k :: 0 <= j < k < |rs| ==> rs[j].end <= rs[k].start)
  }

  lemma RegionsMakeMap(mm: MemMap, rs: seq<Region>)
    requires |mm.regions| == MAX_REGIONS && mm.num <= MAX_REGIONS && mm.regions[..mm.num] == rs && RegionsOk(rs)
    requires ReservedOk(mm.kernel) && ReservedOk(mm.multiboot)
    ensures MapOk(mm)
  {
    hide AlignPage;
    assert forall j :: 0 <= j < mm.num ==> mm.regions[j] == rs[j];
  }

  /** With the memory map in front of the sections and none behind, no frame starts in
      a section; and the kernel is spared altogether exactly if it starts at a frame's
      first byte or the frame it starts in is not handed out. */
  lemma KernelIsSpared(mm: MemMap, before: seq<Tag>, ss: seq<Section>, after: seq<Tag>)
    requires forall s :: s in ss ==> Loadable(s) && Placeable(s)
    requires exists i :: 0 <= i < |before| && before[i].Mmap?
    requires forall i :: 0 <= i < |before| ==> !before[i].Elf?
    requires forall i :: 0 <= i < |after| ==> after[i].Other?
    requires mm.kernel == KernelAfter(Region(0, 0), before + [Elf(ss)] + after)
    ensures ReservedOk(mm.kernel) && SparesStarts(mm, ss)
    ensures SparesSections(mm, ss) <==> mm.kernel.start % 4096 == 0 || !Usable(mm, mm.kernel.start / 4096)
  {
    hide Hull, SparesStarts, SparesSections, Usable, ReservedOk;
    var r := Region(0, 0);
    KernelAfterAppend(r, before + [Elf(ss)], after);
    WithoutSections(KernelAfter(r, before + [Elf(ss)]), after);
    KernelIsReserved(before, ss);
    HullIsSparedIff(mm, ss);
  }

  // ----- the tags in memory -----

  /** align_size. */
  function AlignSize(size: nat): (r: nat)
    requires size <= 0xFFFF_FFF8
    ensures r % 8 == 0 && size <= r < size + 8
  {
    (size + 7) / 8 * 8
  }

  datatype RawTag = EndTag | RawTag(body: Tag, size: nat)

  /** The tags in memory from `at` on, each behind the rounded size of the one before,
      are these. */
  ghost predicate Laid(memory: map<nat, RawTag>, at: nat, tags: seq<Tag>)
    decreases |tags|
  {
    && at in memory
    && if tags == [] then memory[at].EndTag?
       else
         && memory[at].RawTag? && memory[at].body == tags[0] && memory[at].size <= 0xFFFF_FFF8
         && Laid(memory, at + AlignSize(memory[at].size), tags[1..])
  }

  /** The list of sections remembered for later use: the last one. */
  function ElfAfter(e: Option<seq<Section>>, tags: seq<Tag>): (r: Option<seq<Section>>)
    decreases |tags|
  {
    if tags == [] then e
    else ElfAfter(if tags[0].Elf? then Some(tags[0].sections) else e, tags[1..])
  }

  class MemoryMap {
    var kernel: Region
    var multiboot: Region
    const regions: array<Region>
    var num: nat
    var elfTag: Option<seq<Section>>

    ghost predicate Valid()
      reads this
    {
      regions.Length == MAX_REGIONS && num <= MAX_REGIONS
    }

    constructor ()
      ensures Valid() && kernel == Region(0, 0) && num == 0 && elfTag == None && fresh(regions)
    {
      elfTag := None;
      kernel, multiboot, num := Region(0, 0), Region(0, 0), 0;
      regions := new Region[MAX_REGIONS](_ => Region(0, 0));
    }

    /** parse_elf_tag. */
    method ParseElfTag(sections: seq<Section>)
      requires Valid()
      modifies this`kernel, this`elfTag
      ensures Valid() && kernel == WidenAll(old(kernel), sections) && elfTag == Some(sections)
    {
      var i := 0;
      assert sections[0..] == sections;
      while i < |sections|
        invariant i <= |sections| && WidenAll(kernel, sections[i..]) == WidenAll(old(kernel), sections)
      {
        var header := sections[i];
        assert sections[i..][1..] == sections[i + 1..];
        if header.size != 0 {
          var physical := header.address;
          if header.address > KERNEL_TEXT_START {
            physical := physical - KERNEL_TEXT_START;
          }
          var end := Add64(physical, header.size);
          var widened := kernel;
          if physical < widened.start {
            widened := widened.(start := physical);
          }
          if end > widened.end {
            widened := widened.(end := end);
          }
          kernel := widened;
        }
        i := i + 1;
      }
      elfTag := Some(sections);
    }

    /** parse_mmap_tag: the first 64 free regions, in their order; the other slots
        keep what they held. */
    method ParseMmapTag(entries: seq<Entry>)
      requires Valid()
      modifies this, regions
      ensures Valid() && kernel == Nothing() && multiboot == old(multiboot) && elfTag == old(elfTag)
      ensures regions[..num] == Recorded(entries) && regions[num..] == old(regions[..])[num..]
    {
      kernel := Nothing();
      var i, k := 0, 0;
      assert entries[..0] == [];
      while k < |entries|
        invariant k <= |entries| && i <= MAX_REGIONS && i == |FreeRegions(entries[..k])|
        invariant i < MAX_REGIONS
        invariant regions[..i] == FreeRegions(entries[..k])
        invariant forall j :: i <= j < MAX_REGIONS ==> regions[j] == old(regions[j])
        invariant Valid() && kernel == Nothing() && multiboot == old(multiboot) && elfTag == old(elfTag)
      {
        var entry := entries[k];
        assert entries[..k + 1] == entries[..k] + [entry];
        FreeRegionsAppend(entries[..k], entry);
        FreeRegionsPrefix(entries, k + 1);
        k := k + 1;
        if entry.kind == MMAP_ENTRY_FREE_TYPE {
          regions[i] := Region(entry.addr, Add64(entry.addr, entry.len));
          i := i + 1;
          if i >= MAX_REGIONS {
            break;
          }
        }
      }
      num := i;
      assert k == |entries| ==> entries[..k] == entries;
    }

    /** parse_multiboot_tags, for boot information of `size` bytes at `start`. */
    method ParseMultibootTags(start: nat, size: nat, memory: map<nat, RawTag>, ghost tags: seq<Tag>)
      requires Valid() && Laid(memory, start + 8, tags)
      modifies this, regions
      ensures Valid() && multiboot == Region(start, start + size)
      ensures kernel == KernelAfter(old(kernel), tags)
      ensures regions[..num] == RegionsAfter(old(regions[..num]), tags)
      ensures elfTag == ElfAfter(old(elfTag), tags)
    {
      hide WidenAll, Recorded;
      multiboot := Region(start, start + size);
      var at: nat := start + 8;
      ghost var rest := tags;
      while memory[at].RawTag?
        invariant Valid() && multiboot == Region(start, start + size) && Laid(memory, at, rest)
        invariant KernelAfter(kernel, rest) == KernelAfter(old(kernel), tags)
        invariant RegionsAfter(regions[..num], rest) == RegionsAfter(old(regions[..num]), tags)
        invariant ElfAfter(elfTag, rest) == ElfAfter(old(elfTag), tags)
        decreases |rest|
      {
        match memory[at].body {
          case Elf(sections) => ParseElfTag(sections);
          case Mmap(entries) => ParseMmapTag(entries);
          case Other =>
        }
        at := at + AlignSize(memory[at].size);
        rest := rest[1..];
      }
    }
  }

  /** Boot: the tags are parsed and the frame allocator is set up on their result. If
      they hold one list of sections, with the memory map in front, what is spared of
      these is what KernelIsSpared says. */
  method BootAllocator(mem: PhysMem, start: nat, size: nat, memory: map<nat, RawTag>,
                       ghost before: seq<Tag>, ghost ss: seq<Section>, ghost after: seq<Tag>)
    returns (fa: FrameAllocator)
    requires Laid(memory, start + 8, before + [Elf(ss)] + after) && Complete(mem.ram)
    requires forall s :: s in ss ==> Loadable(s) && Placeable(s)
    requires exists i :: 0 <= i < |before| && before[i].Mmap?
    requires forall i :: 0 <= i < |before| ==> !before[i].Elf?
    requires forall i :: 0 <= i < |after| ==> after[i].Other?
    requires RegionsOk(RegionsAfter([], before + [Elf(ss)] + after)) && start + size <= PHYS_LIMIT
    ensures fa.Valid() && fa.mem == mem && fa.out == {} && fa.pool == [] && SparesStarts(fa.mmap, ss)
    ensures var k := fa.mmap.kernel.start;
      SparesSections(fa.mmap, ss) <==> k % 4096 == 0 || !Usable(fa.mmap, k / 4096)
    ensures fa.mmap.kernel == KernelAfter(Region(0, 0), before + [Elf(ss)] + after)
    ensures fa.mmap.multiboot == Region(start, start + size)
  {
    hide KernelAfter, RegionsAfter, SparesSections, SparesStarts, RegionsOk, MapOk, Laid, ReservedOk, Usable;
    hide Loadable, Placeable;
    var mb := new MemoryMap();
    mb.ParseMultibootTags(start, size, memory, before + [Elf(ss)] + after);
    var mm := MemMap(mb.kernel, mb.multiboot, mb.regions[..], mb.num);
    KernelIsSpared(mm, before, ss, after);
    PhysicalIsReserved(mm.multiboot);
    RegionsMakeMap(mm, RegionsAfter([], before + [Elf(ss)] + after));
    fa := new FrameAllocator(mem, mm);
  }

  lemma PhysicalIsReserved(r: Region)
    requires r.start <= r.end <= PHYS_LIMIT
    ensures ReservedOk(r)
  {
  }
}
