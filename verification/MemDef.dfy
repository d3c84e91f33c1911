/** Constants of the address space, and the shape of one 4 KiB frame of
    physical memory: 512 words of 64 bits, read either as raw words (the free
    pool's `next` pointers) or as page-table entries. */
module MemDef {
  const PAGE_SIZE: nat := 4096
  const NUM_ENTRIES: nat := 512

  const TWO_64: nat := 0x1_0000_0000_0000_0000

  const KERNEL_TEXT_START: nat := 0xffff_ffff_8000_0000
  const KERNEL_STACKS_START: nat := 0xffff_ff80_0000_0000
  const KERNEL_HEAP_START: nat := 0xffff_8080_0000_0000
  const KERNEL_MMAP_START: nat := 0xffff_8000_0000_0000

  /** All of physical memory is reached through the one PML4 slot at
      KERNEL_MMAP_START, so it spans at most 512 GiB. */
  const FRAMES: nat := 0x800_0000
  const PHYS_LIMIT: nat := 0x80_0000_0000

  type bits2 = x: nat | x < 4
  type bits6 = x: nat | x < 64
  type bits11 = x: nat | x < 2048
  type bits40 = x: nat | x < 0x100_0000_0000
  type word = x: nat | x < 0x1_0000_0000_0000_0000

  /** The packed bit-field of a page-table entry. `attrs` groups the six bits
      3 to 8 (write-through, cache-disable, accessed, dirty, huge, global). */
  datatype Pte = Pte(present: bool, writable: bool, user: bool, attrs: bits6, alloc: bool,
                     avl1: bits2, base: bits40, avl2: bits11, noExecute: bool)

  const ZeroPte := Pte(false, false, false, 0, false, 0, 0, 0, false)

  function Bit(b: bool): nat {
    if b then 1 else 0
  }

  /** Bits 0, 1, 2, 3-8, 9 and 10-11, as the low twelve bits of a word. */
  function PackLow(e: Pte): (l: nat)
    ensures l < 4096
  {
    Bit(e.present) + 2 * (Bit(e.writable) + 2 * (Bit(e.user) + 2 * (e.attrs + 64 * (Bit(e.alloc) + 2 * e.avl1))))
  }

  function UnpackLow(l: nat): (e: Pte)
    requires l < 4096
  {
    var l1 := l / 2;
    var l2 := l1 / 2;
    var l3 := l2 / 2;
    var l9 := l3 / 64;
    Pte(l % 2 == 1, l1 % 2 == 1, l2 % 2 == 1, l3 % 64, l9 % 2 == 1, l9 / 2, 0, 0, false)
  }

  /** Bits 52-62 and 63, as the high twelve bits of a word. */
  function PackHigh(e: Pte): (h: nat)
    ensures h < 4096
  {
    e.avl2 + 2048 * Bit(e.noExecute)
  }

  /** The raw 64-bit word behind an entry; bits 12-51 are the frame number. */
  function Pack(e: Pte): (w: word) {
    PackLow(e) + 4096 * (e.base + 0x100_0000_0000 * PackHigh(e))
  }

  /** The entry read out of a raw 64-bit word. */
  function Unpack(w: word): (e: Pte) {
    var l := UnpackLow(w % 4096);
    var m := w / 4096;
    l.(base := m % 0x100_0000_0000,
       avl2 := m / 0x100_0000_0000 % 2048, noExecute := m / 0x100_0000_0000 / 2048 == 1)
  }

  lemma PackUnpackLow(l: nat)
    requires l < 4096
    ensures PackLow(UnpackLow(l)) == l
  {
  }

  lemma UnpackPackLow(e: Pte)
    ensures UnpackLow(PackLow(e)) == e.(base := 0, avl2 := 0, noExecute := false)
  {
    var l := PackLow(e);
    var l9: nat := Bit(e.alloc) + 2 * e.avl1;
    var l3: nat := e.attrs + 64 * l9;
    var l2 := Bit(e.user) + 2 * l3;
    var l1 := Bit(e.writable) + 2 * l2;
    assert l / 2 == l1;
    assert l1 / 2 == l2;
    assert l2 / 2 == l3;
    assert l3 / 64 == l9;
    assert l9 / 2 == e.avl1;
  }

  lemma PackUnpack(w: word)
    ensures Pack(Unpack(w)) == w
  {
    PackUnpackLow(w % 4096);
    var m := w / 4096;
    var h := m / 0x100_0000_0000;
    var e := Unpack(w);
    assert PackLow(e) == w % 4096;
    assert PackHigh(e) == h;
  }

  lemma UnpackPack(e: Pte)
    ensures Unpack(Pack(e)) == e
  {
    UnpackPackLow(e);
    hide PackLow, UnpackLow;
    var h := PackHigh(e);
    var m := e.base + 0x100_0000_0000 * h;
    assert Pack(e) % 4096 == PackLow(e) && Pack(e) / 4096 == m;
    assert m % 0x100_0000_0000 == e.base && m / 0x100_0000_0000 == h;
    assert h % 2048 == e.avl2 && h / 2048 == Bit(e.noExecute);
  }

  type Page = s: seq<Pte> | |s| == NUM_ENTRIES witness seq(NUM_ENTRIES, _ => ZeroPte)

  function ZeroPage(): (p: Page)
    ensures forall i :: 0 <= i < NUM_ENTRIES ==> p[i] == ZeroPte
  {
    seq(NUM_ENTRIES, _ => ZeroPte)
  }

  /** Physical memory: frame number to contents. */
  type Ram = map<nat, Page>

  ghost predicate Complete(ram: Ram) {
    forall f :: 0 <= f < FRAMES ==> f in ram
  }

  function AlignPage(addr: nat): (r: nat) {
    (addr + 4095) % 0x1_0000_0000_0000_0000 / 4096 * 4096
  }

  /** Frame number to physical address and back. */
  function Addr(f: nat): (a: nat) {
    4096 * f
  }

  function FrameOf(a: nat): (f: nat) {
    a / 4096
  }

  predicate Aligned(a: nat) {
    a % 4096 == 0
  }

  /** Subtraction on 64-bit unsigned integers. */
  function Sub64(a: nat, b: nat): (r: nat) {
    (a - b) % 0x1_0000_0000_0000_0000
  }

  /** GET_VIRT_ADDR: a physical address seen through the direct map. */
  function Virt(phys: nat): (v: nat) {
    phys + KERNEL_MMAP_START
  }

  ghost predicate NoDup(s: seq<nat>) {
    forall i, j :: 0 <= i < j < |s| ==> s[i] != s[j]
  }
}
