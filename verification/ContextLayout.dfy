/** Where the fields of a thread's context lie: once as the C compiler places them
    (include/proc.h), once as the context switch names them (irq/isr_wrapper.asm). */
module ContextLayout {
  /** Consecutive fields of one size. */
  datatype Run = Run(size: nat, count: nat)

  predicate Runs(s: seq<Run>) {
    forall r :: 0 <= r < |s| ==> s[r].size in {2, 4, 8}
  }

  /** process_t, with its register file in line. */
  function ProcessStruct(): (s: seq<Run>)
    ensures |s| == 5 && Runs(s)
  {
    [Run(8, 14),  // rax rbx rcx rdx rdi rsi, r8 to r15
     Run(2, 6),   // cs ss ds es fs gs
     Run(8, 4),   // rbp rsp rip rflags
     Run(4, 1),   // pid
     Run(8, 3)]   // stack_top next prev
  }

  /** The labels of the assembler's structure, which spells its padding out. */
  function Labels(): (s: seq<Run>)
    ensures |s| == 4 && Runs(s)
  {
    [Run(8, 14),  // _rax _rbx _rcx _rdx _rdi _rsi, _r8 to _r15
     Run(2, 6),   // _cs _ss _ds _es _fs _gs
     Run(4, 1),   // _pad
     Run(8, 4)]   // _rbp _rsp _rip _rflags
  }

  /** The next multiple of a field's size. */
  function AlignUp(n: nat, size: nat): (r: nat)
    requires size in {2, 4, 8}
    ensures n <= r < n + size && r % size == 0
  {
    if size == 2 then (n + 1) / 2 * 2 else if size == 4 then (n + 3) / 4 * 4 else (n + 7) / 8 * 8
  }

  /** A C structure puts every field at the next multiple of its size. */
  function Start(s: seq<Run>, r: nat): (at: nat)
    requires r < |s| && Runs(s)
    decreases r, 1
  {
    AlignUp(End(s, r), s[r].size)
  }

  /** The end of the first r runs. */
  function End(s: seq<Run>, r: nat): (at: nat)
    requires r <= |s| && Runs(s)
    decreases r, 0
  {
    if r == 0 then 0 else Start(s, r - 1) + s[r - 1].size * s[r - 1].count
  }

  /** The k-th field of run r. */
  function Field(s: seq<Run>, r: nat, k: nat): (at: nat)
    requires r < |s| && Runs(s) && k < s[r].count
  {
    Start(s, r) + s[r].size * k
  }

  /** The assembler puts one label right behind the other. */
  function LabelsEnd(s: seq<Run>, r: nat): (at: nat)
    requires r <= |s|
  {
    if r == 0 then 0 else LabelsEnd(s, r - 1) + s[r - 1].size * s[r - 1].count
  }

  function Label(s: seq<Run>, r: nat, k: nat): (at: nat)
    requires r < |s|
  {
    LabelsEnd(s, r) + s[r].size * k
  }

  /** No two fields of a structure overlap. */
  lemma FieldsApart(s: seq<Run>, r: nat, k: nat, q: nat, j: nat)
    requires Runs(s) && r < |s| && k < s[r].count && q < |s| && j < s[q].count
    requires r < q || (r == q && k < j)
    ensures Field(s, r, k) + s[r].size <= Field(s, q, j)
  {
    if r == q {
      Scaled(s[r].size, k + 1, j);
    } else {
      Scaled(s[r].size, k + 1, s[r].count);
      EndsGrow(s, r + 1, q);
      Scaled(s[q].size, 0, j);
    }
  }

  lemma Scaled(size: nat, a: nat, b: nat)
    requires a <= b
    ensures 0 <= size * a <= size * b
  {
  }

  lemma {:induction false} EndsGrow(s: seq<Run>, r: nat, q: nat)
    requires Runs(s) && r <= q <= |s|
    ensures End(s, r) <= End(s, q)
    decreases q
  {
    if r < q {
      EndsGrow(s, r, q - 1);
      Scaled(s[q - 1].size, 0, s[q - 1].count);
    }
  }

  lemma StructStarts()
    ensures Start(ProcessStruct(), 0) == 0 && Start(ProcessStruct(), 1) == 112 && Start(ProcessStruct(), 2) == 128
    ensures Start(ProcessStruct(), 3) == 160 && Start(ProcessStruct(), 4) == 168 && End(ProcessStruct(), 5) == 192
  {
    assert End(ProcessStruct(), 1) == 112;
    assert End(ProcessStruct(), 2) == 124;
    assert End(ProcessStruct(), 3) == 160;
    assert End(ProcessStruct(), 4) == 164;
  }

  /** The context switch saves each register where the compiler has its field. */
  lemma SwitchAgrees(k: nat)
    ensures k < 14 ==> Field(ProcessStruct(), 0, k) == Label(Labels(), 0, k)
    ensures k < 6 ==> Field(ProcessStruct(), 1, k) == Label(Labels(), 1, k)
    ensures k < 4 ==> Field(ProcessStruct(), 2, k) == Label(Labels(), 3, k)
  {
    StructStarts();
    assert LabelsEnd(Labels(), 1) == 112;
    assert LabelsEnd(Labels(), 2) == 124;
    assert LabelsEnd(Labels(), 3) == 128;
  }
}
