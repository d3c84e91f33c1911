/** The intrusive doubly linked process queue (proc/proc_queue.c). */
module ProcQueue {
  import opened RoundRobin

  class Process {
    const pid: int
    var next: Process?
    var prev: Process?

    constructor (pid: int)
      ensures this.pid == pid && next == null && prev == null
    {
      this.pid := pid;
      next := null;
      prev := null;
    }
  }

  /** The links of q's members spell out q. */
  ghost predicate Linked(q: seq<Process>)
    reads q
  {
    && (forall i {:trigger q[i].next} :: 0 <= i < |q| ==> q[i].next == At(q, i + 1))
    && (forall i {:trigger q[i].prev} :: 0 <= i < |q| ==> q[i].prev == At(q, i - 1))
  }

  /** The member at position i, null off either end. */
  function At(q: seq<Process>, i: int): (p: Process?) {
    if 0 <= i < |q| then q[i] else null
  }

  class Queue {
    var head: Process?
    var tail: Process?
    ghost var q: seq<Process>

    ghost predicate Valid()
      reads this, q
    {
      && Distinct(q) && Linked(q)
      && head == At(q, 0) && tail == At(q, |q| - 1)
    }

    constructor ()
      ensures Valid() && q == []
    {
      head := null;
      tail := null;
      q := [];
    }

    /** remove_proc. Also called on a process that is in no queue, which it must
        leave alone. */
    method RemoveProc(proc: Process)
      requires Valid()
      requires proc in q || (proc.next == null && proc.prev == null)
      modifies this, proc, q
      ensures Valid()
      ensures q == Without(old(q), proc)
      ensures proc.next == null && proc.prev == null
    {
      hide Without, Distinct;
      ghost var q0 := q;
      ghost var k := if proc in q then IndexOf(q, proc) else |q|;
      if k < |q| {
        Positions(q, k);
        WithoutAt(q, k);
        WithoutElements(q, proc);
      } else {
        WithoutAbsent(q, proc);
      }
      var prev := proc.prev;
      var next := proc.next;
      assert k < |q| ==> prev == At(q, k - 1) && next == At(q, k + 1);
      if prev != null {
        prev.next := next;
      }
      if next != null {
        next.prev := prev;
      }
      if head == proc {
        head := next;
      }
      if tail == proc {
        tail := prev;
      }
      proc.next := null;
      proc.prev := null;
      if k < |q0| {
        q := q0[..k] + q0[k + 1..];
        Relinked(q0, k);
      }
    }

    /** append_proc: the process must not be linked anywhere. */
    method AppendProc(proc: Process)
      requires Valid()
      requires proc !in q && proc.next == null && proc.prev == null
      modifies this, proc, q
      ensures Valid()
      ensures q == old(q) + [proc]
    {
      if head == null {
        head := proc;
        tail := proc;
        q := [proc];
        return;
      }
      assert tail == q[|q| - 1];
      tail.next := proc;
      proc.prev := tail;
      tail := proc;
      ghost var q0 := q;
      q := q + [proc];

      Extended(q0, proc);
    }

    /** pop_proc. */
    method PopProc() returns (r: Process?)
      requires Valid()
      modifies this, q
      ensures Valid()
      ensures old(q) == [] ==> r == null && q == []
      ensures old(q) != [] ==>
                && r == old(q)[0] && q == old(q)[1..]
                && r.next == null && r.prev == null
    {
      if head == null {
        return null;
      }
      var temp := head;
      Positions(q, 0);
      Distinct1(q);
      hide Distinct;
      assert temp == q[0] && temp.next == At(q, 1);

      if head == tail {
        assert |q| == 1;
        tail := null;
        head := null;
      } else {
        assert |q| > 1;
        head := temp.next;
        head.prev := null;
      }
      temp.next := null;
      temp.prev := null;
      PoppedLinks(q);
      q := q[1..];
      r := temp;
    }
  }

  /** The links around position k have been redirected past it. */
  ghost predicate LinkedPast(q: seq<Process>, k: nat)
    requires k < |q|
    reads q
  {
    && (forall i {:trigger q[i].next} :: 0 <= i < |q| && i != k ==>
          q[i].next == At(q, if i == k - 1 then k + 1 else i + 1))
    && (forall i {:trigger q[i].prev} :: 0 <= i < |q| && i != k ==>
          q[i].prev == At(q, if i == k + 1 then k - 1 else i - 1))
  }

  lemma Positions(q: seq<Process>, k: nat)
    requires Distinct(q) && k < |q|
    ensures forall i :: 0 <= i < |q| && i != k ==> q[i] != q[k]
    ensures forall i :: 0 < k && 0 <= i < |q| && i != k - 1 ==> q[i] != q[k - 1]
    ensures forall i :: k + 1 < |q| && 0 <= i < |q| && i != k + 1 ==> q[i] != q[k + 1]
  {
  }

  /** Without its first member, whose successor has been made the first. */
  lemma PoppedLinks(q: seq<Process>)
    requires q != []
    requires forall i {:trigger q[i].next} :: 1 <= i < |q| ==> q[i].next == At(q, i + 1)
    requires forall i {:trigger q[i].prev} :: 1 <= i < |q| ==> q[i].prev == if i == 1 then null else q[i - 1]
    ensures Linked(q[1..])
  {
    var r := q[1..];
    forall i | 0 <= i < |r|
      ensures r[i].next == At(r, i + 1) && r[i].prev == At(r, i - 1)
    {
      assert r[i] == q[i + 1];
    }
  }

  lemma Distinct1(q: seq<Process>)
    requires Distinct(q) && q != []
    ensures Distinct(q[1..])
  {
  }

  lemma Relinked(q: seq<Process>, k: nat)
    requires k < |q| && LinkedPast(q, k)
    ensures Linked(q[..k] + q[k + 1..])
  {
    var r := q[..k] + q[k + 1..];
    forall i | 0 <= i < |r|
      ensures r[i].next == At(r, i + 1) && r[i].prev == At(r, i - 1)
    {
      var j := if i < k then i else i + 1;
      assert r[i] == q[j];
    }
  }

  lemma Extended(q: seq<Process>, x: Process)
    requires q != [] && x !in q
    requires forall i {:trigger q[i].next} :: 0 <= i < |q| ==>
               q[i].next == if i + 1 < |q| then q[i + 1] else x
    requires forall i {:trigger q[i].prev} :: 0 <= i < |q| ==> q[i].prev == At(q, i - 1)
    requires x.next == null && x.prev == q[|q| - 1]
    ensures Linked(q + [x])
  {
    var r := q + [x];
    forall i | 0 <= i < |r|
      ensures r[i].next == At(r, i + 1) && r[i].prev == At(r, i - 1)
    {
      assert i < |q| ==> r[i] == q[i];
    }
  }
}
