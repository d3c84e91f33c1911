/** The round-robin scheduler (proc/scheduler.c) over the linked ready queue. */
module Scheduler {
  import opened RoundRobin
  import opened Wrappers
  import opened ProcQueue

  function AsOption(p: Process?): (o: Option<Process>) {
    if p == null then None else var q: Process := p; Some(q)
  }

  class Sched {
    const queue: Queue
    var current: Process?

    ghost predicate Valid()
      reads this, queue, queue.q
    {
      queue.Valid() && (current != null ==> current in queue.q)
    }

    /** The abstract ready queue. */
    ghost function State(): (s: Ready<Process>)
      reads this, queue
    {
      Ready(queue.q, AsOption(current))
    }

    constructor ()
      ensures Valid() && fresh(queue) && queue.q == [] && current == null
    {
      queue := new Queue();
      current := null;
    }

    method SchedAdmit(thread: Process)
      requires Valid()
      requires thread !in queue.q && thread.next == null && thread.prev == null
      modifies queue, thread, queue.q
      ensures Valid()
      ensures State() == Admit(old(State()), thread)
    {
      queue.AppendProc(thread);
    }

    method NextThread() returns (r: Process?)
      requires Valid()
      modifies this`current
      ensures Valid()
      ensures AsOption(r) == RrNext(old(State()))
      ensures State() == old(State()).(cursor := RrNext(old(State())))
    {
      if current == null || current == queue.tail {
        current := queue.head;
      } else {
        current := current.next;
      }
      r := current;
      ghost var s := old(State());
      NextOk(s);
      if s.cursor.Some? && s.cursor.value != s.q[|s.q| - 1] {
        assert s.q[IndexOf(s.q, s.cursor.value)] == s.cursor.value;
      }
    }

    method SchedRemove(thread: Process)
      requires Valid()
      requires thread in queue.q || (thread.next == null && thread.prev == null)
      modifies this`current, queue, thread, queue.q
      ensures Valid()
      ensures State() == Remove(old(State()), thread)
      ensures thread.next == null && thread.prev == null
    {
      ghost var s := State();
      RemoveOk(s, thread);
      if thread == current {
        assert thread == s.q[IndexOf(s.q, thread)];
        current := thread.prev;
      }
      queue.RemoveProc(thread);
    }

    method AreProcsScheduled() returns (b: bool)
      requires Valid()
      ensures b <==> queue.q != []
    {
      b := queue.head != null;
    }
  }
}
