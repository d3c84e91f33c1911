/** Processes (proc/proc.c) over the linked queues: each operation does to the
    real queues what ProcModel's function of the same name does to sequences. */
module Proc {
  import opened RoundRobin
  import opened ProcQueue
  import opened Scheduler
  import opened ProcModel

  class ProcTable {
    const sched: Sched
    const waits: seq<Queue>
    const orig: Process
    var curr: Process
    var next: Process
    var pid: int

    /** The abstract state, and all processes it speaks of. */
    ghost var s: Procs<Process>
    ghost var members: set<Process>

    /** The real queues hold what the abstract state says; all their members are
        in `m`. */
    ghost predicate Match(s: Procs<Process>, m: set<Process>)
      reads sched, sched.queue, waits, m
    {
      && InMembers(s, m) && |s.waits| == |waits|
      && s.ready.q == sched.queue.q && s.ready.cursor == AsOption(sched.current)
      && sched.Valid()
      && (forall i :: 0 <= i < |waits| ==>
            waits[i] != sched.queue && waits[i].q == s.waits[i] && waits[i].Valid())
      && (forall i, j :: 0 <= i < j < |waits| ==> waits[i] != waits[j])
    }

    /** A process that is in no queue carries no links. */
    ghost predicate Detached(p: Process)
      reads p
    {
      p.next == null && p.prev == null
    }

    ghost predicate Valid()
      reads this, sched, sched.queue, waits, members
    {
      && orig in members && curr in members && Detached(orig)
      && Placed(s, orig)
      && s.curr == curr && s.next == next
      && Match(s, members)
    }

    constructor (sched: Sched, waits: seq<Queue>, orig: Process)
      requires sched.Valid() && sched.queue.q == [] && sched.current == null
      requires forall i :: 0 <= i < |waits| ==> waits[i] != sched.queue && waits[i].Valid() && waits[i].q == []
      requires forall i, j :: 0 <= i < j < |waits| ==> waits[i] != waits[j]
      requires orig.next == null && orig.prev == null
      ensures Valid() && s == Boot(orig, |waits|).procs
      ensures this.sched == sched && this.waits == waits && this.orig == orig
    {
      this.sched := sched;
      this.waits := waits;
      this.orig := orig;
      curr := orig;
      next := orig;
      pid := 1;
      s := Boot(orig, |waits|).procs;
      members := {orig};
    }

    /** PROC_reschedule. */
    method RescheduleProc()
      requires Valid()
      modifies this`next, this`s, sched`current
      ensures Valid() && s == Reschedule(old(s), orig)
      ensures sched.queue.q == old(sched.queue.q) && curr == old(curr)
      ensures Follows(old(s).ready.q, old(s).ready.cursor, s.ready.cursor)
      ensures next == if old(s).ready.q == [] then orig else s.ready.cursor.value
    {
      RrNextFollows(s.ready);
      hide Distinct, RrNext, Linked, Follows;
      NextOk(s.ready);
      var n := sched.NextThread();
      if n == null {
        next := orig;
      } else {
        next := n;
      }
      s := Reschedule(s, orig);
    }

    /** The effect of yield_sys_call followed by the context switch. */
    method Yield()
      requires Valid()
      modifies this`curr, this`next, this`s, sched`current
      ensures Valid() && s == Switch(Reschedule(old(s), orig))
      ensures SwitchedTo(old(s), s, orig)
    {
      RescheduleSwitches(s, orig);
      hide Distinct, RrNext, SwitchedTo, Follows;
      RescheduleProc();
      curr := next;
      s := Switch(s);
    }

    /** sched_admit of a process that is in no queue. `a` is the abstract state
        the queues are in, `m` a set holding their members. */
    method AdmitProc(t: Process, ghost a: Procs<Process>, ghost m: set<Process>)
      requires Match(a, m) && Placed(a, orig) && Detached(t) && !Queued(a, t) && t != orig && t in m
      modifies sched.queue, t, a.ready.q
      ensures Match(Create(a, t), m)
      ensures Detached(orig) <==> old(Detached(orig))
    {
      hide Distinct, Without, Linked;
      sched.SchedAdmit(t);
      forall i | 0 <= i < |waits|
        ensures waits[i].q == a.waits[i] && waits[i].Valid()
      {
        assert forall p :: p in a.waits[i] ==> p != t && p !in a.ready.q;
        Untouched(waits[i]);
      }
    }

    /** sched_remove of a queued process. */
    method DropProc(t: Process, ghost a: Procs<Process>, ghost m: set<Process>)
      requires Match(a, m) && Placed(a, orig) && t in a.ready.q
      modifies sched`current, sched.queue, t, a.ready.q
      ensures Match(a.(ready := Remove(a.ready, t)), m) && Detached(t)
      ensures Detached(orig) <==> old(Detached(orig))
    {
      hide Distinct, Linked;
      WithoutElements(a.ready.q, t);
      hide Without;
      assert a.ready == sched.State();
      assert InMembers(a.(ready := Remove(a.ready, t)), m);
      sched.SchedRemove(t);
      forall i | 0 <= i < |waits|
        ensures waits[i].q == a.waits[i] && waits[i].Valid()
      {
        assert forall p :: p in a.waits[i] ==> p !in a.ready.q;
        Untouched(waits[i]);
      }
    }

    /** append_proc on wait queue w. */
    method AppendTo(w: nat, t: Process, ghost a: Procs<Process>, ghost m: set<Process>)
      requires Match(a, m) && Placed(a, orig) && w < |waits| && Detached(t) && !Queued(a, t) && t != orig && t in m
      modifies waits[w], t, a.waits[w]
      ensures Match(a.(waits := a.waits[w := a.waits[w] + [t]]), m)
      ensures Detached(orig) <==> old(Detached(orig))
    {
      hide Distinct, Without, Linked;
      assert waits[w].Valid() && waits[w].q == a.waits[w];
      assert forall p :: p in a.ready.q ==> p != t && p !in a.waits[w];
      waits[w].AppendProc(t);
      Untouched(sched.queue);
      forall i | 0 <= i < |waits| && i != w
        ensures waits[i].q == a.waits[i] && waits[i].Valid()
      {
        assert forall p :: p in a.waits[i] ==> p != t && p !in a.waits[w];
        Untouched(waits[i]);
      }
    }

    /** pop_proc on wait queue w. */
    method PopFrom(w: nat, ghost a: Procs<Process>, ghost m: set<Process>) returns (t: Process?)
      requires Match(a, m) && Placed(a, orig) && w < |waits|
      modifies waits[w], a.waits[w]
      ensures a.waits[w] == [] ==> t == null && Match(a, m)
      ensures a.waits[w] != [] ==>
                && t == a.waits[w][0] && Detached(t)
                && Match(a.(waits := a.waits[w := a.waits[w][1..]]), m)
      ensures Detached(orig) <==> old(Detached(orig))
    {
      hide Distinct, Without, Linked;
      assert waits[w].Valid() && waits[w].q == a.waits[w];
      assert forall p :: p in a.ready.q ==> p !in a.waits[w];
      t := waits[w].PopProc();
      Untouched(sched.queue);
      forall i | 0 <= i < |waits| && i != w
        ensures waits[i].q == a.waits[i] && waits[i].Valid()
      {
        assert forall p :: p in a.waits[i] ==> p !in a.waits[w];
        Untouched(waits[i]);
      }
    }

    lemma MatchMore(s: Procs<Process>, m: set<Process>, t: Process)
      requires Match(s, m)
      ensures Match(s, m + {t})
    {
      hide Distinct, Linked;
    }

    lemma Running()
      requires Valid()
      ensures s.curr == curr && curr in members && Placed(s, orig) && |s.waits| == |waits|
    {
    }

    lemma AllMembers()
      requires Valid()
      ensures InMembers(s, members)
    {
    }

    /** PROC_create_kthread. */
    method CreateKthread() returns (t: Process)
      requires Valid()
      modifies this`pid, this`s, this`members, sched.queue, s.ready.q
      ensures Valid() && fresh(t) && t.pid == old(pid) && pid == old(pid) + 1
      ensures s == Create(old(s), t) && members == old(members) + {t}
    {
      hide Distinct, Without, Linked, Placed, Queued, InMembers, Admit;
      t := new Process(pid);
      pid := pid + 1;
      NotQueued(s, t, members);
      CreatePlaced(s, orig, t);
      OrigNotQueued(s, orig);
      MatchMore(s, members, t);
      members := members + {t};
      AdmitProc(t, s, members);
      s := Create(s, t);
    }

    /** PROC_block_on up to its yield; the caller is a created thread. */
    method BlockProc(w: nat)
      requires Valid() && w < |waits| && Settled(s, orig) && curr != orig
      modifies this`s, sched`current, sched.queue, waits[w], members
      ensures Valid() && s == BlockOn(old(s), w)
      ensures s.waits == old(s).waits[w := old(s).waits[w] + [old(curr)]] && curr == old(curr)
      ensures exists i :: LeftAt(old(s), s, i)
    {
      hide Queued, LeftAt, Placed, Settled, Match, InMembers, BlockOn, Remove;
      Running();
      ghost var left := BlockSteps(s, orig, w);
      MoveToWait(w, left);
      s := BlockOn(s, w);
    }

    /** Its two halves on the queues; the state in between is `left`. */
    method MoveToWait(w: nat, ghost left: Procs<Process>)
      requires Valid() && w < |waits| && w < |left.waits| && curr in s.ready.q && curr != orig
      requires left == s.(ready := Remove(s.ready, curr)) && Placed(left, orig) && !Queued(left, curr)
      modifies sched`current, sched.queue, waits[w], members
      ensures Match(left.(waits := left.waits[w := left.waits[w] + [curr]]), members) && Detached(orig)
    {
      AllMembers();
      hide Queued, Placed, Match, InMembers, Remove;
      InQueues(s, members);
      DropProc(curr, s, members);
      AppendTo(w, curr, left, members);
    }

    /** PROC_unblock_head. */
    method UnblockHeadProc(w: nat) returns (woken: bool)
      requires Valid() && w < |waits|
      modifies this`s, sched.queue, waits[w], members
      ensures Valid() && s == UnblockHead(old(s), w)
      ensures woken <==> old(s).waits[w] != []
    {
      hide Distinct, Without, Linked, Queued;
      ghost var a := s;
      UnblockPlaced(s, orig, w);
      var t := PopFrom(w, a, members);
      woken := t != null;
      if t != null {
        PopPlaced(a, orig, w);
        AdmitProc(t, a.(waits := a.waits[w := a.waits[w][1..]]), members);
        s := UnblockHead(a, w);
      }
    }

    /** PROC_unblock_all. */
    method UnblockAllProc(w: nat)
      requires Valid() && w < |waits|
      modifies this`s, sched.queue, waits[w], members
      ensures Valid() && s == UnblockAll(old(s), w)
    {
      assert |s.waits| == |waits|;
      hide Placed, Match;
      ghost var goal := UnblockAll(s, w);
      while true
        invariant Valid() && |s.waits| == |waits|
        invariant UnblockAll(s, w) == goal
        decreases |s.waits[w]|
      {
        var woken := UnblockHeadProc(w);
        if !woken {
          break;
        }
      }
    }

    /** kexit_isr followed by the context switch. */
    method ExitProc()
      requires Valid() && Settled(s, orig) && curr != orig
      modifies this`s, this`curr, this`next, sched`current, sched.queue, members
      ensures Valid() && s == Switch(Exit(old(s), orig))
      ensures exists i :: ExitedAt(old(s), s, orig, i)
    {
      hide Distinct, Without, Linked, Queued, ExitedAt;
      ghost var a := s;
      ghost var i := ExitMoves(s, orig);
      DropPlaced(s, orig);
      DropProc(curr, a, members);
      s := a.(ready := Remove(a.ready, curr));
      Yield();
    }
  }

  twostate lemma Untouched(queue: Queue)
    requires old(queue.Valid())
    requires queue.q == old(queue.q) && queue.head == old(queue.head) && queue.tail == old(queue.tail)
    requires forall p :: p in queue.q ==> p.next == old(p.next) && p.prev == old(p.prev)
    ensures queue.Valid()
  {
  }

  ghost predicate InMembers(s: Procs<Process>, members: set<Process>) {
    && (forall p :: p in s.ready.q ==> p in members)
    && (forall i, p :: 0 <= i < |s.waits| && p in s.waits[i] ==> p in members)
  }

  lemma DropPlaced(s: Procs<Process>, orig: Process)
    requires Placed(s, orig) && Settled(s, orig) && s.curr != orig
    ensures s.curr in s.ready.q && Placed(s.(ready := Remove(s.ready, s.curr)), orig)
    ensures !Queued(s.(ready := Remove(s.ready, s.curr)), s.curr)
  {
    RemoveOk(s.ready, s.curr);
    WithoutElements(s.ready.q, s.curr);
    hide Without;
  }

  /** The state between the two halves of a block, and the state behind them. */
  lemma BlockSteps(s: Procs<Process>, orig: Process, w: nat) returns (left: Procs<Process>)
    requires Placed(s, orig) && Settled(s, orig) && s.curr != orig && w < |s.waits|
    ensures s.curr in s.ready.q && left == s.(ready := Remove(s.ready, s.curr))
    ensures Placed(left, orig) && !Queued(left, s.curr)
    ensures BlockOn(s, w) == left.(waits := left.waits[w := left.waits[w] + [s.curr]])
    ensures BlockOn(s, w).curr == s.curr && BlockOn(s, w).next == s.next
    ensures BlockOn(s, w).waits == s.waits[w := s.waits[w] + [s.curr]]
    ensures Placed(BlockOn(s, w), orig) && exists i :: LeftAt(s, BlockOn(s, w), i)
  {
    hide Distinct, Without, Queued, LeftAt;
    var i := RemoveLeaves(s, orig);
    LeftOnlyReady(s, w, i);
    BlockPlaced(s, orig, w);
    DropPlaced(s, orig);
    left := s.(ready := Remove(s.ready, s.curr));
  }

  lemma InQueues(s: Procs<Process>, members: set<Process>)
    requires InMembers(s, members)
    ensures forall p :: p in s.ready.q ==> p in members
    ensures forall i, p :: 0 <= i < |s.waits| && p in s.waits[i] ==> p in members
  {
  }

  lemma PopPlaced(s: Procs<Process>, orig: Process, w: nat)
    requires Placed(s, orig) && w < |s.waits| && s.waits[w] != []
    ensures Placed(s.(waits := s.waits[w := s.waits[w][1..]]), orig)
    ensures !Queued(s.(waits := s.waits[w := s.waits[w][1..]]), s.waits[w][0]) && s.waits[w][0] != orig
  {
    assert s.waits[w][0] in s.waits[w];
    assert forall p :: p in s.waits[w][1..] ==> p in s.waits[w] && p != s.waits[w][0];
  }

  lemma NotQueued(s: Procs<Process>, t: Process, members: set<Process>)
    requires t !in members && InMembers(s, members)
    ensures !Queued(s, t)
  {
  }

  lemma OrigNotQueued(s: Procs<Process>, orig: Process)
    requires Placed(s, orig)
    ensures orig !in s.ready.q
  {
  }
}
