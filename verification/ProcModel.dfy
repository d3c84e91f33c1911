/** The value-level theory of processes (proc/proc.c): the ready queue with its
    cursor, any number of wait queues, and the running and next process. The boot
    context `orig` runs whenever nothing is ready; it is never queued.

    A thread that blocks leaves the ready queue and joins a wait queue first, and
    gives up the processor only then. In between, interrupts may already wake it:
    that is the window. */
module ProcModel {
  import opened RoundRobin
  import opened Wrappers

  datatype Procs<T> = Procs(ready: Ready<T>, waits: seq<seq<T>>, curr: T, next: T)

  // ----- the operations -----

  /** PROC_reschedule. */
  function Reschedule<T(==)>(s: Procs<T>, orig: T): (r: Procs<T>)
    requires s.ready.cursor.Some? ==> s.ready.cursor.value in s.ready.q
  {
    var c := RrNext(s.ready);
    s.(ready := s.ready.(cursor := c), next := if c.Some? then c.value else orig)
  }

  /** The context switch at the end of an interrupt. */
  function Switch<T>(s: Procs<T>): (r: Procs<T>) {
    s.(curr := s.next)
  }

  function Create<T>(s: Procs<T>, t: T): (r: Procs<T>) {
    s.(ready := Admit(s.ready, t))
  }

  /** PROC_block_on up to its yield. */
  function BlockOn<T(==)>(s: Procs<T>, w: nat): (r: Procs<T>)
    requires w < |s.waits|
  {
    s.(ready := Remove(s.ready, s.curr), waits := s.waits[w := s.waits[w] + [s.curr]])
  }

  function UnblockHead<T>(s: Procs<T>, w: nat): (r: Procs<T>)
    requires w < |s.waits|
  {
    if s.waits[w] == [] then s
    else s.(ready := Admit(s.ready, s.waits[w][0]), waits := s.waits[w := s.waits[w][1..]])
  }

  function UnblockAll<T>(s: Procs<T>, w: nat): (r: Procs<T>)
    requires w < |s.waits|
    ensures |r.waits| == |s.waits|
    decreases |s.waits[w]|
  {
    if s.waits[w] == [] then s else UnblockAll(UnblockHead(s, w), w)
  }

  /** kexit_isr up to the context switch. */
  function Exit<T(==)>(s: Procs<T>, orig: T): (r: Procs<T>)
    requires ReadyOk(s.ready)
  {
    RemoveOk(s.ready, s.curr);
    Reschedule(s.(ready := Remove(s.ready, s.curr)), orig)
  }

  // ----- placement -----

  /** Every queued thread is in one queue, at one position; the cursor is NULL or
      on a ready thread; `orig` is in no queue. */
  ghost predicate Placed<T>(s: Procs<T>, orig: T) {
    && ReadyOk(s.ready)
    && orig !in s.ready.q
    && (forall w :: 0 <= w < |s.waits| ==> Distinct(s.waits[w]) && orig !in s.waits[w])
    && (forall w, t :: 0 <= w < |s.waits| && t in s.waits[w] ==> t !in s.ready.q)
    && (forall v, w, t :: 0 <= v < |s.waits| && 0 <= w < |s.waits| && t in s.waits[v] && t in s.waits[w] ==> v == w)
  }

  ghost predicate Queued<T>(s: Procs<T>, t: T) {
    t in s.ready.q || exists w :: 0 <= w < |s.waits| && t in s.waits[w]
  }

  /** The running process is the one under the cursor, or `orig` when the cursor
      is NULL. */
  ghost predicate Settled<T>(s: Procs<T>, orig: T) {
    s.curr == if s.ready.cursor.Some? then s.ready.cursor.value else orig
  }

  lemma YieldPlaced<T>(s: Procs<T>, orig: T)
    requires Placed(s, orig)
    ensures var r := Switch(Reschedule(s, orig));
      Placed(r, orig) && Settled(r, orig) && forall t :: Queued(r, t) <==> Queued(s, t)
  {
    NextOk(s.ready);
    hide RrNext, Distinct;
  }

  lemma CreatePlaced<T>(s: Procs<T>, orig: T, t: T)
    requires Placed(s, orig) && !Queued(s, t) && t != orig
    ensures Placed(Create(s, t), orig) && (Settled(s, orig) ==> Settled(Create(s, t), orig))
    ensures forall u :: Queued(Create(s, t), u) <==> Queued(s, u) || u == t
  {
  }

  lemma BlockPlaced<T>(s: Procs<T>, orig: T, w: nat)
    requires Placed(s, orig) && Settled(s, orig) && s.curr != orig && w < |s.waits|
    ensures Placed(BlockOn(s, w), orig) && (forall t :: Queued(BlockOn(s, w), t) <==> Queued(s, t))
    ensures s.curr in BlockOn(s, w).waits[w]
  {
    RemoveOk(s.ready, s.curr);
    WithoutElements(s.ready.q, s.curr);
    hide Without;
    var r := BlockOn(s, w);
    assert s.curr in r.waits[w];
    forall t | t != s.curr
      ensures Queued(r, t) <==> Queued(s, t)
    {
      assert forall v :: 0 <= v < |s.waits| ==> (t in r.waits[v] <==> t in s.waits[v]);
    }
  }

  lemma DistinctSnoc<T>(q: seq<T>, x: T)
    requires Distinct(q) && x !in q
    ensures Distinct(q + [x])
  {
  }

  lemma UnblockPlaced<T>(s: Procs<T>, orig: T, w: nat)
    requires Placed(s, orig) && w < |s.waits|
    ensures Placed(UnblockHead(s, w), orig) && (forall t :: Queued(UnblockHead(s, w), t) <==> Queued(s, t))
    ensures Settled(s, orig) ==> Settled(UnblockHead(s, w), orig)
  {
    if s.waits[w] != [] {
      var h := s.waits[w][0];
      assert s.waits[w] == [h] + s.waits[w][1..];
      assert h in s.waits[w];
      var r := UnblockHead(s, w);
      assert h !in s.ready.q;
      DistinctSnoc(s.ready.q, h);
      assert Queued(s, h) && h in r.ready.q;
      forall t | t != h
        ensures Queued(r, t) <==> Queued(s, t)
      {
        assert forall v :: 0 <= v < |s.waits| ==> (t in r.waits[v] <==> t in s.waits[v]);
      }
    }
  }

  lemma {:induction false} UnblockAllPlaced<T>(s: Procs<T>, orig: T, w: nat)
    requires Placed(s, orig) && w < |s.waits|
    ensures Placed(UnblockAll(s, w), orig) && (forall t :: Queued(UnblockAll(s, w), t) <==> Queued(s, t))
    ensures Settled(s, orig) ==> Settled(UnblockAll(s, w), orig)
    ensures UnblockAll(s, w).waits == s.waits[w := []]
    ensures UnblockAll(s, w).ready == Ready(s.ready.q + s.waits[w], s.ready.cursor)
    decreases |s.waits[w]|
  {
    if s.waits[w] != [] {
      UnblockPlaced(s, orig, w);
      UnblockAllPlaced(UnblockHead(s, w), orig, w);
      assert s.ready.q + [s.waits[w][0]] + s.waits[w][1..] == s.ready.q + s.waits[w];
    }
  }

  lemma {:induction false} UnblockAllCurr<T>(p: Procs<T>, w: nat)
    requires w < |p.waits|
    ensures UnblockAll(p, w).curr == p.curr
    decreases |p.waits[w]|
  {
    if p.waits[w] != [] {
      UnblockAllCurr(UnblockHead(p, w), w);
    }
  }

  lemma ExitPlaced<T>(s: Procs<T>, orig: T)
    requires Placed(s, orig) && Settled(s, orig) && s.curr != orig
    ensures var r := Switch(Exit(s, orig));
      Placed(r, orig) && Settled(r, orig) && forall t :: Queued(r, t) <==> Queued(s, t) && t != s.curr
  {
    RemoveOk(s.ready, s.curr);
    WithoutElements(s.ready.q, s.curr);
    hide Without, RrNext;
    var m := s.(ready := Remove(s.ready, s.curr));
    assert Placed(m, orig);
    YieldPlaced(m, orig);
  }

  // ----- runs -----

  datatype Event<T> =
    | Created(t: T)
    | Yielded
    | BlockBegun(w: nat)
    | BlockEnded
    | Woken(w: nat)
    | AllWoken(w: nat)
    | Exited

  /** `window` says that the running thread is inside PROC_block_on. */
  datatype System<T> = System(procs: Procs<T>, window: bool)

  /** What the source demands: new threads are new, and `orig` neither blocks nor
      exits. Only wake-ups, which come from interrupts, can fall in the window. */
  ghost predicate Legal<T>(s: System<T>, orig: T, e: Event<T>) {
    match e
    case Created(t) => !s.window && !Queued(s.procs, t) && t != orig
    case Yielded => !s.window
    case BlockBegun(w) => !s.window && s.procs.curr != orig && w < |s.procs.waits|
    case BlockEnded => s.window
    case Woken(w) => w < |s.procs.waits|
    case AllWoken(w) => w < |s.procs.waits|
    case Exited => !s.window && s.procs.curr != orig
  }

  ghost predicate SystemOk<T>(s: System<T>, orig: T) {
    Placed(s.procs, orig) && (!s.window ==> Settled(s.procs, orig))
  }

  ghost function Step<T>(s: System<T>, orig: T, e: Event<T>): (r: System<T>)
    requires SystemOk(s, orig) && Legal(s, orig, e)
  {
    match e
    case Created(t) => s.(procs := Create(s.procs, t))
    case Yielded => s.(procs := Switch(Reschedule(s.procs, orig)))
    case BlockBegun(w) => System(BlockOn(s.procs, w), true)
    case BlockEnded => System(Switch(Reschedule(s.procs, orig)), false)
    case Woken(w) => s.(procs := UnblockHead(s.procs, w))
    case AllWoken(w) => s.(procs := UnblockAll(s.procs, w))
    case Exited => s.(procs := Switch(Exit(s.procs, orig)))
  }

  lemma StepOk<T>(s: System<T>, orig: T, e: Event<T>)
    requires SystemOk(s, orig) && Legal(s, orig, e)
    ensures SystemOk(Step(s, orig, e), orig)
    ensures |Step(s, orig, e).procs.waits| == |s.procs.waits|
    ensures forall t :: Queued(Step(s, orig, e).procs, t) <==>
              (Queued(s.procs, t) || e == Created(t)) && !(e.Exited? && t == s.procs.curr)
  {
    hide Placed, Settled, Queued;
    match e
    case Created(t) => CreatePlaced(s.procs, orig, t);
    case Yielded => YieldPlaced(s.procs, orig);
    case BlockBegun(w) => BlockPlaced(s.procs, orig, w);
    case BlockEnded => YieldPlaced(s.procs, orig);
    case Woken(w) => UnblockPlaced(s.procs, orig, w);
    case AllWoken(w) => UnblockAllPlaced(s.procs, orig, w);
    case Exited => ExitPlaced(s.procs, orig);
  }

  ghost predicate LegalRun<T>(s: System<T>, orig: T, es: seq<Event<T>>)
    requires SystemOk(s, orig)
    decreases |es|
  {
    es == [] ||
    (Legal(s, orig, es[0]) && (StepOk(s, orig, es[0]); LegalRun(Step(s, orig, es[0]), orig, es[1..])))
  }

  ghost function Run<T>(s: System<T>, orig: T, es: seq<Event<T>>): (r: System<T>)
    requires SystemOk(s, orig) && LegalRun(s, orig, es)
    decreases |es|
  {
    if es == [] then s
    else
      StepOk(s, orig, es[0]);
      Run(Step(s, orig, es[0]), orig, es[1..])
  }

  /** The threads of `alive`, plus those created and minus those exited along a
      run. */
  ghost function AliveAfter<T>(s: System<T>, orig: T, es: seq<Event<T>>, alive: set<T>): (r: set<T>)
    requires SystemOk(s, orig) && LegalRun(s, orig, es)
    decreases |es|
  {
    if es == [] then alive
    else
      StepOk(s, orig, es[0]);
      var alive' := match es[0]
        case Created(t) => alive + {t}
        case Exited => alive - {s.procs.curr}
        case _ => alive;
      AliveAfter(Step(s, orig, es[0]), orig, es[1..], alive')
  }

  function Boot<T>(orig: T, queues: nat): (s: System<T>) {
    System(Procs(Ready([], None), seq(queues, _ => []), orig, orig), false)
  }

  /** Placement over every run: the state stays in order, and the queued threads
      are exactly those created and not exited. */
  lemma {:induction false} RunPlaced<T>(s: System<T>, orig: T, es: seq<Event<T>>, alive: set<T>)
    requires SystemOk(s, orig) && LegalRun(s, orig, es)
    requires forall t :: Queued(s.procs, t) <==> t in alive
    ensures SystemOk(Run(s, orig, es), orig)
    ensures forall t :: Queued(Run(s, orig, es).procs, t) <==> t in AliveAfter(s, orig, es, alive)
    decreases |es|
  {
    if es != [] {
      StepOk(s, orig, es[0]);
      hide SystemOk, Queued, Step, Legal;
      var alive' := match es[0]
        case Created(t) => alive + {t}
        case Exited => alive - {s.procs.curr}
        case _ => alive;
      RunPlaced(Step(s, orig, es[0]), orig, es[1..], alive');
    }
  }

  /** In particular from boot, when no thread exists. */
  lemma BootRunPlaced<T>(orig: T, queues: nat, es: seq<Event<T>>)
    ensures SystemOk(Boot(orig, queues), orig)
    ensures LegalRun(Boot(orig, queues), orig, es) ==>
              && SystemOk(Run(Boot(orig, queues), orig, es), orig)
              && forall t :: Queued(Run(Boot(orig, queues), orig, es).procs, t)
                             <==> t in AliveAfter(Boot(orig, queues), orig, es, {})
  {
    var s := Boot(orig, queues);
    assert SystemOk(s, orig);
    if LegalRun(s, orig, es) {
      RunPlaced(s, orig, es, {});
    }
  }

  // ----- what each step does, in terms of the queues -----

  function NextTo<T>(q: seq<T>, i: nat): (t: T)
    requires i < |q|
  {
    if i + 1 < |q| then q[i + 1] else q[0]
  }

  /** Round robin: n comes after c in q, the first after the last and after NULL. */
  ghost predicate Follows<T>(q: seq<T>, c: Option<T>, n: Option<T>) {
    if q == [] then n.None?
    else if c.None? then n == Some(q[0])
    else exists i :: 0 <= i < |q| && q[i] == c.value && n == Some(NextTo(q, i))
  }

  lemma RrNextFollows<T>(s: Ready<T>)
    requires ReadyOk(s)
    ensures Follows(s.q, s.cursor, RrNext(s))
  {
    if s.cursor.Some? && s.q != [] {
      var i := IndexOf(s.q, s.cursor.value);
      IndexUnique(s.q, |s.q| - 1);
      assert s.q[i] == s.cursor.value && RrNext(s) == Some(NextTo(s.q, i));
    }
  }

  /** A yield, and the end of a block: the thread behind the cursor runs, or the boot
      context if no thread is ready. No queue changes. */
  ghost predicate SwitchedTo<T>(s: Procs<T>, r: Procs<T>, orig: T) {
    && r.ready.q == s.ready.q && r.waits == s.waits
    && Follows(s.ready.q, s.ready.cursor, r.ready.cursor)
    && r.curr == if s.ready.q == [] then orig else r.ready.cursor.value
  }

  /** The thread that ran has left the ready queue, and the cursor is on the one
      before it. */
  ghost predicate LeftAt<T>(s: Procs<T>, r: Procs<T>, i: nat) {
    && i < |s.ready.q| && s.ready.q[i] == s.curr
    && r.ready.q == s.ready.q[..i] + s.ready.q[i + 1..]
    && r.ready.cursor == if i == 0 then None else Some(s.ready.q[i - 1])
  }

  /** An exit: the thread behind the dead one runs, or the boot context. */
  ghost predicate ExitedAt<T>(s: Procs<T>, r: Procs<T>, orig: T, i: nat) {
    && i < |s.ready.q| && s.ready.q[i] == s.curr && r.waits == s.waits
    && r.ready.q == s.ready.q[..i] + s.ready.q[i + 1..]
    && r.curr == if |s.ready.q| == 1 then orig else NextTo(s.ready.q, i)
  }

  /** Threads at the end of the ready queue; who runs does not change. */
  ghost predicate Joined<T>(s: Procs<T>, r: Procs<T>, ts: seq<T>) {
    r.ready.q == s.ready.q + ts && r.ready.cursor == s.ready.cursor && r.curr == s.curr
  }

  ghost predicate Moves<T>(s: System<T>, orig: T, e: Event<T>, r: System<T>)
    requires Legal(s, orig, e)
  {
    var p, q := s.procs, r.procs;
    match e
    case Created(t) => !r.window && Joined(p, q, [t]) && q.waits == p.waits
    case Yielded => !r.window && SwitchedTo(p, q, orig)
    case BlockBegun(w) =>
      && r.window && q.curr == p.curr && q.waits == p.waits[w := p.waits[w] + [p.curr]]
      && exists i :: LeftAt(p, q, i)
    case BlockEnded => !r.window && SwitchedTo(p, q, orig)
    case Woken(w) =>
      && r.window == s.window
      && if p.waits[w] == [] then q == p
         else Joined(p, q, [p.waits[w][0]]) && q.waits == p.waits[w := p.waits[w][1..]]
    case AllWoken(w) => r.window == s.window && Joined(p, q, p.waits[w]) && q.waits == p.waits[w := []]
    case Exited => !r.window && exists i :: ExitedAt(p, q, orig, i)
  }

  lemma RescheduleSwitches<T>(s: Procs<T>, orig: T)
    requires Placed(s, orig)
    ensures SwitchedTo(s, Switch(Reschedule(s, orig)), orig)
  {
    RrNextFollows(s.ready);
    NextOk(s.ready);
    hide RrNext, Distinct;
  }

  lemma RemoveLeaves<T>(s: Procs<T>, orig: T) returns (i: nat)
    requires Placed(s, orig) && Settled(s, orig) && s.curr != orig
    ensures LeftAt(s, s.(ready := Remove(s.ready, s.curr)), i)
  {
    i := IndexOf(s.ready.q, s.curr);
    WithoutAt(s.ready.q, i);
  }

  lemma LeftOnlyReady<T>(s: Procs<T>, w: nat, i: nat)
    requires w < |s.waits| && LeftAt(s, s.(ready := Remove(s.ready, s.curr)), i)
    ensures LeftAt(s, BlockOn(s, w), i)
  {
  }

  lemma ExitMoves<T>(s: Procs<T>, orig: T) returns (i: nat)
    requires Placed(s, orig) && Settled(s, orig) && s.curr != orig
    ensures ExitedAt(s, Switch(Exit(s, orig)), orig, i)
  {
    i := RemoveLeaves(s, orig);
    RemoveOk(s.ready, s.curr);
    var m := s.(ready := Remove(s.ready, s.curr));
    WithoutElements(s.ready.q, s.curr);
    hide Without;
    assert Placed(m, orig);
    RescheduleSwitches(m, orig);
    hide Reschedule, Switch, Placed, Remove, RrNext;
    var r := Switch(Exit(s, orig));
    if i > 0 && |m.ready.q| > 0 {
      var k :| 0 <= k < |m.ready.q| && m.ready.q[k] == s.ready.q[i - 1]
        && r.ready.cursor == Some(NextTo(m.ready.q, k));
      assert m.ready.q[i - 1] == s.ready.q[i - 1];
      assert k == i - 1;
    }
  }

  /** So every step does to the queues what the event says. */
  lemma StepMoves<T>(s: System<T>, orig: T, e: Event<T>)
    requires SystemOk(s, orig) && Legal(s, orig, e)
    ensures Moves(s, orig, e, Step(s, orig, e))
  {
    match e
    case Created(t) =>
    case Yielded => RescheduleSwitches(s.procs, orig);
    case BlockBegun(w) =>
      var i := RemoveLeaves(s.procs, orig);
      assert LeftAt(s.procs, Step(s, orig, e).procs, i);
    case BlockEnded => RescheduleSwitches(s.procs, orig);
    case Woken(w) =>
    case AllWoken(w) =>
      UnblockAllPlaced(s.procs, orig, w);
      UnblockAllCurr(s.procs, w);
    case Exited =>
      var i := ExitMoves(s.procs, orig);
  }

  // ----- fairness over runs -----

  /** p is ready and does not run, before the run and after each of its steps. */
  ghost predicate NeverRuns<T>(s: System<T>, orig: T, es: seq<Event<T>>, p: T)
    requires SystemOk(s, orig) && LegalRun(s, orig, es)
    decreases |es|
  {
    && s.procs.curr != p
    && (es == [] || (StepOk(s, orig, es[0]); NeverRuns(Step(s, orig, es[0]), orig, es[1..], p)))
  }

  /** How often the processor changed hands, or could have. */
  function Switches<T>(es: seq<Event<T>>): (n: nat) {
    if es == [] then 0
    else (if IsSwitch(es[0]) then 1 else 0) + Switches(es[1..])
  }

  /** How many threads were created or woken meanwhile. */
  ghost function Arrivals<T>(s: System<T>, orig: T, es: seq<Event<T>>): (n: nat)
    requires SystemOk(s, orig) && LegalRun(s, orig, es)
    decreases |es|
  {
    if es == [] then 0
    else
      StepOk(s, orig, es[0]);
      var r := Step(s, orig, es[0]);
      Came(s, r) + Arrivals(r, orig, es[1..])
  }

  lemma SwitchNearer<T>(s: Procs<T>, orig: T, p: T)
    requires Placed(s, orig) && p in s.ready.q && Switch(Reschedule(s, orig)).curr != p
    ensures var r := Switch(Reschedule(s, orig));
      Placed(r, orig) && p in r.ready.q && Distance(r.ready, p) == Distance(s.ready, p) - 1
  {
    DistanceNext(s.ready, p);
    YieldPlaced(s, orig);
    hide RrNext, Distance, Distinct;
  }

  lemma {:induction false} WakingAll<T>(s: Procs<T>, orig: T, w: nat, p: T)
    requires Placed(s, orig) && w < |s.waits| && p in s.ready.q
    ensures Placed(UnblockAll(s, w), orig) && p in UnblockAll(s, w).ready.q
    ensures Distance(UnblockAll(s, w).ready, p) <= Distance(s.ready, p) + |s.waits[w]|
    decreases |s.waits[w]|
  {
    UnblockAllPlaced(s, orig, w);
    if s.waits[w] != [] {
      UnblockPlaced(s, orig, w);
      assert s.waits[w][0] in s.waits[w];
      DistanceAdmit(s.ready, s.waits[w][0], p);
      hide Distance, Distinct;
      WakingAll(UnblockHead(s, w), orig, w, p);
    }
  }

  ghost function Came<T>(s: System<T>, r: System<T>): (n: nat) {
    if |r.procs.ready.q| > |s.procs.ready.q| then |r.procs.ready.q| - |s.procs.ready.q| else 0
  }

  predicate IsSwitch<T>(e: Event<T>) {
    e.Yielded? || e.BlockEnded? || e.Exited?
  }

  /** A step that does not run p brings it nearer if it is a switch, and sends it back
      by no more than the threads that came. */
  lemma FairStep<T>(s: System<T>, orig: T, e: Event<T>, p: T)
    requires SystemOk(s, orig) && Legal(s, orig, e)
    requires p in s.procs.ready.q && s.procs.curr != p && Step(s, orig, e).procs.curr != p
    ensures var r := Step(s, orig, e);
      && SystemOk(r, orig) && p in r.procs.ready.q
      && Distance(r.procs.ready, p) <= Distance(s.procs.ready, p) + Came(s, r) - if IsSwitch(e) then 1 else 0
  {
    StepOk(s, orig, e);
    hide Distance, Distinct, RrNext;
    match e
    case Created(t) => DistanceAdmit(s.procs.ready, t, p);
    case Yielded => SwitchNearer(s.procs, orig, p);
    case BlockBegun(w) => DistanceRemove(s.procs.ready, s.procs.curr, p);
    case BlockEnded => SwitchNearer(s.procs, orig, p);
    case Woken(w) =>
      if s.procs.waits[w] != [] {
        assert s.procs.waits[w][0] in s.procs.waits[w];
        DistanceAdmit(s.procs.ready, s.procs.waits[w][0], p);
      }
    case AllWoken(w) =>
      UnblockAllPlaced(s.procs, orig, w);
      WakingAll(s.procs, orig, w, p);
    case Exited =>
      DistanceRemove(s.procs.ready, s.procs.curr, p);
      LeavePlaced(s.procs, orig);
      SwitchNearer(s.procs.(ready := Remove(s.procs.ready, s.procs.curr)), orig, p);
  }

  lemma LeavePlaced<T>(s: Procs<T>, orig: T)
    requires Placed(s, orig) && Settled(s, orig) && s.curr != orig
    ensures Placed(s.(ready := Remove(s.ready, s.curr)), orig)
  {
    RemoveOk(s.ready, s.curr);
    WithoutElements(s.ready.q, s.curr);
    hide Without;
  }

  /** Fairness over every run of the kernel: a thread that is ready and does not run
      has seen fewer switches than its distance from the cursor at the start, and the
      threads created or woken meanwhile. */
  lemma {:induction false} FairRun<T>(s: System<T>, orig: T, es: seq<Event<T>>, p: T)
    requires SystemOk(s, orig) && LegalRun(s, orig, es)
    requires p in s.procs.ready.q && NeverRuns(s, orig, es, p)
    ensures Switches(es) < Distance(s.procs.ready, p) + Arrivals(s, orig, es)
    ensures 1 <= Distance(s.procs.ready, p) <= |s.procs.ready.q|
    decreases |es|
  {
    DistanceNext(s.procs.ready, p);
    hide Distance, Distinct, RrNext;
    if es != [] {
      StepOk(s, orig, es[0]);
      var r := Step(s, orig, es[0]);
      assert r.procs.curr != p;
      FairStep(s, orig, es[0], p);
      hide SystemOk, Step, Legal;
      FairRun(r, orig, es[1..], p);
    }
  }
}
