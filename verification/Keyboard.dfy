/** getc and the key-press interrupt (dev/keyboard.c) under the blocking protocol
    wait_event_interruptable (include/proc.h), as a system of atomic steps over
    ProcModel. Wait queue 0 is keyb.blocked; the others belong to other drivers.

    Threads run cooperatively: they switch only when they yield, block or exit.
    The interrupt may fall between any two steps, except while interrupts are off:
    from the CLI of the macro to the STI that ends the loop or precedes a yield. */
module Keyboard {
  import opened Wrappers
  import opened RoundRobin
  import opened ProcModel
  import opened CircBuff

  /** Where a thread stands in getc_sys_call: outside; about to test for an empty
      buffer with interrupts off; blocked, or woken and not yet resumed; past the
      loop, about to read. */
  datatype Pc = Out | Testing | Waiting | Reading

  datatype Kbd<T> = Kbd(sys: System<T>, pc: map<T, Pc>, buf: seq<char>, accepted: seq<char>, read: seq<char>)

  datatype KbdEvent<T> =
    | KeyPress(c: char)
    | StartGetc
    | Test
    | Resume
    | Read
    | Other(e: ProcModel.Event<T>)

  /** Other events are those of threads outside getc, the yield that ends a block,
      and wake-ups by other drivers. */
  ghost predicate Enabled<T>(s: Kbd<T>, orig: T, e: KbdEvent<T>) {
    var curr := s.sys.procs.curr;
    match e
    case KeyPress(_) => Get(s.pc, curr, Out) != Testing
    case StartGetc => !s.sys.window && curr != orig && Get(s.pc, curr, Out) == Out
    case Test => !s.sys.window && Get(s.pc, curr, Out) == Testing
    case Resume => !s.sys.window && Get(s.pc, curr, Out) == Waiting
    case Read => !s.sys.window && Get(s.pc, curr, Out) == Reading
    case Other(o) =>
      && Legal(s.sys, orig, o)
      && (match o
          case BlockEnded => true
          case BlockBegun(w) => w > 0 && Get(s.pc, curr, Out) == Out
          case Woken(w) => w > 0 && Get(s.pc, curr, Out) != Testing
          case AllWoken(w) => w > 0 && Get(s.pc, curr, Out) != Testing
          case Created(t) => Get(s.pc, t, Out) == Out && Get(s.pc, curr, Out) == Out
          case _ => Get(s.pc, curr, Out) == Out)
  }

  ghost function Next<T>(s: Kbd<T>, orig: T, e: KbdEvent<T>): (r: Kbd<T>)
    requires SystemOk(s.sys, orig) && |s.sys.procs.waits| > 0 && Enabled(s, orig, e)
  {
    var curr := s.sys.procs.curr;
    match e
    case KeyPress(c) =>
      var woken := s.(sys := s.sys.(procs := UnblockHead(s.sys.procs, 0)));
      if |s.buf| < CAPACITY then woken.(buf := s.buf + [c], accepted := s.accepted + [c]) else woken
    case StartGetc => s.(pc := s.pc[curr := Testing])
    case Test =>
      if s.buf == [] then s.(sys := System(BlockOn(s.sys.procs, 0), true), pc := s.pc[curr := Waiting])
      else s.(pc := s.pc[curr := Reading])
    case Resume => s.(pc := s.pc[curr := Testing])
    case Read =>
      if s.buf == [] then s.(pc := s.pc[curr := Out])
      else s.(pc := s.pc[curr := Out], buf := s.buf[1..], read := s.read + [s.buf[0]])
    case Other(o) => s.(sys := Step(s.sys, orig, o))
  }

  // ----- counting threads inside getc -----

  /** How many threads of q are somewhere inside getc. */
  function Inside<T(==)>(q: seq<T>, pc: map<T, Pc>): (n: nat)
    ensures n <= |q|
  {
    if q == [] then 0 else (if Get(pc, q[0], Out) != Out then 1 else 0) + Inside(q[1..], pc)
  }

  lemma {:induction false} InsideConcat<T>(q: seq<T>, r: seq<T>, pc: map<T, Pc>)
    ensures Inside(q + r, pc) == Inside(q, pc) + Inside(r, pc)
  {
    if q == [] {
      assert q + r == r;
    } else {
      assert (q + r)[1..] == q[1..] + r;
      InsideConcat(q[1..], r, pc);
    }
  }

  lemma {:induction false} InsideWithout<T>(q: seq<T>, x: T, pc: map<T, Pc>)
    requires x in q
    ensures Inside(Without(q, x), pc) == Inside(q, pc) - if Get(pc, x, Out) != Out then 1 else 0
  {
    if q[0] != x {
      InsideWithout(q[1..], x, pc);
      assert Without(q, x) == [q[0]] + Without(q[1..], x);
    }
  }

  lemma {:induction false} InsideUpdate<T>(q: seq<T>, x: T, pc: map<T, Pc>, p: Pc)
    requires Distinct(q)
    ensures Inside(q, pc[x := p]) ==
            Inside(q, pc)
            + if x in q then (if p != Out then 1 else 0) - (if Get(pc, x, Out) != Out then 1 else 0) else 0
  {
    if q != [] {
      InsideUpdate(q[1..], x, pc, p);
    }
  }

  lemma {:induction false} InsideNone<T>(q: seq<T>, pc: map<T, Pc>)
    requires forall t :: t in q ==> Get(pc, t, Out) == Out
    ensures Inside(q, pc) == 0
  {
    if q != [] {
      InsideNone(q[1..], pc);
    }
  }

  // ----- the invariant -----

  /** Only the running thread is between the CLI and the read; the threads of
      keyb.blocked, and of the ready queue once woken, are waiting in getc. */
  ghost predicate PcOk<T>(s: Kbd<T>)
    requires |s.sys.procs.waits| > 0
  {
    var p := s.sys.procs;
    && (forall t :: t in s.pc && (s.pc[t] == Testing || s.pc[t] == Reading) ==>
          t == p.curr && !s.sys.window && t in p.ready.q)
    && (forall t :: t in s.pc && s.pc[t] == Waiting ==> t in p.waits[0] || t in p.ready.q)
    && (forall t :: t in p.waits[0] ==> Get(s.pc, t, Out) == Waiting)
    && (forall w, t :: 0 < w < |p.waits| && t in p.waits[w] ==> Get(s.pc, t, Out) == Out)
  }

  /** No lost wake-up: while a thread sits in keyb.blocked, every buffered
      character has a thread that is on its way to read it. */
  ghost predicate NoneLost<T>(s: Kbd<T>)
    requires |s.sys.procs.waits| > 0
  {
    s.sys.procs.waits[0] != [] ==> |s.buf| <= Inside(s.sys.procs.ready.q, s.pc)
  }

  ghost predicate KbdOk<T>(s: Kbd<T>, orig: T) {
    && SystemOk(s.sys, orig) && |s.sys.procs.waits| > 0
    && PcOk(s) && NoneLost(s)
    && (Get(s.pc, s.sys.procs.curr, Out) == Reading ==> s.buf != [])
    && |s.buf| <= CAPACITY
    && s.accepted == s.read + s.buf
    && Get(s.pc, orig, Out) == Out
  }

  // ----- each step keeps it -----

  lemma CurrentIsReady<T>(s: Kbd<T>, orig: T)
    requires KbdOk(s, orig) && !s.sys.window && s.sys.procs.curr != orig
    ensures s.sys.procs.curr in s.sys.procs.ready.q && Distinct(s.sys.procs.ready.q)
    ensures forall w :: 0 <= w < |s.sys.procs.waits| ==> s.sys.procs.curr !in s.sys.procs.waits[w]
  {
  }

  /** A wake-up moves the first waiting thread to the end of the ready queue. */
  lemma WakePc<T>(s: Kbd<T>, orig: T)
    requires KbdOk(s, orig) && s.sys.procs.waits[0] != []
    ensures PcOk(s.(sys := s.sys.(procs := UnblockHead(s.sys.procs, 0))))
  {
    hide Placed, Distinct, NoneLost;
    var p := s.sys.procs;
    var q := p.waits[0];
    assert q == [q[0]] + q[1..];
    assert UnblockHead(p, 0).ready.q == p.ready.q + [q[0]];
  }

  /** The woken thread answers for one more buffered character. */
  lemma WakeCounts<T>(s: Kbd<T>, orig: T)
    requires KbdOk(s, orig) && s.sys.procs.waits[0] != []
    ensures |s.buf| + 1 <= Inside(UnblockHead(s.sys.procs, 0).ready.q, s.pc)
  {
    hide Placed, Distinct;
    var p := s.sys.procs;
    assert p.waits[0][0] in p.waits[0];
    InsideConcat(p.ready.q, [p.waits[0][0]], s.pc);
    assert Inside([p.waits[0][0]], s.pc) == 1;
  }

  lemma KeyPressOk<T>(s: Kbd<T>, orig: T, c: char)
    requires KbdOk(s, orig) && Enabled(s, orig, KeyPress(c))
    ensures KbdOk(Next(s, orig, KeyPress(c)), orig)
  {
    UnblockPlaced(s.sys.procs, orig, 0);
    var p := s.sys.procs;
    if p.waits[0] != [] {
      WakePc(s, orig);
      WakeCounts(s, orig);
    }
    hide Placed, Distinct, PcOk, Inside;
    var r := Next(s, orig, KeyPress(c));
    assert r.sys == s.sys.(procs := UnblockHead(p, 0)) && r.pc == s.pc;
    assert PcOk(r) by {
      SamePc(s.(sys := r.sys), r);
    }
    assert NoneLost(r);
  }

  lemma SamePc<T>(s: Kbd<T>, r: Kbd<T>)
    requires |s.sys.procs.waits| > 0 && PcOk(s) && r.sys == s.sys && r.pc == s.pc
    ensures PcOk(r)
  {
  }

  lemma StartOk<T>(s: Kbd<T>, orig: T, e: KbdEvent<T>)
    requires KbdOk(s, orig) && Enabled(s, orig, e) && (e.StartGetc? || e.Resume?)
    ensures KbdOk(Next(s, orig, e), orig)
  {
    var curr := s.sys.procs.curr;
    CurrentIsReady(s, orig);
    InsideUpdate(s.sys.procs.ready.q, curr, s.pc, Testing);
    hide Placed, Distinct;
    var r := Next(s, orig, e);
    assert PcOk(r);
  }

  lemma TestOk<T>(s: Kbd<T>, orig: T)
    requires KbdOk(s, orig) && Enabled(s, orig, Test)
    ensures KbdOk(Next(s, orig, Test), orig)
  {
    if s.buf == [] {
      TestBlocksOk(s, orig);
    } else {
      var curr := s.sys.procs.curr;
      CurrentIsReady(s, orig);
      InsideUpdate(s.sys.procs.ready.q, curr, s.pc, Reading);
      hide Placed, Distinct;
      assert PcOk(Next(s, orig, Test));
    }
  }

  lemma TestBlocksOk<T>(s: Kbd<T>, orig: T)
    requires KbdOk(s, orig) && Enabled(s, orig, Test) && s.buf == []
    ensures KbdOk(Next(s, orig, Test), orig)
  {
    CurrentIsReady(s, orig);
    BlockPlaced(s.sys.procs, orig, 0);
    WithoutElements(s.sys.procs.ready.q, s.sys.procs.curr);
    hide Placed, Distinct, Without, Inside;
    assert PcOk(Next(s, orig, Test));
  }

  /** The read after the loop always finds a character. */
  lemma ReadOk<T>(s: Kbd<T>, orig: T)
    requires KbdOk(s, orig) && Enabled(s, orig, Read)
    ensures s.buf != [] && Next(s, orig, Read).read == s.read + [s.buf[0]]
    ensures KbdOk(Next(s, orig, Read), orig)
  {
    var curr := s.sys.procs.curr;
    CurrentIsReady(s, orig);
    InsideUpdate(s.sys.procs.ready.q, curr, s.pc, Out);
    hide Placed, Distinct;
    var r := Next(s, orig, Read);
    assert PcOk(r);
    assert s.read + s.buf == (s.read + [s.buf[0]]) + s.buf[1..];
  }

  lemma YieldOk<T>(s: Kbd<T>, orig: T, o: ProcModel.Event<T>)
    requires KbdOk(s, orig) && Enabled(s, orig, Other(o)) && (o.Yielded? || o.BlockEnded?)
    ensures KbdOk(Next(s, orig, Other(o)), orig)
  {
    YieldPlaced(s.sys.procs, orig);
    hide Placed, Distinct, RrNext;
    var r := Next(s, orig, Other(o));
    assert r.sys.procs.ready.q == s.sys.procs.ready.q && r.sys.procs.waits == s.sys.procs.waits;
    assert PcOk(r);
  }

  lemma CreatedOk<T>(s: Kbd<T>, orig: T, t: T)
    requires KbdOk(s, orig) && Enabled(s, orig, Other(Created(t)))
    ensures KbdOk(Next(s, orig, Other(Created(t))), orig)
  {
    CreatePlaced(s.sys.procs, orig, t);
    InsideConcat(s.sys.procs.ready.q, [t], s.pc);
    hide Placed, Distinct;
    assert PcOk(Next(s, orig, Other(Created(t))));
  }

  lemma OtherBlockOk<T>(s: Kbd<T>, orig: T, w: nat)
    requires KbdOk(s, orig) && Enabled(s, orig, Other(BlockBegun(w)))
    ensures KbdOk(Next(s, orig, Other(BlockBegun(w))), orig)
  {
    var curr := s.sys.procs.curr;
    CurrentIsReady(s, orig);
    BlockPlaced(s.sys.procs, orig, w);
    InsideWithout(s.sys.procs.ready.q, curr, s.pc);
    WithoutElements(s.sys.procs.ready.q, curr);
    hide Placed, Distinct, Without;
    assert PcOk(Next(s, orig, Other(BlockBegun(w))));
  }

  lemma ExitOk<T>(s: Kbd<T>, orig: T)
    requires KbdOk(s, orig) && Enabled(s, orig, Other(Exited))
    ensures KbdOk(Next(s, orig, Other(Exited)), orig)
  {
    var curr := s.sys.procs.curr;
    CurrentIsReady(s, orig);
    ExitPlaced(s.sys.procs, orig);
    InsideWithout(s.sys.procs.ready.q, curr, s.pc);
    WithoutElements(s.sys.procs.ready.q, curr);
    hide Placed, Distinct, Without, RrNext;
    assert PcOk(Next(s, orig, Other(Exited)));
  }

  lemma OtherWakeOk<T>(s: Kbd<T>, orig: T, w: nat)
    requires KbdOk(s, orig) && Enabled(s, orig, Other(ProcModel.Woken(w)))
    ensures KbdOk(Next(s, orig, Other(ProcModel.Woken(w))), orig)
  {
    var p := s.sys.procs;
    UnblockPlaced(p, orig, w);
    if p.waits[w] != [] {
      InsideConcat(p.ready.q, [p.waits[w][0]], s.pc);
      InsideNone([p.waits[w][0]], s.pc);
    }
    hide Placed, Distinct;
    assert PcOk(Next(s, orig, Other(ProcModel.Woken(w))));
  }

  lemma OtherWakeAllOk<T>(s: Kbd<T>, orig: T, w: nat)
    requires KbdOk(s, orig) && Enabled(s, orig, Other(AllWoken(w)))
    ensures KbdOk(Next(s, orig, Other(AllWoken(w))), orig)
  {
    var p := s.sys.procs;
    UnblockAllPlaced(p, orig, w);
    UnblockAllCurr(p, w);
    InsideConcat(p.ready.q, p.waits[w], s.pc);
    InsideNone(p.waits[w], s.pc);
    hide Placed, Distinct, UnblockAll;
    assert PcOk(Next(s, orig, Other(AllWoken(w))));
  }

  lemma NextIsOk<T>(s: Kbd<T>, orig: T, e: KbdEvent<T>)
    requires KbdOk(s, orig) && Enabled(s, orig, e)
    ensures KbdOk(Next(s, orig, e), orig)
  {
    hide KbdOk, Next;
    match e
    case KeyPress(c) => KeyPressOk(s, orig, c);
    case StartGetc => StartOk(s, orig, e);
    case Test => TestOk(s, orig);
    case Resume => StartOk(s, orig, e);
    case Read => ReadOk(s, orig);
    case Other(o) =>
      match o
      case Created(t) => CreatedOk(s, orig, t);
      case Yielded => YieldOk(s, orig, o);
      case BlockBegun(w) => OtherBlockOk(s, orig, w);
      case BlockEnded => YieldOk(s, orig, o);
      case Woken(w) => OtherWakeOk(s, orig, w);
      case AllWoken(w) => OtherWakeAllOk(s, orig, w);
      case Exited => ExitOk(s, orig);
  }

  // ----- runs -----

  ghost predicate EnabledRun<T>(s: Kbd<T>, orig: T, es: seq<KbdEvent<T>>)
    requires KbdOk(s, orig)
    decreases |es|
  {
    es == [] ||
    (Enabled(s, orig, es[0]) && (NextIsOk(s, orig, es[0]); EnabledRun(Next(s, orig, es[0]), orig, es[1..])))
  }

  ghost function RunKbd<T>(s: Kbd<T>, orig: T, es: seq<KbdEvent<T>>): (r: Kbd<T>)
    requires KbdOk(s, orig) && EnabledRun(s, orig, es)
    decreases |es|
  {
    if es == [] then s
    else
      NextIsOk(s, orig, es[0]);
      RunKbd(Next(s, orig, es[0]), orig, es[1..])
  }

  function KbdBoot<T>(orig: T, queues: nat): (s: Kbd<T>) {
    Kbd(Boot(orig, queues), map[], [], [], [])
  }

  lemma {:induction false} RunIsOk<T>(s: Kbd<T>, orig: T, es: seq<KbdEvent<T>>)
    requires KbdOk(s, orig) && EnabledRun(s, orig, es)
    ensures KbdOk(RunKbd(s, orig, es), orig)
    decreases |es|
  {
    if es != [] {
      NextIsOk(s, orig, es[0]);
      RunIsOk(Next(s, orig, es[0]), orig, es[1..]);
    }
  }

  /** How many threads have been unblocked and not yet resumed. */
  function Woken<T(==)>(q: seq<T>, pc: map<T, Pc>): (n: nat) {
    if q == [] then 0 else (if Get(pc, q[0], Out) == Waiting then 1 else 0) + Woken(q[1..], pc)
  }

  lemma {:induction false} InsideIsWoken<T>(q: seq<T>, pc: map<T, Pc>)
    requires forall t :: t in q ==> Get(pc, t, Out) == Out || Get(pc, t, Out) == Waiting
    ensures Inside(q, pc) == Woken(q, pc)
  {
    if q != [] {
      InsideIsWoken(q[1..], pc);
    }
  }

  /** No lost wake-up, over every run from boot and any interleaving of key presses
      with the threads' steps: whenever a thread sits in keyb.blocked while the
      running thread is not itself between the test and the read, there are at
      most as many buffered characters as threads woken and not yet resumed. So
      with no such thread left, the buffer is empty. Characters are read in the
      order they were accepted, and none disappears. */
  lemma NoLostWakeup<T>(orig: T, queues: nat, es: seq<KbdEvent<T>>)
    requires queues > 0
    ensures KbdOk(KbdBoot(orig, queues), orig)
    ensures EnabledRun(KbdBoot(orig, queues), orig, es) ==>
              var s := RunKbd(KbdBoot(orig, queues), orig, es);
              var p := s.sys.procs;
              && |p.waits| > 0
              && (p.waits[0] != [] && Get(s.pc, p.curr, Out) != Testing && Get(s.pc, p.curr, Out) != Reading ==>
                    |s.buf| <= Woken(p.ready.q, s.pc))
              && s.accepted == s.read + s.buf
  {
    var s0 := KbdBoot(orig, queues);
    assert SystemOk(s0.sys, orig);
    if EnabledRun(s0, orig, es) {
      RunIsOk(s0, orig, es);
      var s := RunKbd(s0, orig, es);
      if Get(s.pc, s.sys.procs.curr, Out) != Testing && Get(s.pc, s.sys.procs.curr, Out) != Reading {
        InsideIsWoken(s.sys.procs.ready.q, s.pc);
      }
    }
  }
}
