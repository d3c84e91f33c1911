/** What the serial driver guarantees over runs (dev/serial.c), and exactly when: an
    interrupt in the middle of a flush that runs with interrupts on can cost the order
    of the characters or the interrupt that is to come. */
module SerialSystem {
  import opened Wrappers
  import opened RoundRobin
  import opened ProcModel
  import opened CircBuff
  import opened Serial
  import opened SerialSteps

  /** The thread still has a character to write and will come to write it. */
  ghost predicate Owes(p: Pc) {
    InWriter(p) && p.rest != []
  }

  /** The thread has not finished a flush since it may have written. */
  ghost predicate Dirty(p: Pc) {
    p.Writing? || p.Stuck? || p.Flushing?
  }

  /** The flush will leave the UART busy. */
  ghost predicate WillBeBusy(p: Pc) {
    p.Flushing? && (p.i > 0 || p.held.Some?)
  }

  ghost predicate SomeWoken<T>(s: Ser<T>) {
    exists t :: t in s.sys.procs.ready.q && Get(s.pc, t, Out).Waiting?
  }

  /** What has been sent, is being sent and waits to be sent is what was accepted. */
  ghost predicate InOrder(p: Pc, u: Uart, accepted: seq<char>) {
    u.sent + Held(p) + u.ring == accepted
  }

  /** While the driver waits for an interrupt, one is due. */
  ghost predicate DueOk(p: Pc, u: Uart, load: nat) {
    && (u.busy ==> load > 0)
    && (p.Flushing? && p.i > 0 && p.held.None? ==> load > 0)
  }

  /** An idle UART with characters waiting: only while the running writer has not
      flushed yet. */
  ghost predicate IdleOk(p: Pc, u: Uart) {
    u.ring != [] ==> u.busy || Dirty(p)
  }

  /** While a writer is blocked, there is something that will wake it. */
  ghost predicate NoneStranded<T>(s: Ser<T>)
    requires |s.sys.procs.waits| > 0
  {
    s.sys.procs.waits[0] != [] ==>
      s.uart.busy || s.uart.ring != [] || SomeWoken(s) || Owes(Here(s)) || WillBeBusy(Here(s))
  }

  ghost predicate SerOk<T>(s: Ser<T>, orig: T) {
    && SysOk(s, orig)
    && InOrder(Here(s), s.uart, s.accepted)
    && DueOk(Here(s), s.uart, s.load)
    && IdleOk(Here(s), s.uart)
    && NoneStranded(s)
  }

  /** The interrupts that do harm: inside a flush, with a character in hand that is
      overtaken by a different one; or behind the last send, with nothing left to send,
      so that the flush then waits for an interrupt that has come already. */
  ghost predicate Harmful<T>(s: Ser<T>, e: SerEvent<T>) {
    && e.TxEmpty? && Here(s).Flushing?
    && match Here(s).held
       case Some(c) => exists k :: 0 <= k < Min(HW_BUFF_SIZE, |s.uart.ring|) && s.uart.ring[k] != c
       case None => Here(s).i > 0 && s.uart.ring == []
  }

  // ----- harmless steps keep it -----

  /** A woken writer stays woken when another thread's state changes. */
  lemma StillWoken<T>(s: Ser<T>, r: Ser<T>)
    requires forall t :: t in s.sys.procs.ready.q && Get(s.pc, t, Out).Waiting? ==>
               t in r.sys.procs.ready.q && Get(r.pc, t, Out) == Get(s.pc, t, Out)
    ensures SomeWoken(s) ==> SomeWoken(r)
  {
    if SomeWoken(s) {
      var t :| t in s.sys.procs.ready.q && Get(s.pc, t, Out).Waiting?;
      assert t in r.sys.procs.ready.q && Get(r.pc, t, Out).Waiting?;
    }
  }

  /** Waking the head of the queue leaves the queue empty or somebody woken. */
  lemma SomebodyWoken<T>(s: Ser<T>, r: Ser<T>, orig: T)
    requires SysOk(s, orig) && r.sys.procs == UnblockHead(s.sys.procs, 0) && r.pc == s.pc
    ensures s.sys.procs.waits[0] != [] ==> SomeWoken(r)
    ensures s.sys.procs.waits[0] == [] ==> r.sys.procs.waits[0] == []
  {
    var p := s.sys.procs;
    if p.waits[0] != [] {
      assert p.waits[0][0] in p.waits[0] && p.waits[0][0] in r.sys.procs.ready.q;
    }
  }

  lemma SameCharacters(s: seq<char>, c: char, n: nat)
    requires n <= |s| && forall k :: 0 <= k < n ==> s[k] == c
    ensures s[..n] + [c] + s[n..] == [c] + s
  {
  }

  /** A flush in between keeps the order, if it overtakes nothing but the same. */
  lemma FlushInOrder(u: Uart, p: Pc, accepted: seq<char>)
    requires InOrder(p, u, accepted) && !u.busy
    requires p.Flushing? && p.held.Some? ==>
               forall k :: 0 <= k < Min(HW_BUFF_SIZE, |u.ring|) ==> u.ring[k] == p.held.value
    ensures InOrder(p, Flush(u), accepted)
  {
    var n := Min(HW_BUFF_SIZE, |u.ring|);
    Between(u.sent, Held(p), u.ring, n);
  }

  lemma Between(sent: seq<char>, held: seq<char>, ring: seq<char>, n: nat)
    requires n <= |ring| && |held| <= 1
    requires held != [] ==> forall k :: 0 <= k < n ==> ring[k] == held[0]
    ensures (sent + ring[..n]) + held + ring[n..] == sent + held + ring
  {
    if held != [] {
      SameCharacters(ring, held[0], n);
      assert held == [held[0]];
    } else {
      assert ring == ring[..n] + ring[n..];
    }
    assert (sent + ring[..n]) + held + ring[n..] == sent + (ring[..n] + held + ring[n..]);
    assert sent + held + ring == sent + (held + ring);
  }

  /** What a transmit interrupt does to the driver. */
  lemma TxDriver(p: Pc, u: Uart)
    requires !u.busy && (p.Flushing? && p.held.None? && p.i > 0 ==> u.ring != [])
    ensures DueOk(p, Flush(u), Burst(u)) && IdleOk(p, Flush(u))
  {
  }

  lemma TxOk<T>(s: Ser<T>, orig: T)
    requires SerOk(s, orig) && Enabled(s, orig, TxEmpty) && !Harmful(s, TxEmpty)
    ensures SerOk(SerNext(s, orig, TxEmpty), orig)
  {
    hide SysOk, SystemOk, SomeWoken, UnblockHead, Flush, Burst, InOrder, DueOk, IdleOk;
    var r := SerNext(s, orig, TxEmpty);
    var u := s.uart.(busy := false);
    InterruptSys(s, orig, TxEmpty);
    SomebodyWoken(s, r, orig);
    Idled(Here(s), s.uart, s.accepted);
    FlushInOrder(u, Here(s), s.accepted);
    TxDriver(Here(s), u);
  }

  lemma Idled(p: Pc, u: Uart, accepted: seq<char>)
    ensures InOrder(p, u, accepted) ==> InOrder(p, u.(busy := false), accepted)
  {
  }

  lemma OtherInterruptOk<T>(s: Ser<T>, orig: T)
    requires SerOk(s, orig) && Enabled(s, orig, OtherInterrupt)
    ensures SerOk(SerNext(s, orig, OtherInterrupt), orig)
  {
    hide SysOk, SystemOk, SomeWoken, UnblockHead, InOrder, DueOk, IdleOk;
    InterruptSys(s, orig, OtherInterrupt);
    SomebodyWoken(s, SerNext(s, orig, OtherInterrupt), orig);
  }

  /** What SER_write does to the driver. */
  lemma WriteDriver(u: Uart, accepted: seq<char>, load: nat, text: seq<char>)
    requires InOrder(Out, u, accepted) && DueOk(Out, u, load) && |u.ring| <= CAPACITY
    ensures InOrder(Out, Write(u, text), accepted + Accepted(u, text))
    ensures DueOk(Out, Write(u, text), load + Burst(u.(ring := u.ring + Accepted(u, text))))
    ensures IdleOk(Out, Write(u, text))
    ensures u.busy || u.ring != [] ==> Write(u, text).busy || Write(u, text).ring != []
  {
    WriteAccepts(u, text);
    FlushMoves(u.(ring := u.ring + Accepted(u, text)));
    var v := Write(u, text);
    assert u.sent + [] + u.ring == u.sent + u.ring && v.sent + [] + v.ring == v.sent + v.ring;
  }

  lemma SerWriteOk<T>(s: Ser<T>, orig: T, text: seq<char>)
    requires SerOk(s, orig) && Enabled(s, orig, SerWrite(text))
    ensures SerOk(SerNext(s, orig, SerWrite(text)), orig)
  {
    hide SysOk, SystemOk, PcOk, Flush, Write, Burst, SomeWoken, Accepted, InOrder, DueOk, IdleOk;
    var r := SerNext(s, orig, SerWrite(text));
    RingFits(s, orig);
    SerWriteSys(s, orig, text);
    WriteDriver(s.uart, s.accepted, s.load, text);
    StillWoken(s, r);
  }

  /** What the running writer's step does to the driver. */
  lemma WriterFlow<T>(s: Ser<T>, orig: T, e: SerEvent<T>)
    requires SerOk(s, orig) && Enabled(s, orig, e) && (WriterStep(e) || (e.TestFull? && |s.uart.ring| < CAPACITY))
    ensures var r := SerNext(s, orig, e);
      InOrder(Here(r), r.uart, r.accepted) && DueOk(Here(r), r.uart, r.load) && IdleOk(Here(r), r.uart)
    ensures var r := SerNext(s, orig, e);
      (s.uart.busy || s.uart.ring != [] || Owes(Here(s)) || WillBeBusy(Here(s))) ==>
        r.uart.busy || r.uart.ring != [] || Owes(Here(r)) || WillBeBusy(Here(r))
  {
    hide SystemOk, PcOk, NoneStranded;
    var p, u := Here(s), s.uart;
    if e.WriteByte? {
      assert u.sent + Held(p) + (u.ring + [p.rest[0]]) == (u.sent + Held(p) + u.ring) + [p.rest[0]];
    } else if e.FlushRead? {
      assert u.ring == [u.ring[0]] + u.ring[1..];
      assert u.sent + [u.ring[0]] + u.ring[1..] == u.sent + [] + u.ring;
    } else if e.FlushSend? {
      assert (u.sent + [p.held.value]) + [] + u.ring == u.sent + [p.held.value] + u.ring;
    }
  }

  lemma WriterOk<T>(s: Ser<T>, orig: T, e: SerEvent<T>)
    requires SerOk(s, orig) && Enabled(s, orig, e) && (WriterStep(e) || (e.TestFull? && |s.uart.ring| < CAPACITY))
    ensures SerOk(SerNext(s, orig, e), orig)
  {
    hide SysOk, SomeWoken, InOrder, DueOk, IdleOk, WillBeBusy, SystemOk, PcOk;
    var r := SerNext(s, orig, e);
    NextSys(s, orig, e);
    WriterFlow(s, orig, e);
    SameThreads(s, orig, e);
    StillThere(s, orig, e);
  }

  lemma SameThreads<T>(s: Ser<T>, orig: T, e: SerEvent<T>)
    requires SysOk(s, orig) && Enabled(s, orig, e) && (WriterStep(e) || (e.TestFull? && |s.uart.ring| < CAPACITY))
    ensures |s.sys.procs.waits| > 0 && SerNext(s, orig, e).sys == s.sys
  {
  }

  /** A writer that waits to run still does, or it has just resumed and has still to
      write. */
  lemma StillThere<T>(s: Ser<T>, orig: T, e: SerEvent<T>)
    requires SysOk(s, orig) && Enabled(s, orig, e) && (WriterStep(e) || (e.TestFull? && |s.uart.ring| < CAPACITY))
    ensures SomeWoken(s) ==> SomeWoken(SerNext(s, orig, e)) || Owes(Here(SerNext(s, orig, e)))
  {
    var r := SerNext(s, orig, e);
    if e.Resume? {
      Running(s, orig);
    } else {
      StillWoken(s, r);
    }
    hide SysOk, SomeWoken;
  }

  /** The running writer blocks: the ring is full, so the UART is busy. */
  lemma BlockOk<T>(s: Ser<T>, orig: T)
    requires SerOk(s, orig) && Enabled(s, orig, TestFull) && |s.uart.ring| == CAPACITY
    ensures SerOk(SerNext(s, orig, TestFull), orig)
  {
    TestFullSys(s, orig);
    hide SysOk, SystemOk, SomeWoken;
  }

  lemma OutsideFlow<T>(s: Ser<T>, r: Ser<T>, orig: T)
    requires SerOk(s, orig) && SysOk(r, orig)
    requires r.uart == s.uart && r.accepted == s.accepted && r.load == s.load && r.pc == s.pc
    requires r.sys.procs.curr == s.sys.procs.curr || !InWriter(Here(s))
    ensures InOrder(Here(r), r.uart, r.accepted) && DueOk(Here(r), r.uart, r.load) && IdleOk(Here(r), r.uart)
    ensures s.uart.busy || s.uart.ring != [] || Owes(Here(s)) || WillBeBusy(Here(s)) ==>
              r.uart.busy || r.uart.ring != [] || Owes(Here(r)) || WillBeBusy(Here(r))
  {
    hide SystemOk;
    if r.sys.procs.curr != s.sys.procs.curr {
      assert !InWriter(Here(r));
    }
  }

  lemma OtherOk<T>(s: Ser<T>, orig: T, o: ProcModel.Event<T>)
    requires SerOk(s, orig) && Enabled(s, orig, Other(o))
    ensures SerOk(SerNext(s, orig, Other(o)), orig)
  {
    var r := SerNext(s, orig, Other(o));
    NextSys(s, orig, Other(o));
    OtherWaits(s, orig, o);
    OutsideFlow(s, r, orig);
    hide SysOk, SomeWoken, InOrder, DueOk, IdleOk, Owes, WillBeBusy, Step;
  }

  /** The rest of the kernel neither blocks writers nor unwakes them. */
  lemma OtherWaits<T>(s: Ser<T>, orig: T, o: ProcModel.Event<T>)
    requires SerOk(s, orig) && Enabled(s, orig, Other(o))
    ensures var r := SerNext(s, orig, Other(o));
      && |r.sys.procs.waits| == |s.sys.procs.waits| > 0
      && r.sys.procs.waits[0] == s.sys.procs.waits[0]
      && (SomeWoken(s) ==> SomeWoken(r))
      && (r.sys.procs.curr == s.sys.procs.curr || !InWriter(Here(s)))
  {
    var r := SerNext(s, orig, Other(o));
    StepOk(s.sys, orig, o);
    if o.AllWoken? {
      UnblockAllPlaced(s.sys.procs, orig, o.w);
      UnblockAllCurr(s.sys.procs, o.w);
    } else if o.BlockBegun? || o.Exited? {
      CurrentIsReady(s, orig);
      WithoutElements(s.sys.procs.ready.q, s.sys.procs.curr);
      LeaveSys(s, orig, o);
    }
    hide Placed, Distinct, RrNext, Without, UnblockAll, SomeWoken, NoneStranded, InOrder, DueOk, IdleOk;
    StillWoken(s, r);
  }

  lemma RingFits<T>(s: Ser<T>, orig: T)
    requires SerOk(s, orig)
    ensures |s.uart.ring| <= CAPACITY
  {
  }

  lemma NextIsOk<T>(s: Ser<T>, orig: T, e: SerEvent<T>)
    requires SerOk(s, orig) && Enabled(s, orig, e) && !Harmful(s, e)
    ensures SerOk(SerNext(s, orig, e), orig)
  {
    hide SerOk, SerNext, Enabled, Harmful;
    match e
    case TxEmpty => TxOk(s, orig);
    case OtherInterrupt => OtherInterruptOk(s, orig);
    case SerWrite(text) => SerWriteOk(s, orig, text);
    case TestFull =>
      RingFits(s, orig);
      if |s.uart.ring| == CAPACITY {
        BlockOk(s, orig);
      } else {
        WriterOk(s, orig, e);
      }
    case Other(o) => OtherOk(s, orig, o);
    case _ => WriterOk(s, orig, e);
  }
}
