/** Runs of the serial driver: when they are right, a guard that makes them right, and
    runs from boot that are not. */
module SerialRuns {
  import opened Wrappers
  import opened RoundRobin
  import opened ProcModel
  import opened CircBuff
  import opened Serial
  import opened SerialSteps
  import opened SerialSystem

  // ----- what cannot be mended -----

  /** A character was sent that is not the one accepted in its place. */
  ghost predicate Wrong<T>(s: Ser<T>) {
    exists k :: 0 <= k < |s.uart.sent| && k < |s.accepted| && s.uart.sent[k] != s.accepted[k]
  }

  /** The driver waits, or is about to wait, for an interrupt that is not due. */
  ghost predicate Dead<T>(s: Ser<T>) {
    var p := Here(s);
    && s.load == 0
    && if p.Flushing? then p.i > 0 && p.held.None? && s.uart.ring == [] else s.uart.busy
  }

  /** Right so far: what was sent is what was accepted, and more can follow. */
  ghost predicate Right<T>(s: Ser<T>) {
    s.uart.sent <= s.accepted && !Dead(s)
  }

  /** Nothing that was sent is taken back, and nothing that was accepted. */
  lemma Grows<T>(s: Ser<T>, orig: T, e: SerEvent<T>)
    requires SysOk(s, orig) && Enabled(s, orig, e)
    ensures s.uart.sent <= SerNext(s, orig, e).uart.sent && s.accepted <= SerNext(s, orig, e).accepted
  {
    hide SysOk, SystemOk, UnblockHead, Step, BlockOn, Accepted;
  }

  lemma WrongStays<T>(s: Ser<T>, orig: T, e: SerEvent<T>)
    requires SysOk(s, orig) && Enabled(s, orig, e) && Wrong(s)
    ensures Wrong(SerNext(s, orig, e))
  {
    Grows(s, orig, e);
    var r := SerNext(s, orig, e);
    hide SysOk, SerNext, Enabled;
    var k :| 0 <= k < |s.uart.sent| && k < |s.accepted| && s.uart.sent[k] != s.accepted[k];
    assert r.uart.sent[k] == s.uart.sent[k] && r.accepted[k] == s.accepted[k];
  }

  /** Once the interrupt is lost, nothing is ever sent again. */
  lemma DeadStays<T>(s: Ser<T>, orig: T, e: SerEvent<T>)
    requires SysOk(s, orig) && Enabled(s, orig, e) && Dead(s)
    ensures Dead(SerNext(s, orig, e)) && SerNext(s, orig, e).uart.sent == s.uart.sent
  {
    if e.Other? || e.TxEmpty? || e.OtherInterrupt? || e.SerWrite? {
      StillOutside(s, orig, e);
    }
    hide SysOk, SystemOk, UnblockHead, Step, BlockOn, Accepted;
  }

  /** Only the running thread flushes. */
  lemma StillOutside<T>(s: Ser<T>, orig: T, e: SerEvent<T>)
    requires SysOk(s, orig) && Enabled(s, orig, e) && (e.Other? || e.TxEmpty? || e.OtherInterrupt? || e.SerWrite?)
    ensures Here(SerNext(s, orig, e)).Flushing? <==> Here(s).Flushing?
    ensures Here(s).Flushing? ==> Here(SerNext(s, orig, e)) == Here(s)
  {
    NextSys(s, orig, e);
    var r := SerNext(s, orig, e);
    if e.Other? && e.e.AllWoken? {
      UnblockAllCurr(s.sys.procs, e.e.w);
    }
    hide SystemOk, RrNext, UnblockAll, Flush, Write, CountOk, Admit, Remove;
    assert r.pc == s.pc;
    if r.sys.procs.curr != s.sys.procs.curr {
      assert !Here(s).Flushing?;
      assert !InWriter(Here(r));
    }
  }

  /** A harmful interrupt does its harm at once. */
  lemma HarmDone<T>(s: Ser<T>, orig: T, e: SerEvent<T>)
    requires SerOk(s, orig) && Enabled(s, orig, e) && Harmful(s, e)
    ensures Wrong(SerNext(s, orig, e)) || Dead(SerNext(s, orig, e))
  {
    var r, p, u := SerNext(s, orig, e), Here(s), s.uart;
    InterruptSys(s, orig, e);
    if p.held.Some? {
      var n := Min(HW_BUFF_SIZE, |u.ring|);
      var k :| 0 <= k < n && u.ring[k] != p.held.value;
      Overtaken(u.sent, p.held.value, u.ring, n, k);
    }
    hide SysOk, UnblockHead;
  }

  /** Characters sent before the one in hand: the first that differs is out of place. */
  lemma {:induction false} Overtaken(sent: seq<char>, c: char, ring: seq<char>, n: nat, k: nat)
    requires k < n <= |ring| && ring[k] != c
    ensures exists j ::
      0 <= j < |sent + ring[..n]| && j < |sent + [c] + ring| && (sent + ring[..n])[j] != (sent + [c] + ring)[j]
    decreases k
  {
    if k == 0 || ring[k - 1] == c {
      assert (sent + ring[..n])[|sent| + k] == ring[k];
      assert (sent + [c] + ring)[|sent| + k] == c;
    } else {
      Overtaken(sent, c, ring, n, k - 1);
    }
  }

  lemma NotRight<T>(s: Ser<T>)
    requires Wrong(s) || Dead(s)
    ensures !Right(s)
  {
  }

  lemma OkIsRight<T>(s: Ser<T>, orig: T)
    requires SerOk(s, orig)
    ensures Right(s)
  {
  }

  // ----- runs -----

  /** No interrupt of the run does harm. */
  ghost predicate HarmlessRun<T>(s: Ser<T>, orig: T, es: seq<SerEvent<T>>)
    requires SysOk(s, orig) && EnabledRun(s, orig, es)
    decreases |es|
  {
    es == [] || (!Harmful(s, es[0]) &&
                 (NextSys(s, orig, es[0]); HarmlessRun(SerNext(s, orig, es[0]), orig, es[1..])))
  }

  lemma {:induction false} RunIsOk<T>(s: Ser<T>, orig: T, es: seq<SerEvent<T>>)
    requires SerOk(s, orig) && EnabledRun(s, orig, es) && HarmlessRun(s, orig, es)
    ensures SerOk(RunSer(s, orig, es), orig)
    decreases |es|
  {
    hide SerOk, Enabled, SerNext, Harmful;
    SerIsSys(s, orig);
    if es != [] {
      NextIsOk(s, orig, es[0]);
      RunIsOk(SerNext(s, orig, es[0]), orig, es[1..]);
    }
  }

  lemma SerIsSys<T>(s: Ser<T>, orig: T)
    requires SerOk(s, orig)
    ensures SysOk(s, orig)
  {
  }

  lemma {:induction false} StaysBroken<T>(s: Ser<T>, orig: T, es: seq<SerEvent<T>>)
    requires SysOk(s, orig) && EnabledRun(s, orig, es) && (Wrong(s) || Dead(s))
    ensures Wrong(RunSer(s, orig, es)) || Dead(RunSer(s, orig, es))
    ensures Dead(s) ==> RunSer(s, orig, es).uart.sent == s.uart.sent
    decreases |es|
  {
    hide SysOk, Enabled, SerNext, Wrong, Dead;
    if es != [] {
      var r := SerNext(s, orig, es[0]);
      NextSys(s, orig, es[0]);
      if Dead(s) {
        DeadStays(s, orig, es[0]);
      } else {
        WrongStays(s, orig, es[0]);
      }
      StaysBroken(r, orig, es[1..]);
    }
  }

  lemma {:induction false} RightIff<T>(s: Ser<T>, orig: T, es: seq<SerEvent<T>>)
    requires SerOk(s, orig) && SysOk(s, orig) && EnabledRun(s, orig, es)
    ensures Right(RunSer(s, orig, es)) <==> HarmlessRun(s, orig, es)
    decreases |es|
  {
    hide SerOk, SysOk, Enabled, SerNext, Wrong, Dead, Right, Harmful;
    if es == [] {
      OkIsRight(s, orig);
    } else {
      var r := SerNext(s, orig, es[0]);
      NextSys(s, orig, es[0]);
      if Harmful(s, es[0]) {
        HarmDone(s, orig, es[0]);
        StaysBroken(r, orig, es[1..]);
        NotRight(RunSer(r, orig, es[1..]));
      } else {
        NextIsOk(s, orig, es[0]);
        RightIff(r, orig, es[1..]);
      }
    }
  }

  lemma BootOk<T>(orig: T, queues: nat)
    requires queues > 0
    ensures SysOk(SerBoot(orig, queues), orig) && SerOk(SerBoot(orig, queues), orig)
  {
    BootSys(orig, queues);
  }

  /** Over every run from boot, for any number of writers and interrupts: the sent
      characters are the accepted ones in order and the driver can go on, exactly if
      no interrupt of the run does harm. */
  lemma RunRightIff<T>(orig: T, queues: nat, es: seq<SerEvent<T>>)
    requires queues > 0
    ensures SysOk(SerBoot(orig, queues), orig)
    ensures EnabledRun(SerBoot(orig, queues), orig, es) ==>
      (Right(RunSer(SerBoot(orig, queues), orig, es)) <==> HarmlessRun(SerBoot(orig, queues), orig, es))
  {
    BootOk(orig, queues);
    var s := SerBoot(orig, queues);
    if EnabledRun(s, orig, es) {
      hide SerOk, SysOk, EnabledRun, RunSer, HarmlessRun, Right;
      RightIff(s, orig, es);
    }
  }

  /** And then, whenever the running thread is not inside SER_writeb, what has been
      sent, followed by the ring, is what has been accepted; a non-empty ring means
      that an interrupt is due, and a blocked writer that one is due or that a woken
      writer has yet to run. */
  lemma NoStrandedWriter<T>(orig: T, queues: nat, es: seq<SerEvent<T>>)
    requires queues > 0
    ensures SysOk(SerBoot(orig, queues), orig)
    ensures EnabledRun(SerBoot(orig, queues), orig, es) && HarmlessRun(SerBoot(orig, queues), orig, es) ==>
              var s := RunSer(SerBoot(orig, queues), orig, es);
              && |s.sys.procs.waits| > 0
              && s.uart.sent + Held(Here(s)) + s.uart.ring == s.accepted && |s.uart.ring| <= CAPACITY
              && (!InWriter(Here(s)) ==>
                    && (s.uart.ring != [] ==> s.uart.busy && s.load > 0)
                    && (s.sys.procs.waits[0] != [] ==> (s.uart.busy && s.load > 0) || SomeWoken(s)))
  {
    BootOk(orig, queues);
    var s := SerBoot(orig, queues);
    if EnabledRun(s, orig, es) && HarmlessRun(s, orig, es) {
      hide EnabledRun, RunSer, HarmlessRun;
      RunIsOk(s, orig, es);
    }
  }

  // ----- runs without interrupts inside a flush -----

  /** Between two interrupts at most one burst is sent. */
  ghost predicate LoadOk(p: Pc, u: Uart, load: nat) {
    && load <= HW_BUFF_SIZE
    && (if p.Flushing? then load == p.i && !u.busy else u.busy <==> load > 0)
  }

  ghost predicate QuietRun<T>(s: Ser<T>, orig: T, es: seq<SerEvent<T>>)
    requires SysOk(s, orig) && EnabledRun(s, orig, es)
    decreases |es|
  {
    es == [] || (!(es[0].TxEmpty? && Here(s).Flushing?) &&
                 (NextSys(s, orig, es[0]); QuietRun(SerNext(s, orig, es[0]), orig, es[1..])))
  }

  lemma LoadStep<T>(s: Ser<T>, orig: T, e: SerEvent<T>)
    requires SysOk(s, orig) && Enabled(s, orig, e) && LoadOk(Here(s), s.uart, s.load)
    requires !(e.TxEmpty? && Here(s).Flushing?)
    ensures LoadOk(Here(SerNext(s, orig, e)), SerNext(s, orig, e).uart, SerNext(s, orig, e).load)
  {
    if Here(s) != Out {
      Running(s, orig);
    }
    if e.Other? || e.TxEmpty? || e.OtherInterrupt? || e.SerWrite? {
      StillOutside(s, orig, e);
    }
    hide SysOk, SystemOk, UnblockHead, Step, BlockOn, Accepted;
  }

  /** In such a run no interrupt does harm, and at most 14 characters go out between
      two interrupts. */
  lemma {:induction false} QuietIsHarmless<T>(s: Ser<T>, orig: T, es: seq<SerEvent<T>>)
    requires SysOk(s, orig) && EnabledRun(s, orig, es) && QuietRun(s, orig, es) && LoadOk(Here(s), s.uart, s.load)
    ensures HarmlessRun(s, orig, es) && RunSer(s, orig, es).load <= HW_BUFF_SIZE
    decreases |es|
  {
    hide SysOk, Enabled, SerNext;
    if es != [] {
      NextSys(s, orig, es[0]);
      LoadStep(s, orig, es[0]);
      QuietIsHarmless(SerNext(s, orig, es[0]), orig, es[1..]);
    }
  }

  // ----- a guard for callers -----

  /** Every SER_writeb of the run finds room for its whole text. */
  ghost predicate FittingRun<T>(s: Ser<T>, orig: T, es: seq<SerEvent<T>>)
    requires SysOk(s, orig) && EnabledRun(s, orig, es)
    decreases |es|
  {
    es == [] ||
    ((es[0].StartWriteb? ==> |s.uart.ring| + |es[0].text| <= CAPACITY) &&
     (NextSys(s, orig, es[0]); FittingRun(SerNext(s, orig, es[0]), orig, es[1..])))
  }

  /** No thread waits, and the running writer has room and interrupts off. */
  ghost predicate Fits<T>(s: Ser<T>) {
    && (forall t :: t in s.pc && s.pc[t] != Out ==> t == s.sys.procs.curr)
    && match Here(s)
       case Out => true
       case Writing(rest, ints) => !ints && |s.uart.ring| + |rest| <= CAPACITY
       case Flushing(rest, _, _, ints) => !ints && rest == []
       case _ => false
  }

  lemma FitsStep<T>(s: Ser<T>, orig: T, e: SerEvent<T>)
    requires SysOk(s, orig) && Enabled(s, orig, e) && Fits(s)
    requires e.StartWriteb? ==> |s.uart.ring| + |e.text| <= CAPACITY
    ensures Fits(SerNext(s, orig, e)) && !(e.TxEmpty? && Here(s).Flushing?)
  {
    if e.Other? && e.e.AllWoken? {
      UnblockAllCurr(s.sys.procs, e.e.w);
    }
    if Here(s) != Out {
      Running(s, orig);
    }
    hide SystemOk, PcOk, RrNext, UnblockAll, Flush, Write, CountOk, Admit, Remove;
  }

  /** A text that fits into what is free of the ring never waits, so its flush runs
      with interrupts off: if all do, the run is quiet. */
  lemma {:induction false} FittingIsQuiet<T>(s: Ser<T>, orig: T, es: seq<SerEvent<T>>)
    requires SysOk(s, orig) && EnabledRun(s, orig, es) && FittingRun(s, orig, es) && Fits(s)
    ensures QuietRun(s, orig, es)
    decreases |es|
  {
    hide SysOk, Enabled, SerNext, Fits;
    if es != [] {
      NextSys(s, orig, es[0]);
      FitsStep(s, orig, es[0]);
      FittingIsQuiet(SerNext(s, orig, es[0]), orig, es[1..]);
    }
  }

  /** So runs from boot in which every SER_writeb finds room are right, and send at most
      one burst between two interrupts. */
  lemma FittingRunIsRight<T>(orig: T, queues: nat, es: seq<SerEvent<T>>)
    requires queues > 0
    ensures SysOk(SerBoot(orig, queues), orig)
    ensures EnabledRun(SerBoot(orig, queues), orig, es) && FittingRun(SerBoot(orig, queues), orig, es) ==>
      HarmlessRun(SerBoot(orig, queues), orig, es) && RunSer(SerBoot(orig, queues), orig, es).load <= HW_BUFF_SIZE
  {
    BootOk(orig, queues);
    var s := SerBoot(orig, queues);
    if EnabledRun(s, orig, es) && FittingRun(s, orig, es) {
      hide EnabledRun, FittingRun, HarmlessRun, QuietRun, RunSer, SysOk;
      FittingIsQuiet(s, orig, es);
      QuietIsHarmless(s, orig, es);
    }
  }
}
