/** Blocking writers and the serial interrupt (dev/serial.c) as a system of steps over
    ProcModel. Wait queue 0 is the driver's `blocked`. A step is what nothing can come
    between; where SER_writeb runs with interrupts on, its flush is made of reads, sends
    and an end. */
module SerialSteps {
  import opened Wrappers
  import opened RoundRobin
  import opened ProcModel
  import opened CircBuff
  import opened Serial

  /** Where a thread stands in SER_writeb, with the characters it still has to
      write: outside; at the head of its loop, interrupts off or (after a wait) on;
      after a failed write; in init_hw_write, with the number of characters sent and
      the one that is read and not yet sent; about to test for a full ring, interrupts
      off; blocked, or woken and not yet resumed. */
  datatype Pc =
    | Out
    | Writing(rest: seq<char>, ints: bool)
    | Stuck(rest: seq<char>, ints: bool)
    | Flushing(rest: seq<char>, i: nat, held: Option<char>, ints: bool)
    | Testing(rest: seq<char>)
    | Waiting(rest: seq<char>)

  /** `load` is the number of characters sent to the UART since it last ran empty. It
      raises its interrupt when it runs empty, so one is due while there is a load. */
  datatype Ser<T> = Ser(sys: System<T>, pc: map<T, Pc>, uart: Uart, load: nat, accepted: seq<char>)

  datatype SerEvent<T> =
    | TxEmpty
    | OtherInterrupt
    | SerWrite(text: seq<char>)
    | StartWriteb(text: seq<char>)
    | WriteByte
    | FlushBegin
    | FlushRead
    | FlushSend
    | FlushEnd
    | TestFull
    | Resume
    | Other(e: ProcModel.Event<T>)

  /** Interrupts are off from the CLI of SER_writeb to its first wait, and while a
      writer tests the ring. */
  predicate IntsOn(p: Pc) {
    match p
    case Writing(_, ints) => ints
    case Stuck(_, ints) => ints
    case Flushing(_, _, _, ints) => ints
    case Testing(_) => false
    case _ => true
  }

  /** The running thread's place. */
  function Here<T>(s: Ser<T>): (p: Pc) {
    Get(s.pc, s.sys.procs.curr, Out)
  }

  /** Behind the flush: the test for a full ring, or the end of SER_writeb. */
  function AfterFlush(rest: seq<char>): (p: Pc) {
    if rest == [] then Out else Testing(rest)
  }

  /** How many characters a flush sends. */
  function Burst(u: Uart): (n: nat)
    ensures |Flush(u).sent| == |u.sent| + n
  {
    if u.busy then 0 else Min(HW_BUFF_SIZE, |u.ring|)
  }

  ghost predicate Enabled<T>(s: Ser<T>, orig: T, e: SerEvent<T>) {
    var curr, p := s.sys.procs.curr, Here(s);
    match e
    case TxEmpty => IntsOn(p) && s.load > 0
    case OtherInterrupt => IntsOn(p)
    case SerWrite(_) => !s.sys.window && p == Out
    case StartWriteb(_) => !s.sys.window && curr != orig && p == Out
    case WriteByte => !s.sys.window && p.Writing? && p.rest != []
    case FlushBegin => !s.sys.window && (p.Stuck? || (p.Writing? && p.rest == []))
    case FlushRead => !s.sys.window && p.Flushing? && p.held.None? && p.i < HW_BUFF_SIZE && s.uart.ring != []
    case FlushSend => !s.sys.window && p.Flushing? && p.held.Some?
    case FlushEnd =>
      !s.sys.window && p.Flushing? && p.held.None? && (p.i >= HW_BUFF_SIZE || s.uart.ring == [])
    case TestFull => !s.sys.window && p.Testing?
    case Resume => !s.sys.window && p.Waiting?
    case Other(o) =>
      && Legal(s.sys, orig, o)
      && (match o
          case BlockEnded => true
          case BlockBegun(w) => w > 0 && p == Out
          case Woken(w) => w > 0 && IntsOn(p)
          case AllWoken(w) => w > 0 && IntsOn(p)
          case Created(t) => Get(s.pc, t, Out) == Out && p == Out
          case _ => p == Out)
  }

  /** The running writer is at p, with this state of the driver. */
  function At<T(==)>(s: Ser<T>, p: Pc, u: Uart, load: nat, accepted: seq<char>): (r: Ser<T>) {
    s.(pc := s.pc[s.sys.procs.curr := p], uart := u, load := load, accepted := accepted)
  }

  ghost function SerNext<T>(s: Ser<T>, orig: T, e: SerEvent<T>): (r: Ser<T>)
    requires SysOk(s, orig) && Enabled(s, orig, e)
  {
    var p, u := Here(s), s.uart;
    match e
    case TxEmpty =>
      s.(uart := Flush(u.(busy := false)), load := Burst(u.(busy := false)),
         sys := s.sys.(procs := UnblockHead(s.sys.procs, 0)))
    case OtherInterrupt => s.(sys := s.sys.(procs := UnblockHead(s.sys.procs, 0)))
    case SerWrite(text) =>
      s.(uart := Write(u, text), load := s.load + Burst(u.(ring := u.ring + Accepted(u, text))),
         accepted := s.accepted + Accepted(u, text))
    case StartWriteb(text) => At(s, Writing(text, false), u, s.load, s.accepted)
    case WriteByte =>
      if |u.ring| < CAPACITY then
        At(s, Writing(p.rest[1..], p.ints), u.(ring := u.ring + [p.rest[0]]), s.load, s.accepted + [p.rest[0]])
      else At(s, Stuck(p.rest, p.ints), u, s.load, s.accepted)
    case FlushBegin =>
      At(s, if u.busy then AfterFlush(p.rest) else Flushing(p.rest, 0, None, p.ints), u, s.load, s.accepted)
    case FlushRead => At(s, p.(held := Some(u.ring[0])), u.(ring := u.ring[1..]), s.load, s.accepted)
    case FlushSend => At(s, p.(held := None, i := p.i + 1), u.(sent := u.sent + [p.held.value]), s.load + 1, s.accepted)
    case FlushEnd => At(s, AfterFlush(p.rest), u.(busy := u.busy || p.i > 0), s.load, s.accepted)
    case TestFull =>
      if |u.ring| == CAPACITY then
        s.(sys := System(BlockOn(s.sys.procs, 0), true), pc := s.pc[s.sys.procs.curr := Waiting(p.rest)])
      else At(s, Writing(p.rest, true), u, s.load, s.accepted)
    case Resume => At(s, Testing(p.rest), u, s.load, s.accepted)
    case Other(o) => s.(sys := Step(s.sys, orig, o))
  }

  // ----- what every step keeps -----

  ghost predicate InWriter(p: Pc) {
    p.Writing? || p.Stuck? || p.Flushing? || p.Testing?
  }

  predicate Shape(p: Pc) {
    && (p.Stuck? || p.Testing? || p.Waiting? ==> p.rest != [])
    && (p.Flushing? ==> p.i <= HW_BUFF_SIZE && (p.held.Some? ==> p.i < HW_BUFF_SIZE))
  }

  ghost predicate PcOk<T>(s: Ser<T>)
    requires |s.sys.procs.waits| > 0
  {
    var p := s.sys.procs;
    && (forall t :: t in s.pc && InWriter(s.pc[t]) ==> t == p.curr && !s.sys.window && t in p.ready.q)
    && (forall t :: t in s.pc && s.pc[t].Waiting? ==> t in p.waits[0] || t in p.ready.q)
    && (forall t :: t in s.pc ==> Shape(s.pc[t]))
    && (forall t :: t in p.waits[0] ==> Get(s.pc, t, Out).Waiting?)
    && (forall w, t :: 0 < w < |p.waits| && t in p.waits[w] ==> Get(s.pc, t, Out) == Out)
  }

  /** The character that a flush has read and not yet sent. */
  function Held(p: Pc): (c: seq<char>) {
    if p.Flushing? && p.held.Some? then [p.held.value] else []
  }

  /** No character is lost or made up, whatever their order. */
  ghost predicate CountOk(p: Pc, u: Uart, accepted: seq<char>) {
    |u.sent| + |Held(p)| + |u.ring| == |accepted| && |u.ring| <= CAPACITY
  }

  ghost predicate SysOk<T>(s: Ser<T>, orig: T) {
    && SystemOk(s.sys, orig) && |s.sys.procs.waits| > 0 && PcOk(s)
    && Get(s.pc, orig, Out) == Out
    && CountOk(Here(s), s.uart, s.accepted)
  }

  lemma CurrentIsReady<T>(s: Ser<T>, orig: T)
    requires SysOk(s, orig) && !s.sys.window && s.sys.procs.curr != orig
    ensures s.sys.procs.curr in s.sys.procs.ready.q
    ensures forall w :: 0 <= w < |s.sys.procs.waits| ==> s.sys.procs.curr !in s.sys.procs.waits[w]
  {
  }

  /** The running writer moves to another place, and the driver's state with it. */
  lemma Moves<T>(s: Ser<T>, orig: T, p: Pc, u: Uart, load: nat, accepted: seq<char>)
    requires SysOk(s, orig) && !s.sys.window && s.sys.procs.curr != orig
    requires !p.Waiting? && Shape(p) && CountOk(p, u, accepted)
    ensures SysOk(At(s, p, u, load, accepted), orig) && Here(At(s, p, u, load, accepted)) == p
  {
    CurrentIsReady(s, orig);
    hide Placed, Distinct, Shape;
    assert PcOk(At(s, p, u, load, accepted));
  }

  lemma Running<T>(s: Ser<T>, orig: T)
    requires SysOk(s, orig) && Here(s) != Out
    ensures s.sys.procs.curr != orig && Shape(Here(s)) && (InWriter(Here(s)) ==> !s.sys.window)
  {
  }

  /** Waking the first blocked writer, whatever the interrupt did to the UART before. */
  lemma WakeSys<T>(s: Ser<T>, orig: T, u: Uart, load: nat)
    requires SysOk(s, orig) && CountOk(Here(s), u, s.accepted)
    ensures var r := s.(uart := u, load := load, sys := s.sys.(procs := UnblockHead(s.sys.procs, 0)));
      SysOk(r, orig) && Here(r) == Here(s) && r.sys.procs.curr == s.sys.procs.curr
  {
    UnblockPlaced(s.sys.procs, orig, 0);
    var p := s.sys.procs;
    var r := s.(uart := u, load := load, sys := s.sys.(procs := UnblockHead(p, 0)));
    if p.waits[0] != [] {
      assert p.waits[0][0] in p.waits[0] && p.waits[0][0] in r.sys.procs.ready.q;
    }
    hide Placed, Distinct, Shape;
    assert PcOk(r);
  }

  lemma FlushCounts(u: Uart)
    ensures |Flush(u).ring| <= |u.ring| && |Flush(u).sent| + |Flush(u).ring| == |u.sent| + |u.ring|
  {
  }

  lemma InterruptSys<T>(s: Ser<T>, orig: T, e: SerEvent<T>)
    requires SysOk(s, orig) && Enabled(s, orig, e) && (e.TxEmpty? || e.OtherInterrupt?)
    ensures SysOk(SerNext(s, orig, e), orig) && Here(SerNext(s, orig, e)) == Here(s)
  {
    FlushCounts(s.uart.(busy := false));
    hide SystemOk, UnblockHead, PcOk, Flush, Burst;
    WakeSys(s, orig, SerNext(s, orig, e).uart, SerNext(s, orig, e).load);
  }

  lemma SerWriteSys<T>(s: Ser<T>, orig: T, text: seq<char>)
    requires SysOk(s, orig) && Enabled(s, orig, SerWrite(text))
    ensures SysOk(SerNext(s, orig, SerWrite(text)), orig)
  {
    FlushCounts(s.uart.(ring := s.uart.ring + Accepted(s.uart, text)));
    AcceptedLength(s.uart, text);
    hide SystemOk, Flush, Accepted;
    assert PcOk(SerNext(s, orig, SerWrite(text)));
  }

  /** The steps of the running writer, its blocking excepted. */
  predicate WriterStep<T>(e: SerEvent<T>) {
    || e.StartWriteb? || e.WriteByte? || e.FlushBegin? || e.FlushRead? || e.FlushSend? || e.FlushEnd? || e.Resume?
  }

  lemma WriterSys<T>(s: Ser<T>, orig: T, e: SerEvent<T>)
    requires SysOk(s, orig) && Enabled(s, orig, e) && WriterStep(e)
    ensures SysOk(SerNext(s, orig, e), orig)
  {
    if Here(s) != Out {
      Running(s, orig);
    }
    var r := SerNext(s, orig, e);
    hide SystemOk, PcOk;
    Moves(s, orig, r.pc[s.sys.procs.curr], r.uart, r.load, r.accepted);
  }

  lemma TestFullSys<T>(s: Ser<T>, orig: T)
    requires SysOk(s, orig) && Enabled(s, orig, TestFull)
    ensures SysOk(SerNext(s, orig, TestFull), orig)
  {
    Running(s, orig);
    CurrentIsReady(s, orig);
    var curr := s.sys.procs.curr;
    var r := SerNext(s, orig, TestFull);
    if |s.uart.ring| == CAPACITY {
      BlockPlaced(s.sys.procs, orig, 0);
      WithoutElements(s.sys.procs.ready.q, curr);
      hide Placed, Distinct, Without;
      assert PcOk(r);
    } else {
      hide SystemOk, PcOk;
      Moves(s, orig, r.pc[curr], r.uart, r.load, r.accepted);
    }
  }

  /** Once the running thread is outside, or still runs, the count goes on. */
  lemma SameCount<T>(s: Ser<T>, r: Ser<T>)
    requires |s.sys.procs.waits| > 0 && |r.sys.procs.waits| > 0 && PcOk(r)
    requires r.uart == s.uart && r.accepted == s.accepted && r.pc == s.pc
    requires r.sys.procs.curr == s.sys.procs.curr || !InWriter(Here(s))
    requires CountOk(Here(s), s.uart, s.accepted)
    requires !InWriter(Here(s)) ==> forall t :: t in s.pc ==> !InWriter(s.pc[t])
    ensures CountOk(Here(r), r.uart, r.accepted)
  {
  }

  lemma OtherSys<T>(s: Ser<T>, orig: T, o: ProcModel.Event<T>)
    requires SysOk(s, orig) && Enabled(s, orig, Other(o))
    requires o.Created? || o.Woken? || o.Yielded? || o.BlockEnded?
    ensures SysOk(SerNext(s, orig, Other(o)), orig)
  {
    var r := SerNext(s, orig, Other(o));
    StepOk(s.sys, orig, o);
    hide Placed, Distinct, RrNext, CountOk;
    if o.Created? {
      assert PcOk(r);
    } else if o.Woken? {
      assert PcOk(r);
    } else {
      assert PcOk(r);
    }
    SameCount(s, r);
  }

  lemma LeaveSys<T>(s: Ser<T>, orig: T, o: ProcModel.Event<T>)
    requires SysOk(s, orig) && Enabled(s, orig, Other(o)) && (o.BlockBegun? || o.Exited?)
    ensures SysOk(SerNext(s, orig, Other(o)), orig)
    ensures SerNext(s, orig, Other(o)).sys.procs.waits[0] == s.sys.procs.waits[0]
  {
    StepOk(s.sys, orig, o);
    CurrentIsReady(s, orig);
    var r := SerNext(s, orig, Other(o));
    WithoutElements(s.sys.procs.ready.q, s.sys.procs.curr);
    hide Placed, Distinct, RrNext, Without, CountOk;
    assert PcOk(r);
    SameCount(s, r);
  }

  lemma AllWokenSys<T>(s: Ser<T>, orig: T, w: nat)
    requires SysOk(s, orig) && Enabled(s, orig, Other(AllWoken(w)))
    ensures SysOk(SerNext(s, orig, Other(AllWoken(w))), orig)
  {
    var r := SerNext(s, orig, Other(AllWoken(w)));
    StepOk(s.sys, orig, AllWoken(w));
    UnblockAllPlaced(s.sys.procs, orig, w);
    UnblockAllCurr(s.sys.procs, w);
    hide Placed, Distinct, UnblockAll, CountOk;
    assert PcOk(r);
    SameCount(s, r);
  }

  lemma NextSys<T>(s: Ser<T>, orig: T, e: SerEvent<T>)
    requires SysOk(s, orig) && Enabled(s, orig, e)
    ensures SysOk(SerNext(s, orig, e), orig)
  {
    hide SysOk, SerNext;
    match e
    case TxEmpty => InterruptSys(s, orig, e);
    case OtherInterrupt => InterruptSys(s, orig, e);
    case SerWrite(text) => SerWriteSys(s, orig, text);
    case TestFull => TestFullSys(s, orig);
    case Other(o) =>
      if o.AllWoken? {
        AllWokenSys(s, orig, o.w);
      } else if o.BlockBegun? || o.Exited? {
        LeaveSys(s, orig, o);
      } else {
        OtherSys(s, orig, o);
      }
    case _ => WriterSys(s, orig, e);
  }

  // ----- runs -----

  ghost predicate EnabledRun<T>(s: Ser<T>, orig: T, es: seq<SerEvent<T>>)
    requires SysOk(s, orig)
    decreases |es|
  {
    es == [] ||
    (Enabled(s, orig, es[0]) && (NextSys(s, orig, es[0]); EnabledRun(SerNext(s, orig, es[0]), orig, es[1..])))
  }

  ghost function RunSer<T>(s: Ser<T>, orig: T, es: seq<SerEvent<T>>): (r: Ser<T>)
    requires SysOk(s, orig) && EnabledRun(s, orig, es)
    decreases |es|
  {
    if es == [] then s
    else
      NextSys(s, orig, es[0]);
      RunSer(SerNext(s, orig, es[0]), orig, es[1..])
  }

  lemma {:induction false} RunSys<T>(s: Ser<T>, orig: T, es: seq<SerEvent<T>>)
    requires SysOk(s, orig) && EnabledRun(s, orig, es)
    ensures SysOk(RunSer(s, orig, es), orig)
    decreases |es|
  {
    if es != [] {
      NextSys(s, orig, es[0]);
      RunSys(SerNext(s, orig, es[0]), orig, es[1..]);
    }
  }

  function SerBoot<T>(orig: T, queues: nat): (s: Ser<T>) {
    Ser(Boot(orig, queues), map[], Uart([], false, []), 0, [])
  }

  lemma BootSys<T>(orig: T, queues: nat)
    requires queues > 0
    ensures SysOk(SerBoot(orig, queues), orig)
  {
  }
}
