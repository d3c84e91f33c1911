/** Runs of the serial driver from boot that go wrong, and that a flush made of steps is
    the driver's flush as long as no interrupt falls into it. */
module SerialFaults {
  import opened Wrappers
  import opened RoundRobin
  import opened ProcModel
  import opened CircBuff
  import opened Serial
  import opened SerialSteps
  import opened SerialSystem
  import opened SerialRuns

  ghost predicate Leads<T>(s: Ser<T>, orig: T, es: seq<SerEvent<T>>, r: Ser<T>) {
    SysOk(s, orig) && EnabledRun(s, orig, es) && RunSer(s, orig, es) == r
  }

  lemma Stays<T>(s: Ser<T>, orig: T)
    requires SysOk(s, orig)
    ensures Leads(s, orig, [], s)
  {
  }

  /** One step in front of a run. */
  lemma Then<T>(s: Ser<T>, orig: T, e: SerEvent<T>, es: seq<SerEvent<T>>, r: Ser<T>)
    requires SysOk(s, orig) && Enabled(s, orig, e) && Leads(SerNext(s, orig, e), orig, es, r)
    ensures Leads(s, orig, [e] + es, r)
  {
    hide SysOk, Enabled, SerNext;
    assert ([e] + es)[1..] == es;
  }

  lemma {:induction false} Chain<T>(s: Ser<T>, orig: T, a: seq<SerEvent<T>>, m: Ser<T>, b: seq<SerEvent<T>>, r: Ser<T>)
    requires Leads(s, orig, a, m) && Leads(m, orig, b, r)
    ensures Leads(s, orig, a + b, r)
    decreases |a|
  {
    hide SysOk, Enabled, SerNext;
    if a == [] {
      assert a + b == b;
    } else {
      NextSys(s, orig, a[0]);
      Chain(SerNext(s, orig, a[0]), orig, a[1..], m, b, r);
      assert [a[0]] + (a[1..] + b) == a + b;
      Then(s, orig, a[0], a[1..] + b, r);
    }
  }

  /** A machine whose one writer is t. */
  ghost predicate SoloOk<T>(sys: System<T>, orig: T, t: T) {
    && SystemOk(sys, orig) && !sys.window && |sys.procs.waits| > 0
    && sys.procs.curr == t != orig && sys.procs.waits[0] == []
  }

  function Solo<T(==)>(sys: System<T>, t: T, p: Pc, u: Uart, load: nat, accepted: seq<char>): (s: Ser<T>) {
    Ser(sys, map[t := p], u, load, accepted)
  }

  lemma SoloSys<T>(sys: System<T>, orig: T, t: T, p: Pc, u: Uart, load: nat, accepted: seq<char>)
    requires SoloOk(sys, orig, t) && Shape(p) && !p.Waiting? && CountOk(p, u, accepted)
    ensures SysOk(Solo(sys, t, p, u, load, accepted), orig)
    ensures Here(Solo(sys, t, p, u, load, accepted)) == p
  {
    hide Distinct;
    assert PcOk(Solo(sys, t, p, u, load, accepted));
  }

  /** A step of the writer from p to q. */
  lemma SoloStep<T>(sys: System<T>, orig: T, t: T, p: Pc, u: Uart, load: nat, accepted: seq<char>, e: SerEvent<T>,
                    q: Pc, u': Uart, load': nat, accepted': seq<char>, es: seq<SerEvent<T>>, r: Ser<T>)
    requires SoloOk(sys, orig, t) && Shape(p) && !p.Waiting? && CountOk(p, u, accepted)
    requires Enabled(Solo(sys, t, p, u, load, accepted), orig, e) && SysOk(Solo(sys, t, p, u, load, accepted), orig)
    requires SerNext(Solo(sys, t, p, u, load, accepted), orig, e) ==
             At(Solo(sys, t, p, u, load, accepted), q, u', load', accepted')
    requires Leads(Solo(sys, t, q, u', load', accepted'), orig, es, r)
    ensures Leads(Solo(sys, t, p, u, load, accepted), orig, [e] + es, r)
  {
    hide SysOk, Enabled, SerNext, SoloOk;
    var s := Solo(sys, t, p, u, load, accepted);
    assert t == sys.procs.curr by {
      assert SoloOk(sys, orig, t);
      SoloIs(sys, orig, t);
    }
    assert map[t := p][t := q] == map[t := q];
    assert At(s, q, u', load', accepted') == Solo(sys, t, q, u', load', accepted');
    Then(s, orig, e, es, r);
  }

  lemma SoloIs<T>(sys: System<T>, orig: T, t: T)
    requires SoloOk(sys, orig, t)
    ensures sys.procs.curr == t
  {
  }

  /** Characters that fit into the ring are written one by one. */
  lemma {:induction false} WriteMany<T>(sys: System<T>, orig: T, t: T, rest: seq<char>, ints: bool, k: nat,
                                        u: Uart, load: nat, accepted: seq<char>) returns (es: seq<SerEvent<T>>)
    requires SoloOk(sys, orig, t) && k <= |rest|
    requires CountOk(Writing(rest, ints), u, accepted) && |u.ring| + k <= CAPACITY
    ensures Leads(Solo(sys, t, Writing(rest, ints), u, load, accepted), orig, es,
                  Solo(sys, t, Writing(rest[k..], ints), u.(ring := u.ring + rest[..k]), load, accepted + rest[..k]))
    decreases k
  {
    var s := Solo(sys, t, Writing(rest, ints), u, load, accepted);
    SoloSys(sys, orig, t, Writing(rest, ints), u, load, accepted);
    hide SysOk, SystemOk, Leads, Distinct;
    if k == 0 {
      es := [];
      Stays(s, orig);
      assert rest[0..] == rest && rest[..0] == [] && accepted + [] == accepted && u.ring + [] == u.ring;
    } else {
      var u', a' := u.(ring := u.ring + [rest[0]]), accepted + [rest[0]];
      es := WriteMany(sys, orig, t, rest[1..], ints, k - 1, u', load, a');
      assert rest[1..][k - 1..] == rest[k..];
      Behind(u.ring, rest, k);
      Behind(accepted, rest, k);
      SoloStep(sys, orig, t, Writing(rest, ints), u, load, accepted, WriteByte, Writing(rest[1..], ints), u', load, a',
               es, Solo(sys, t, Writing(rest[k..], ints), u.(ring := u.ring + rest[..k]), load, accepted + rest[..k]));
      es := [WriteByte] + es;
    }
  }

  lemma Behind(a: seq<char>, rest: seq<char>, k: nat)
    requires 0 < k <= |rest|
    ensures a + [rest[0]] + rest[1..][..k - 1] == a + rest[..k]
  {
    assert [rest[0]] + rest[1..][..k - 1] == rest[..k];
  }

  lemma ReadOne<T>(sys: System<T>, orig: T, t: T, rest: seq<char>, i: nat, ints: bool,
                   u: Uart, load: nat, accepted: seq<char>, es: seq<SerEvent<T>>, r: Ser<T>)
    requires SoloOk(sys, orig, t) && i < HW_BUFF_SIZE && u.ring != []
    requires CountOk(Flushing(rest, i, None, ints), u, accepted)
    requires Leads(Solo(sys, t, Flushing(rest, i, Some(u.ring[0]), ints), u.(ring := u.ring[1..]), load, accepted),
                   orig, es, r)
    ensures Leads(Solo(sys, t, Flushing(rest, i, None, ints), u, load, accepted), orig, [FlushRead] + es, r)
  {
    var p := Flushing(rest, i, None, ints);
    SoloSys(sys, orig, t, p, u, load, accepted);
    hide SysOk, SystemOk, Leads, Distinct;
    SoloStep(sys, orig, t, p, u, load, accepted, FlushRead,
             Flushing(rest, i, Some(u.ring[0]), ints), u.(ring := u.ring[1..]), load, accepted, es, r);
  }

  lemma SendOne<T>(sys: System<T>, orig: T, t: T, rest: seq<char>, i: nat, c: char, ints: bool,
                   u: Uart, load: nat, accepted: seq<char>, es: seq<SerEvent<T>>, r: Ser<T>)
    requires SoloOk(sys, orig, t) && i < HW_BUFF_SIZE
    requires CountOk(Flushing(rest, i, Some(c), ints), u, accepted)
    requires Leads(Solo(sys, t, Flushing(rest, i + 1, None, ints), u.(sent := u.sent + [c]), load + 1, accepted),
                   orig, es, r)
    ensures Leads(Solo(sys, t, Flushing(rest, i, Some(c), ints), u, load, accepted), orig, [FlushSend] + es, r)
  {
    var p := Flushing(rest, i, Some(c), ints);
    SoloSys(sys, orig, t, p, u, load, accepted);
    hide SysOk, SystemOk, Leads, Distinct;
    SoloStep(sys, orig, t, p, u, load, accepted, FlushSend,
             Flushing(rest, i + 1, None, ints), u.(sent := u.sent + [c]), load + 1, accepted, es, r);
  }

  /** The flush reads a character and sends it. */
  lemma ReadAndSend<T>(sys: System<T>, orig: T, t: T, rest: seq<char>, i: nat, ints: bool,
                       u: Uart, load: nat, accepted: seq<char>, es: seq<SerEvent<T>>, r: Ser<T>)
    requires SoloOk(sys, orig, t) && i < HW_BUFF_SIZE && u.ring != []
    requires CountOk(Flushing(rest, i, None, ints), u, accepted)
    requires Leads(Solo(sys, t, Flushing(rest, i + 1, None, ints),
                        u.(ring := u.ring[1..], sent := u.sent + [u.ring[0]]), load + 1, accepted), orig, es, r)
    ensures Leads(Solo(sys, t, Flushing(rest, i, None, ints), u, load, accepted), orig,
                  [FlushRead] + ([FlushSend] + es), r)
  {
    hide SoloOk, Leads;
    SendOne(sys, orig, t, rest, i, u.ring[0], ints, u.(ring := u.ring[1..]), load, accepted, es, r);
    ReadOne(sys, orig, t, rest, i, ints, u, load, accepted, [FlushSend] + es, r);
  }

  /** A transmit interrupt while the writer is at p. */
  lemma Interrupted<T>(sys: System<T>, orig: T, t: T, p: Pc, u: Uart, load: nat, accepted: seq<char>,
                       es: seq<SerEvent<T>>, r: Ser<T>)
    requires SoloOk(sys, orig, t) && Shape(p) && !p.Waiting? && IntsOn(p) && load > 0 && CountOk(p, u, accepted)
    requires var v := u.(busy := false); Leads(Solo(sys, t, p, Flush(v), Burst(v), accepted), orig, es, r)
    ensures Leads(Solo(sys, t, p, u, load, accepted), orig, [TxEmpty] + es, r)
  {
    var s := Solo(sys, t, p, u, load, accepted);
    SoloSys(sys, orig, t, p, u, load, accepted);
    hide SysOk, SystemOk, Leads, Distinct, Flush, Burst;
    Then(s, orig, TxEmpty, es, r);
  }

  lemma EndFlush<T>(sys: System<T>, orig: T, t: T, rest: seq<char>, i: nat, ints: bool,
                    u: Uart, load: nat, accepted: seq<char>)
    requires SoloOk(sys, orig, t) && i <= HW_BUFF_SIZE && (i == HW_BUFF_SIZE || u.ring == []) && !u.busy
    requires CountOk(Flushing(rest, i, None, ints), u, accepted)
    ensures Leads(Solo(sys, t, Flushing(rest, i, None, ints), u, load, accepted), orig, [FlushEnd],
                  Solo(sys, t, AfterFlush(rest), u.(busy := i > 0), load, accepted))
  {
    var p, u' := Flushing(rest, i, None, ints), u.(busy := i > 0);
    var r := Solo(sys, t, AfterFlush(rest), u', load, accepted);
    SoloSys(sys, orig, t, p, u, load, accepted);
    SoloSys(sys, orig, t, AfterFlush(rest), u', load, accepted);
    hide SysOk, SystemOk, Leads, Distinct;
    Stays(r, orig);
    SoloStep(sys, orig, t, p, u, load, accepted, FlushEnd, AfterFlush(rest), u', load, accepted, [], r);
    assert [SerEvent<T>.FlushEnd] + [] == [SerEvent<T>.FlushEnd];
  }

  /** The driver behind n more characters of a flush that has sent i. */
  function Sends(u: Uart, i: nat, n: nat): (r: Uart)
    requires n <= |u.ring|
  {
    Uart(u.ring[n..], i + n > 0, u.sent + u.ring[..n])
  }

  lemma SendsMore(u: Uart, i: nat, n: nat)
    requires 0 < n <= |u.ring|
    ensures Sends(u.(ring := u.ring[1..], sent := u.sent + [u.ring[0]]), i + 1, n - 1) == Sends(u, i, n)
  {
    assert u.ring[1..][n - 1..] == u.ring[n..];
    Behind(u.sent, u.ring, n);
  }

  lemma SendsNone(u: Uart, i: nat)
    ensures Sends(u, i, 0) == u.(busy := i > 0)
  {
    assert u.sent + u.ring[..0] == u.sent;
  }

  /** The flush's steps from its i-th character on, with no interrupt between them. */
  lemma {:induction false} FlushRest<T>(sys: System<T>, orig: T, t: T, rest: seq<char>, i: nat, ints: bool,
                                        u: Uart, load: nat, accepted: seq<char>) returns (es: seq<SerEvent<T>>)
    requires SoloOk(sys, orig, t) && i <= HW_BUFF_SIZE && !u.busy
    requires CountOk(Flushing(rest, i, None, ints), u, accepted)
    ensures var n := Min(HW_BUFF_SIZE - i, |u.ring|);
      Leads(Solo(sys, t, Flushing(rest, i, None, ints), u, load, accepted), orig, es,
            Solo(sys, t, AfterFlush(rest), Sends(u, i, n), load + n, accepted))
    decreases HW_BUFF_SIZE - i
  {
    hide SoloOk, Leads, Sends;
    var n := Min(HW_BUFF_SIZE - i, |u.ring|);
    if n == 0 {
      SendsNone(u, i);
      EndFlush(sys, orig, t, rest, i, ints, u, load, accepted);
      es := [FlushEnd];
    } else {
      var u' := u.(ring := u.ring[1..], sent := u.sent + [u.ring[0]]);
      es := FlushRest(sys, orig, t, rest, i + 1, ints, u', load + 1, accepted);
      SendsMore(u, i, n);
      ReadAndSend(sys, orig, t, rest, i, ints, u, load, accepted, es,
                  Solo(sys, t, AfterFlush(rest), Sends(u, i, n), load + n, accepted));
      es := [FlushRead] + ([FlushSend] + es);
    }
  }

  lemma SendsIsFlush(u: Uart)
    requires !u.busy
    ensures Sends(u, 0, Burst(u)) == Flush(u)
  {
  }

  /** So without interrupts the steps are the driver's flush. */
  lemma FlushSteps<T>(sys: System<T>, orig: T, t: T, rest: seq<char>, ints: bool,
                      u: Uart, load: nat, accepted: seq<char>) returns (es: seq<SerEvent<T>>)
    requires SoloOk(sys, orig, t) && rest != []
    requires CountOk(Stuck(rest, ints), u, accepted)
    ensures Leads(Solo(sys, t, Stuck(rest, ints), u, load, accepted), orig, es,
                  Solo(sys, t, AfterFlush(rest), Flush(u), load + Burst(u), accepted))
  {
    SoloSys(sys, orig, t, Stuck(rest, ints), u, load, accepted);
    var r := Solo(sys, t, AfterFlush(rest), Flush(u), load + Burst(u), accepted);
    var q := if u.busy then AfterFlush(rest) else Flushing(rest, 0, None, ints);
    FlushCounts(u);
    SoloSys(sys, orig, t, AfterFlush(rest), Flush(u), load + Burst(u), accepted);
    hide SysOk, SystemOk, Leads, Distinct, Sends;
    if u.busy {
      es := [];
      Stays(r, orig);
    } else {
      SendsIsFlush(u);
      es := FlushRest(sys, orig, t, rest, 0, ints, u, load, accepted);
    }
    SoloStep(sys, orig, t, Stuck(rest, ints), u, load, accepted, FlushBegin, q, u, load, accepted, es, r);
    es := [FlushBegin] + es;
  }

  /** Interrupts send all that is in the ring, until the UART is idle. */
  lemma {:induction false} Drain<T>(sys: System<T>, orig: T, t: T, p: Pc, u: Uart, load: nat, accepted: seq<char>)
    returns (es: seq<SerEvent<T>>)
    requires SoloOk(sys, orig, t) && Shape(p) && !p.Waiting? && !p.Flushing? && IntsOn(p)
    requires CountOk(p, u, accepted)
    requires if u.busy then load > 0 else u.ring == [] && load == 0
    ensures Leads(Solo(sys, t, p, u, load, accepted), orig, es,
                  Solo(sys, t, p, Uart([], false, u.sent + u.ring), 0, accepted))
    decreases |u.ring|, u.busy
  {
    var v, r := u.(busy := false), Solo(sys, t, p, Uart([], false, u.sent + u.ring), 0, accepted);
    FlushMoves(v);
    FlushCounts(v);
    hide SoloOk, Leads;
    if u.busy {
      es := Drain(sys, orig, t, p, Flush(v), Burst(v), accepted);
      Interrupted(sys, orig, t, p, u, load, accepted, es, r);
      es := [TxEmpty] + es;
    } else {
      es := [];
      assert u.sent + [] == u.sent;
      SoloSys(sys, orig, t, p, u, load, accepted);
      Stays(r, orig);
    }
  }

  // ----- from boot -----

  /** The machine once its first thread t runs. */
  function First<T(==)>(orig: T, t: T, queues: nat): (sys: System<T>) {
    System(Procs(Ready([t], Some(t)), seq(queues, _ => []), t, t), false)
  }

  lemma FirstThread<T>(orig: T, t: T, queues: nat)
    requires queues > 0 && t != orig
    ensures SoloOk(First(orig, t, queues), orig, t)
    ensures SysOk(SerBoot(orig, queues), orig)
    ensures EnabledRun(SerBoot(orig, queues), orig, [Other(Created(t)), Other(Yielded)])
    ensures RunSer(SerBoot(orig, queues), orig, [Other(Created(t)), Other(Yielded)])
         == Ser(First(orig, t, queues), map[], Uart([], false, []), 0, [])
  {
    var s := SerBoot(orig, queues);
    BootSys(orig, queues);
    var e1: SerEvent<T>, e2: SerEvent<T> := Other(Created(t)), Other(Yielded);
    assert Enabled(s, orig, e1);
    var m := SerNext(s, orig, e1);
    NextSys(s, orig, e1);
    assert [e1, e2][1..] == [e2] && [e2][1..] == [];
    assert m.sys.procs.ready == Ready([t], None) && RrNext(m.sys.procs.ready) == Some(t);
    assert Enabled(m, orig, e2);
    var r := SerNext(m, orig, e2);
    NextSys(m, orig, e2);
    assert r == Ser(First(orig, t, queues), map[], Uart([], false, []), 0, []);
    assert RunSer(m, orig, [e2]) == r;
  }

  /** A text longer than the ring takes the first thread through its first wait; then
      interrupts drain the ring, and the writer goes on with interrupts on. */
  lemma AfterFirstWait<T>(orig: T, t: T, queues: nat, text: seq<char>) returns (es: seq<SerEvent<T>>)
    requires queues > 0 && t != orig && |text| > CAPACITY
    ensures Leads(SerBoot(orig, queues), orig, es,
                  Solo(First(orig, t, queues), t, Writing(text[CAPACITY..], true),
                       Uart([], false, text[..CAPACITY]), 0, text[..CAPACITY]))
  {
    var sys := First(orig, t, queues);
    FirstThread(orig, t, queues);
    var boot := [Other(Created(t)), Other(Yielded)];
    var idle := Ser(sys, map[], Uart([], false, []), 0, []);
    RunSys(SerBoot(orig, queues), orig, boot);
    assert Leads(SerBoot(orig, queues), orig, boot, idle);
    var rest := StartAndFill(sys, orig, t, text);
    es := boot + rest;
    Chain(SerBoot(orig, queues), orig, boot, idle, rest,
          Solo(sys, t, Writing(text[CAPACITY..], true), Uart([], false, text[..CAPACITY]), 0, text[..CAPACITY]));
  }

  lemma StartAndFill<T>(sys: System<T>, orig: T, t: T, text: seq<char>) returns (es: seq<SerEvent<T>>)
    requires SoloOk(sys, orig, t) && |text| > CAPACITY
    requires SysOk(Ser(sys, map[], Uart([], false, []), 0, []), orig)
    ensures Leads(Ser(sys, map[], Uart([], false, []), 0, []), orig, es,
                  Solo(sys, t, Writing(text[CAPACITY..], true),
                       Uart([], false, text[..CAPACITY]), 0, text[..CAPACITY]))
  {
    var s := Ser(sys, map[], Uart([], false, []), 0, []);
    var r := Solo(sys, t, Writing(text[CAPACITY..], true), Uart([], false, text[..CAPACITY]), 0, text[..CAPACITY]);
    var u0 := Uart([], false, []);
    var fill := WriteMany(sys, orig, t, text, false, CAPACITY, u0, 0, []);
    var full := Uart(text[..CAPACITY], false, []);
    assert u0.(ring := u0.ring + text[..CAPACITY]) == full && [] + text[..CAPACITY] == text[..CAPACITY];
    var wait := FirstWait(sys, orig, t, text);
    Chain(Solo(sys, t, Writing(text, false), u0, 0, []), orig, fill,
          Solo(sys, t, Writing(text[CAPACITY..], false), full, 0, text[..CAPACITY]), wait, r);
    Then(s, orig, StartWriteb(text), fill + wait, r);
    es := [StartWriteb(text)] + (fill + wait);
  }

  /** From a full ring through a flush and a test that does not wait, to an idle UART. */
  lemma FirstWait<T>(sys: System<T>, orig: T, t: T, text: seq<char>) returns (es: seq<SerEvent<T>>)
    requires SoloOk(sys, orig, t) && |text| > CAPACITY
    ensures Leads(Solo(sys, t, Writing(text[CAPACITY..], false),
                       Uart(text[..CAPACITY], false, []), 0, text[..CAPACITY]), orig, es,
                  Solo(sys, t, Writing(text[CAPACITY..], true), Uart([], false, text[..CAPACITY]), 0, text[..CAPACITY]))
  {
    hide SoloOk, Leads, Flush, Burst;
    var front, rest := text[..CAPACITY], text[CAPACITY..];
    var full := Uart(front, false, []);
    var r := Solo(sys, t, Writing(rest, true), Uart([], false, front), 0, front);
    FlushFull(front);
    var drain := TestThenDrain(sys, orig, t, rest, Flush(full), front);
    var flush := FlushSteps(sys, orig, t, rest, false, full, 0, front);
    Chain(Solo(sys, t, Stuck(rest, false), full, 0, front), orig, flush,
          Solo(sys, t, Testing(rest), Flush(full), HW_BUFF_SIZE, front), drain, r);
    FindFull(sys, orig, t, rest, full, front, flush + drain, r);
    es := [WriteByte] + (flush + drain);
  }

  lemma FlushFull(front: seq<char>)
    requires |front| == CAPACITY
    ensures var u, full := Flush(Uart(front, false, [])), Uart(front, false, []);
      Burst(full) == HW_BUFF_SIZE && u.busy && u.sent + u.ring == front && |u.ring| < CAPACITY
  {
    assert front == [] + front[..HW_BUFF_SIZE] + front[HW_BUFF_SIZE..];
  }

  lemma TestThenDrain<T>(sys: System<T>, orig: T, t: T, rest: seq<char>, u: Uart, accepted: seq<char>)
    returns (es: seq<SerEvent<T>>)
    requires SoloOk(sys, orig, t) && rest != [] && u.busy && |u.ring| < CAPACITY && u.sent + u.ring == accepted
    ensures Leads(Solo(sys, t, Testing(rest), u, HW_BUFF_SIZE, accepted), orig, es,
                  Solo(sys, t, Writing(rest, true), Uart([], false, accepted), 0, accepted))
  {
    es := Drain(sys, orig, t, Writing(rest, true), u, HW_BUFF_SIZE, accepted);
    SoloSys(sys, orig, t, Testing(rest), u, HW_BUFF_SIZE, accepted);
    hide SysOk, SystemOk, Leads, Distinct;
    SoloStep(sys, orig, t, Testing(rest), u, HW_BUFF_SIZE, accepted, TestFull,
             Writing(rest, true), u, HW_BUFF_SIZE, accepted, es,
             Solo(sys, t, Writing(rest, true), Uart([], false, accepted), 0, accepted));
    es := [TestFull] + es;
  }

  lemma FindFull<T>(sys: System<T>, orig: T, t: T, rest: seq<char>, u: Uart, accepted: seq<char>,
                    es: seq<SerEvent<T>>, r: Ser<T>)
    requires SoloOk(sys, orig, t) && rest != [] && |u.ring| == CAPACITY && |u.sent| + |u.ring| == |accepted|
    requires Leads(Solo(sys, t, Stuck(rest, false), u, 0, accepted), orig, es, r)
    ensures Leads(Solo(sys, t, Writing(rest, false), u, 0, accepted), orig, [WriteByte] + es, r)
  {
    SoloSys(sys, orig, t, Writing(rest, false), u, 0, accepted);
    hide SysOk, SystemOk, Leads, Distinct;
    SoloStep(sys, orig, t, Writing(rest, false), u, 0, accepted, WriteByte,
             Stuck(rest, false), u, 0, accepted, es, r);
  }

  // ----- two runs that fail -----

  /** From the writer's last characters to the flush behind its loop. */
  lemma LastFlush<T>(sys: System<T>, orig: T, t: T, rest: seq<char>, u: Uart, accepted: seq<char>,
                     es: seq<SerEvent<T>>, r: Ser<T>) returns (all: seq<SerEvent<T>>)
    requires SoloOk(sys, orig, t) && |rest| <= CAPACITY && u.ring == [] && !u.busy && |u.sent| == |accepted|
    requires Leads(Solo(sys, t, Flushing([], 0, None, true), u.(ring := rest), 0, accepted + rest), orig, es, r)
    ensures Leads(Solo(sys, t, Writing(rest, true), u, 0, accepted), orig, all, r)
  {
    var full := u.(ring := rest);
    var fill := WriteMany(sys, orig, t, rest, true, |rest|, u, 0, accepted);
    assert u.(ring := u.ring + rest[..|rest|]) == full && rest[|rest|..] == [] && rest[..|rest|] == rest;
    SoloSys(sys, orig, t, Writing([], true), full, 0, accepted + rest);
    hide SysOk, SystemOk, Leads, Distinct;
    SoloStep(sys, orig, t, Writing([], true), full, 0, accepted + rest, FlushBegin,
             Flushing([], 0, None, true), full, 0, accepted + rest, es, r);
    Chain(Solo(sys, t, Writing(rest, true), u, 0, accepted), orig, fill,
          Solo(sys, t, Writing([], true), full, 0, accepted + rest), [FlushBegin] + es, r);
    all := fill + ([FlushBegin] + es);
  }

  /** The one character is sent, then comes the interrupt, then the flush ends. */
  lemma SendThenInterrupt<T>(sys: System<T>, orig: T, t: T, front: seq<char>, c: char) returns (es: seq<SerEvent<T>>)
    requires SoloOk(sys, orig, t)
    ensures Leads(Solo(sys, t, Flushing([], 0, None, true), Uart([c], false, front), 0, front + [c]), orig, es,
                  Solo(sys, t, Out, Uart([], true, front + [c]), 0, front + [c]))
  {
    hide SoloOk, Leads;
    var text := front + [c];
    var u := Uart([], false, text);
    FlushNone(text);
    EndFlush(sys, orig, t, [], 1, true, u, 0, text);
    var r := Solo(sys, t, Out, Uart([], true, text), 0, text);
    Interrupted(sys, orig, t, Flushing([], 1, None, true), u, 1, text, [FlushEnd], r);
    es := [TxEmpty] + [SerEvent<T>.FlushEnd];
    assert [c][1..] == [];
    ReadAndSend(sys, orig, t, [], 0, true, Uart([c], false, front), 0, text, es, r);
    es := [FlushRead] + ([FlushSend] + es);
  }

  /** A run from boot that ends with the driver waiting for an interrupt that has come:
      a text of one character more than the ring takes. The interrupt that says that
      this character is out falls between its send and the end of its flush. */
  lemma LostInterrupt<T>(orig: T, t: T, queues: nat, text: seq<char>) returns (es: seq<SerEvent<T>>)
    requires queues > 0 && t != orig && |text| == CAPACITY + 1
    ensures SysOk(SerBoot(orig, queues), orig) && EnabledRun(SerBoot(orig, queues), orig, es)
    ensures var r := RunSer(SerBoot(orig, queues), orig, es);
      Dead(r) && Here(r) == Out && r.uart == Uart([], true, text) && r.accepted == text
  {
    var sys, front, rest := First(orig, t, queues), text[..CAPACITY], text[CAPACITY..];
    assert rest == [rest[0]] && front + rest == text;
    FirstThread(orig, t, queues);
    hide SoloOk, SysOk, First;
    var idle := Uart([], false, front);
    var r := Solo(sys, t, Out, Uart([], true, text), 0, text);
    var flush := SendThenInterrupt(sys, orig, t, front, rest[0]);
    assert idle.(ring := rest) == Uart([rest[0]], false, front);
    var last := LastFlush(sys, orig, t, rest, idle, front, flush, r);
    es := AfterFirstWaitThen(orig, t, queues, text, last, r);
    IsSolo(orig, t, queues, Out, Uart([], true, text), 0, text);
  }

  lemma IsSolo<T>(orig: T, t: T, queues: nat, p: Pc, u: Uart, load: nat, accepted: seq<char>)
    ensures Here(Solo(First(orig, t, queues), t, p, u, load, accepted)) == p
  {
  }

  /** With y in hand, the interrupt sends z. */
  lemma HeldThenInterrupt<T>(sys: System<T>, orig: T, t: T, sent: seq<char>, y: char, z: char, accepted: seq<char>)
    returns (es: seq<SerEvent<T>>)
    requires SoloOk(sys, orig, t) && |accepted| == |sent| + 2
    ensures Leads(Solo(sys, t, Flushing([], 1, None, true), Uart([y, z], false, sent), 1, accepted), orig, es,
                  Solo(sys, t, Flushing([], 2, None, true), Uart([], true, sent + [z] + [y]), 2, accepted))
  {
    var u1 := Uart([], true, sent + [z]);
    var u2 := u1.(sent := u1.sent + [y]);
    var r := Solo(sys, t, Flushing([], 2, None, true), u2, 2, accepted);
    SoloSys(sys, orig, t, Flushing([], 2, None, true), u2, 2, accepted);
    hide SoloOk, SysOk, Leads;
    Stays(r, orig);
    SendOne(sys, orig, t, [], 1, y, true, u1, 1, accepted, [], r);
    es := [FlushSend] + [];
    FlushOne(z, sent);
    Interrupted(sys, orig, t, Flushing([], 1, Some(y), true), Uart([z], false, sent), 1, accepted, es, r);
    es := [TxEmpty] + es;
    var v := Uart([y, z], false, sent);
    assert v.ring[1..] == [z];
    ReadOne(sys, orig, t, [], 1, true, v, 1, accepted, es, r);
    es := [FlushRead] + es;
  }

  lemma ThreeThenInterrupt<T>(sys: System<T>, orig: T, t: T, front: seq<char>, x: char, y: char, z: char,
                              accepted: seq<char>) returns (es: seq<SerEvent<T>>)
    requires SoloOk(sys, orig, t) && |accepted| == |front| + 3
    ensures Leads(Solo(sys, t, Flushing([], 0, None, true), Uart([x, y, z], false, front), 0, accepted), orig, es,
                  Solo(sys, t, Flushing([], 2, None, true), Uart([], true, front + [x] + [z] + [y]), 2, accepted))
  {
    hide SoloOk, Leads;
    es := HeldThenInterrupt(sys, orig, t, front + [x], y, z, accepted);
    var u := Uart([x, y, z], false, front);
    assert u.ring[1..] == [y, z];
    ReadAndSend(sys, orig, t, [], 0, true, u, 0, accepted, es,
                Solo(sys, t, Flushing([], 2, None, true), Uart([], true, front + [x] + [z] + [y]), 2, accepted));
    es := [FlushRead] + ([FlushSend] + es);
  }

  lemma FlushNone(sent: seq<char>)
    ensures Flush(Uart([], false, sent)) == Uart([], false, sent) && Burst(Uart([], false, sent)) == 0
  {
  }

  lemma FlushOne(c: char, sent: seq<char>)
    ensures Flush(Uart([c], false, sent)) == Uart([], true, sent + [c]) && Burst(Uart([c], false, sent)) == 1
  {
  }

  /** A run from boot that sends characters out of order: three more than the ring
      takes, and an interrupt that sends the third while the second is in hand. */
  lemma Overtaking<T>(orig: T, t: T, queues: nat, text: seq<char>) returns (es: seq<SerEvent<T>>)
    requires queues > 0 && t != orig && |text| == CAPACITY + 3
    ensures SysOk(SerBoot(orig, queues), orig) && EnabledRun(SerBoot(orig, queues), orig, es)
    ensures var r := RunSer(SerBoot(orig, queues), orig, es);
      && r.accepted == text && r.uart.ring == []
      && r.uart.sent == text[..CAPACITY + 1] + [text[CAPACITY + 2]] + [text[CAPACITY + 1]]
      && (text[CAPACITY + 1] != text[CAPACITY + 2] ==> Wrong(r))
  {
    var sys, front, rest := First(orig, t, queues), text[..CAPACITY], text[CAPACITY..];
    var x, y, z := rest[0], rest[1], rest[2];
    assert rest == [x, y, z] && front + rest == text && front + [x] == text[..CAPACITY + 1];
    FirstThread(orig, t, queues);
    hide SoloOk, SysOk, Leads, First;
    var r := Solo(sys, t, Flushing([], 2, None, true), Uart([], true, front + [x] + [z] + [y]), 2, text);
    var flush := ThreeThenInterrupt(sys, orig, t, front, x, y, z, text);
    assert Uart([], false, front).(ring := rest) == Uart([x, y, z], false, front);
    var last := LastFlush(sys, orig, t, rest, Uart([], false, front), front, flush, r);
    es := AfterFirstWaitThen(orig, t, queues, text, last, r);
    Swapped(r, text, CAPACITY + 1);
  }

  lemma Swapped<T>(r: Ser<T>, text: seq<char>, k: nat)
    requires |text| == k + 2 && r.accepted == text && r.uart.sent == text[..k] + [text[k + 1]] + [text[k]]
    ensures text[k] != text[k + 1] ==> Wrong(r)
  {
    assert r.uart.sent[k] == text[k + 1];
  }

  lemma AfterFirstWaitThen<T>(orig: T, t: T, queues: nat, text: seq<char>, last: seq<SerEvent<T>>, r: Ser<T>)
    returns (es: seq<SerEvent<T>>)
    requires queues > 0 && t != orig && |text| > CAPACITY
    requires Leads(Solo(First(orig, t, queues), t, Writing(text[CAPACITY..], true),
                        Uart([], false, text[..CAPACITY]), 0, text[..CAPACITY]), orig, last, r)
    ensures SysOk(SerBoot(orig, queues), orig) && EnabledRun(SerBoot(orig, queues), orig, es)
    ensures RunSer(SerBoot(orig, queues), orig, es) == r
  {
    var start := AfterFirstWait(orig, t, queues, text);
    es := start + last;
    hide SysOk;
    Chain(SerBoot(orig, queues), orig, start,
          Solo(First(orig, t, queues), t, Writing(text[CAPACITY..], true),
               Uart([], false, text[..CAPACITY]), 0, text[..CAPACITY]), last, r);
  }
}
