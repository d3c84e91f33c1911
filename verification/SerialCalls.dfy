/** What a call of SER_writeb writes (dev/serial.c), observed from outside: the text it
    was given, and the characters that were accepted while its thread was inside. */
module SerialCalls {
  import opened Wrappers
  import opened RoundRobin
  import opened ProcModel
  import opened CircBuff
  import opened Serial
  import opened SerialSteps
  import opened SerialSystem
  import opened SerialRuns

  /** Each thread's latest call. */
  datatype Call = Call(text: seq<char>, taken: seq<char>)

  /** The characters that a step adds to those accepted. */
  ghost function NewlyAccepted<T>(s: Ser<T>, orig: T, e: SerEvent<T>): (cs: seq<char>)
    requires SysOk(s, orig) && Enabled(s, orig, e)
    ensures s.accepted + cs == SerNext(s, orig, e).accepted
  {
    Grows(s, orig, e);
    SerNext(s, orig, e).accepted[|s.accepted|..]
  }

  /** A call begins with its text; what is accepted while the running thread is inside
      is taken from it. */
  ghost function LogStep<T>(s: Ser<T>, orig: T, e: SerEvent<T>, log: map<T, Call>): (r: map<T, Call>)
    requires SysOk(s, orig) && Enabled(s, orig, e)
  {
    var t := s.sys.procs.curr;
    if e.StartWriteb? then log[t := Call(e.text, [])]
    else if InWriter(Here(s)) && t in log
      then log[t := Call(log[t].text, log[t].taken + NewlyAccepted(s, orig, e))]
    else log
  }

  /** What the thread still has to write. */
  function Rest(p: Pc): (rest: seq<char>) {
    match p
    case Out => []
    case Writing(rest, _) => rest
    case Stuck(rest, _) => rest
    case Flushing(rest, _, _, _) => rest
    case Testing(rest) => rest
    case Waiting(rest) => rest
  }

  /** Every call has had accepted its text up to what is left of it, in order; a call
      that has returned, its whole text. */
  ghost predicate LogOk<T>(s: Ser<T>, log: map<T, Call>) {
    && (forall t :: t in s.pc && s.pc[t] != Out ==> t in log)
    && (forall t :: t in log ==> log[t].taken + Rest(Get(s.pc, t, Out)) == log[t].text)
  }

  /** Only the running thread changes its place. */
  lemma OthersStay<T>(s: Ser<T>, orig: T, e: SerEvent<T>)
    requires SysOk(s, orig) && Enabled(s, orig, e)
    ensures forall u :: u != s.sys.procs.curr ==> Get(SerNext(s, orig, e).pc, u, Out) == Get(s.pc, u, Out)
    ensures e.StartWriteb? ==> Get(SerNext(s, orig, e).pc, s.sys.procs.curr, Out) == Writing(e.text, false)
  {
    hide SysOk, SystemOk, UnblockHead, Step, Flush, Write, Burst, Accepted, BlockOn;
  }

  /** A character that is written goes from what is left to what is accepted. */
  lemma WrittenByte<T>(s: Ser<T>, orig: T)
    requires SysOk(s, orig) && Enabled(s, orig, WriteByte)
    ensures NewlyAccepted(s, orig, WriteByte) + Rest(Get(SerNext(s, orig, WriteByte).pc, s.sys.procs.curr, Out))
         == Rest(Here(s))
  {
    hide SysOk, SystemOk;
    var p, r := Here(s), SerNext(s, orig, WriteByte);
    var cs := NewlyAccepted(s, orig, WriteByte);
    hide NewlyAccepted;
    if |s.uart.ring| < CAPACITY {
      SameEnd(s.accepted, cs, [p.rest[0]]);
      assert p.rest == [p.rest[0]] + p.rest[1..];
    } else {
      SameEnd(s.accepted, cs, []);
    }
  }

  /** The other steps neither accept anything for the running thread nor take anything
      from what is left to it. */
  lemma RestStays<T>(s: Ser<T>, orig: T, e: SerEvent<T>)
    requires SysOk(s, orig) && Enabled(s, orig, e) && !e.StartWriteb? && !e.WriteByte?
    ensures var r, t := SerNext(s, orig, e), s.sys.procs.curr;
      && Rest(Get(r.pc, t, Out)) == Rest(Here(s))
      && (InWriter(Here(s)) ==> NewlyAccepted(s, orig, e) == [])
      && (!InWriter(Here(s)) ==> (Get(r.pc, t, Out) == Out <==> Here(s) == Out))
  {
    hide SysOk, SystemOk, UnblockHead, Step, Flush, Write, Burst, Accepted, BlockOn, NewlyAccepted;
    if InWriter(Here(s)) {
      SameEnd(s.accepted, NewlyAccepted(s, orig, e), []);
    }
  }

  /** What one step does to the running thread's place and to what is accepted. */
  lemma RestStep<T>(s: Ser<T>, orig: T, e: SerEvent<T>)
    requires SysOk(s, orig) && Enabled(s, orig, e) && !e.StartWriteb?
    ensures var r, t := SerNext(s, orig, e), s.sys.procs.curr;
      && (InWriter(Here(s)) ==> NewlyAccepted(s, orig, e) + Rest(Get(r.pc, t, Out)) == Rest(Here(s)))
      && (!InWriter(Here(s)) ==>
            Rest(Get(r.pc, t, Out)) == Rest(Here(s)) && (Get(r.pc, t, Out) == Out <==> Here(s) == Out))
  {
    hide SysOk, SerNext, NewlyAccepted, Rest;
    if e.WriteByte? {
      WrittenByte(s, orig);
    } else {
      RestStays(s, orig, e);
    }
  }

  lemma SameEnd(a: seq<char>, b: seq<char>, c: seq<char>)
    requires a + b == a + c
    ensures b == c
  {
    assert (a + b)[|a|..] == b && (a + c)[|a|..] == c;
  }

  lemma LogStepOk<T>(s: Ser<T>, orig: T, e: SerEvent<T>, log: map<T, Call>)
    requires SysOk(s, orig) && Enabled(s, orig, e) && LogOk(s, log)
    ensures LogOk(SerNext(s, orig, e), LogStep(s, orig, e, log))
  {
    hide SysOk, SerNext, Enabled, NewlyAccepted, Rest;
    var r, t := SerNext(s, orig, e), s.sys.procs.curr;
    OthersStay(s, orig, e);
    forall u | u in r.pc && r.pc[u] != Out && u != t
      ensures u in log
    {
      assert Get(r.pc, u, Out) == Get(s.pc, u, Out);
    }
    if e.StartWriteb? {
      RestOfText(e.text);
    } else {
      RestStep(s, orig, e);
      InIsNotOut(Here(s));
      if InWriter(Here(s)) {
        Moved(log[t].taken, NewlyAccepted(s, orig, e), Rest(Get(r.pc, t, Out)), Rest(Here(s)));
      }
    }
  }

  lemma RestOfText(text: seq<char>)
    ensures [] + Rest(Writing(text, false)) == text
  {
  }

  lemma InIsNotOut(p: Pc)
    ensures InWriter(p) ==> p != Out
  {
  }

  lemma Moved(taken: seq<char>, cs: seq<char>, rest': seq<char>, rest: seq<char>)
    requires cs + rest' == rest
    ensures (taken + cs) + rest' == taken + rest
  {
  }

  ghost function RunLog<T>(s: Ser<T>, orig: T, es: seq<SerEvent<T>>, log: map<T, Call>): (r: map<T, Call>)
    requires SysOk(s, orig) && EnabledRun(s, orig, es)
    decreases |es|
  {
    if es == [] then log
    else
      NextSys(s, orig, es[0]);
      RunLog(SerNext(s, orig, es[0]), orig, es[1..], LogStep(s, orig, es[0], log))
  }

  lemma {:induction false} RunLogOk<T>(s: Ser<T>, orig: T, es: seq<SerEvent<T>>, log: map<T, Call>)
    requires SysOk(s, orig) && EnabledRun(s, orig, es) && LogOk(s, log)
    ensures LogOk(RunSer(s, orig, es), RunLog(s, orig, es, log))
    decreases |es|
  {
    hide SysOk, Enabled, SerNext, LogOk, LogStep;
    if es != [] {
      NextSys(s, orig, es[0]);
      LogStepOk(s, orig, es[0], log);
      RunLogOk(SerNext(s, orig, es[0]), orig, es[1..], LogStep(s, orig, es[0], log));
    }
  }

  /** Over every run from boot, harmful interrupts or not: a call of SER_writeb that is
      under way has written its text up to a rest, and one that has returned all of it,
      whoever else has written meanwhile. */
  lemma TextIsWritten<T>(orig: T, queues: nat, es: seq<SerEvent<T>>, t: T)
    requires queues > 0
    ensures SysOk(SerBoot(orig, queues), orig)
    ensures EnabledRun(SerBoot(orig, queues), orig, es) ==>
      var s, log := RunSer(SerBoot(orig, queues), orig, es), RunLog(SerBoot(orig, queues), orig, es, map[]);
      && (Get(s.pc, t, Out) != Out ==> t in log)
      && (t in log ==> log[t].taken <= log[t].text)
      && (t in log && Get(s.pc, t, Out) == Out ==> log[t].taken == log[t].text)
  {
    BootOk(orig, queues);
    var s := SerBoot(orig, queues);
    if EnabledRun(s, orig, es) {
      RunLogOk(s, orig, es, map[]);
    }
  }
}
