/** The steps of the keyboard system on the real ring buffer (dev/keyboard.c over
    lib/circ_buff.c), and what becomes of the keys that are pressed. */
module KeyboardDriver {
  import opened Wrappers
  import opened CircBuff
  import opened Keyboard

  /** The characters pressed while fewer than 1023 were buffered, in order. */
  ghost function PressesWithRoom<T>(s: Kbd<T>, orig: T, es: seq<KbdEvent<T>>): (cs: seq<char>)
    requires KbdOk(s, orig) && EnabledRun(s, orig, es)
    decreases |es|
  {
    if es == [] then []
    else
      NextIsOk(s, orig, es[0]);
      (if es[0].KeyPress? && |s.buf| < 1023 then [es[0].c] else [])
      + PressesWithRoom(Next(s, orig, es[0]), orig, es[1..])
  }

  lemma StepAccepts<T>(s: Kbd<T>, orig: T, e: KbdEvent<T>)
    requires KbdOk(s, orig) && Enabled(s, orig, e)
    ensures Next(s, orig, e).accepted == s.accepted + if e.KeyPress? && |s.buf| < 1023 then [e.c] else []
  {
    hide KbdOk;
  }

  /** Over every run: exactly those are accepted, and the others are dropped. */
  lemma {:induction false} PressesAccepted<T>(s: Kbd<T>, orig: T, es: seq<KbdEvent<T>>)
    requires KbdOk(s, orig) && EnabledRun(s, orig, es)
    ensures RunKbd(s, orig, es).accepted == s.accepted + PressesWithRoom(s, orig, es)
    decreases |es|
  {
    hide PcOk, NoneLost, Enabled, Next;
    if es != [] {
      NextIsOk(s, orig, es[0]);
      StepAccepts(s, orig, es[0]);
      PressesAccepted(Next(s, orig, es[0]), orig, es[1..]);
    }
  }

  /** So over every run from boot the keys that found room are the characters read,
      in order, followed by those still buffered. */
  lemma KeysAreRead<T>(orig: T, queues: nat, es: seq<KbdEvent<T>>)
    requires queues > 0
    ensures KbdOk(KbdBoot(orig, queues), orig)
    ensures EnabledRun(KbdBoot(orig, queues), orig, es) ==>
      var s := RunKbd(KbdBoot(orig, queues), orig, es);
      PressesWithRoom(KbdBoot(orig, queues), orig, es) == s.read + s.buf
  {
    NoLostWakeup(orig, queues, es);
    var s0 := KbdBoot(orig, queues);
    if EnabledRun(s0, orig, es) {
      PressesAccepted(s0, orig, es);
    }
  }

  /** producer_write in the handler. */
  method PressOnRing<T>(ring: Ring<char>, c: char, ghost s: Kbd<T>, ghost orig: T)
    requires ring.Valid() && KbdOk(s, orig) && Enabled(s, orig, KeyPress(c)) && ring.Contents() == s.buf
    modifies ring`writeHead, ring.buff
    ensures ring.Valid() && ring.Contents() == Next(s, orig, KeyPress(c)).buf
  {
    hide KbdOk, Window;
    var ok := ring.ProducerWrite(c);
  }

  /** The test of the wait loop. */
  method TestRing<T>(ring: Ring<char>, ghost s: Kbd<T>, ghost orig: T) returns (block: bool)
    requires ring.Valid() && KbdOk(s, orig) && Enabled(s, orig, Test) && ring.Contents() == s.buf
    ensures block <==> Next(s, orig, Test).sys.window
    ensures Next(s, orig, Test).buf == s.buf
  {
    hide KbdOk, Window;
    block := ring.IsEmpty();
  }

  /** consumer_read behind the wait: it finds the oldest character. */
  method ReadFromRing<T>(ring: Ring<char>, ghost s: Kbd<T>, ghost orig: T) returns (c: char)
    requires ring.Valid() && KbdOk(s, orig) && Enabled(s, orig, Read) && ring.Contents() == s.buf
    modifies ring`readHead
    ensures ring.Valid() && ring.Contents() == Next(s, orig, Read).buf
    ensures s.buf != [] && c == s.buf[0] && Next(s, orig, Read).read == s.read + [c]
  {
    ReadOk(s, orig);
    hide KbdOk, Window;
    var ok, res := ring.ConsumerRead();
    c := res;
  }
}
