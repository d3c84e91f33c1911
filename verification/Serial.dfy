/** The serial driver (dev/serial.c): a bounded FIFO feeding a UART that takes
    bursts of at most 14 bytes, restarted by writers and by its interrupt. */
module Serial {
  import opened CircBuff
  import opened CString

  const HW_BUFF_SIZE: nat := 14

  /** The driver's state: buffered characters, whether the UART is busy, and all
      that has been sent to it. */
  datatype Uart = Uart(ring: seq<char>, busy: bool, sent: seq<char>)

  function Min(a: nat, b: nat): (m: nat) {
    if a < b then a else b
  }

  /** init_hw_write. */
  function Flush(u: Uart): (r: Uart) {
    if u.busy then u
    else
      var n := Min(HW_BUFF_SIZE, |u.ring|);
      Uart(u.ring[n..], n > 0, u.sent + u.ring[..n])
  }

  /** The text SER_write would send: up to the terminator or `len` characters. */
  function Text(buff: seq<char>, len: nat): (t: seq<char>)
    ensures t <= buff && |t| <= len
  {
    Until(if len < |buff| then buff[..len] else buff, '\0')
  }

  /** As much of `text` as fits into the ring. */
  function Accepted(u: Uart, text: seq<char>): (t: seq<char>)
    ensures t <= text
  {
    text[..Min(|text|, if |u.ring| < CAPACITY then CAPACITY - |u.ring| else 0)]
  }

  function Write(u: Uart, text: seq<char>): (r: Uart) {
    Flush(u.(ring := u.ring + Accepted(u, text)))
  }

  /** Sent characters followed by buffered ones. */
  function Stream(u: Uart): (s: seq<char>) {
    u.sent + u.ring
  }

  /** A flush only moves characters, at most one burst of them and only into an
      idle UART; it leaves an idle UART only behind an empty ring. */
  lemma FlushMoves(u: Uart)
    ensures Stream(Flush(u)) == Stream(u)
    ensures u.sent <= Flush(u).sent && |Flush(u).sent| <= |u.sent| + HW_BUFF_SIZE
    ensures u.busy ==> Flush(u) == u
    ensures Flush(u).ring != [] ==> Flush(u).busy
    ensures !u.busy ==> (Flush(u).busy <==> u.ring != [])
  {
    if !u.busy {
      var n := Min(HW_BUFF_SIZE, |u.ring|);
      assert u.ring == u.ring[..n] + u.ring[n..];
      assert u.sent + u.ring == (u.sent + u.ring[..n]) + u.ring[n..];
    }
  }

  lemma WriteAccepts(u: Uart, text: seq<char>)
    requires |u.ring| <= CAPACITY
    ensures Stream(Write(u, text)) == Stream(u) + Accepted(u, text)
    ensures |Write(u, text).ring| <= CAPACITY
  {
    FlushMoves(u.(ring := u.ring + Accepted(u, text)));
    assert u.sent + (u.ring + Accepted(u, text)) == (u.sent + u.ring) + Accepted(u, text);
  }

  class SerialPort {
    const ring: Ring<char>
    var busy: bool
    ghost var sent: seq<char>

    ghost predicate Valid()
      reads this, ring
    {
      ring.Valid()
    }

    ghost function State(): (u: Uart)
      reads this, ring, ring.buff
      requires Valid()
    {
      Uart(ring.Contents(), busy, sent)
    }

    constructor ()
      ensures Valid() && fresh(ring) && fresh(ring.buff) && State() == Uart([], false, [])
    {
      ring := new Ring<char>();
      busy := false;
      sent := [];
    }

    /** TX_byte: the port write. */
    method TxByte(c: char)
      modifies this`sent
      ensures sent == old(sent) + [c]
    {
      sent := sent + [c];
    }

    method InitHwWrite()
      requires Valid()
      modifies this, ring
      ensures Valid() && State() == Flush(old(State()))
    {
      hide Window;
      ghost var u := State();
      var i := 0;
      if !busy {
        while i < HW_BUFF_SIZE
          invariant 0 <= i <= HW_BUFF_SIZE && i <= |u.ring|
          invariant Valid() && !busy
          invariant State() == Uart(u.ring[i..], false, u.sent + u.ring[..i])
        {
          var ok, c := ring.ConsumerRead();
          if !ok {
            break;
          }
          TxByte(c);
          assert u.ring[..i] + [c] == u.ring[..i + 1];
          i := i + 1;
        }
        if i > 0 {
          busy := true;
        }
      }
    }

    /** SER_write: drops what does not fit; returns how much it took. */
    method SerWrite(buff: seq<char>, len: nat) returns (n: nat)
      requires Valid()
      requires len < |buff| || '\0' in buff
      modifies this, ring, ring.buff
      ensures Valid() && State() == Write(old(State()), Text(buff, len))
      ensures n == |Accepted(old(State()), Text(buff, len))|
    {
      hide Window, Accepted, Text, Flush;
      n := FillRing(buff, len);
      InitHwWrite();
    }

    /** The loop of SER_write. */
    method FillRing(buff: seq<char>, len: nat) returns (i: nat)
      requires Valid()
      requires len < |buff| || '\0' in buff
      modifies ring, ring.buff
      ensures Valid() && ring.Contents() == old(ring.Contents()) + Accepted(old(State()), Text(buff, len))
      ensures i == |Accepted(old(State()), Text(buff, len))|
    {
      hide Window, Accepted, Text;
      ghost var before := ring.Contents();
      ghost var text := Text(buff, len);
      AcceptedLength(State(), text);
      i := 0;
      var full := ring.IsFull();
      TextAt(buff, len, 0);
      while i < |buff| && buff[i] != '\0' && i < len
        invariant 0 <= i <= |text| && Valid()
        invariant |before| + i <= CAPACITY
        invariant ring.Contents() == before + text[..i]
        invariant i < |text| <==> i < |buff| && buff[i] != '\0' && i < len
      {
        var ok := ring.ProducerWrite(buff[i]);
        if !ok {
          break;
        }
        TextAt(buff, len, i);
        TextAt(buff, len, i + 1);
        assert text[..i] + [buff[i]] == text[..i + 1];
        i := i + 1;
      }
    }
  }

  lemma AcceptedLength(u: Uart, text: seq<char>)
    ensures |Accepted(u, text)| <= |text| && Accepted(u, text) == text[..|Accepted(u, text)|]
    ensures |u.ring| <= CAPACITY ==>
              |Accepted(u, text)| == if |u.ring| + |text| <= CAPACITY then |text| else CAPACITY - |u.ring|
  {
  }

  lemma TextAt(buff: seq<char>, len: nat, i: nat)
    requires i <= |Text(buff, len)|
    ensures i < |Text(buff, len)| <==> i < |buff| && buff[i] != '\0' && i < len
    ensures i < |Text(buff, len)| ==> Text(buff, len)[i] == buff[i]
  {
    hide Until;
    var b := if len < |buff| then buff[..len] else buff;
    var t := Until(b, '\0');
    assert i < |t| ==> t[i] == b[i];
  }
}
