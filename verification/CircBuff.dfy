/** The 1024-slot ring buffer (lib/circ_buff.c). One slot stays free, so that equal
    heads mean empty; the heads are kept as indices into the buffer. */
module CircBuff {
  const BUFF_SIZE: nat := 1024
  const CAPACITY: nat := 1023

  /** What lies between the two heads, going round the end if need be. */
  ghost function Window<T>(b: seq<T>, r: nat, w: nat): (s: seq<T>)
    requires r < |b| && w < |b|
  {
    if r <= w then b[r..w] else b[r..] + b[..w]
  }

  function After(i: nat): (j: nat) {
    if i + 1 >= BUFF_SIZE then 0 else i + 1
  }

  lemma WindowPop<T>(b: seq<T>, r: nat, w: nat)
    requires |b| == BUFF_SIZE && r < |b| && w < |b| && r != w
    ensures Window(b, r, w) == [b[r]] + Window(b, After(r), w)
  {
  }

  lemma WindowPush<T>(b: seq<T>, r: nat, w: nat, c: T)
    requires |b| == BUFF_SIZE && r < |b| && w < |b| && r != After(w)
    ensures Window(b[w := c], r, After(w)) == Window(b, r, w) + [c]
  {
  }

  class Ring<T(0)> {
    const buff: array<T>
    var readHead: nat
    var writeHead: nat

    ghost predicate Valid()
      reads this
    {
      buff.Length == BUFF_SIZE && readHead < BUFF_SIZE && writeHead < BUFF_SIZE
    }

    /** The buffered elements, oldest first. */
    ghost function Contents(): (s: seq<T>)
      reads this, buff
      requires Valid()
    {
      Window(buff[..], readHead, writeHead)
    }

    constructor ()
      ensures Valid() && fresh(buff) && Contents() == []
    {
      buff := new T[BUFF_SIZE];
      readHead := 0;
      writeHead := 0;
    }

    method IsEmpty() returns (b: bool)
      requires Valid()
      ensures b <==> Contents() == []
    {
      b := readHead == writeHead;
    }

    method IsFull() returns (b: bool)
      requires Valid()
      ensures b <==> |Contents()| == CAPACITY
      ensures |Contents()| <= CAPACITY
    {
      b := readHead == writeHead + 1 || (readHead == 0 && writeHead == BUFF_SIZE - 1);
    }

    method ConsumerRead() returns (ok: bool, res: T)
      requires Valid()
      modifies this`readHead
      ensures Valid()
      ensures ok <==> old(Contents()) != []
      ensures ok ==> old(Contents()) == [res] + Contents()
      ensures !ok ==> Contents() == old(Contents())
    {
      var empty := IsEmpty();
      res := buff[readHead];
      if empty {
        return false, res;
      }
      WindowPop(buff[..], readHead, writeHead);
      readHead := readHead + 1;
      if readHead >= BUFF_SIZE {
        readHead := 0;
      }
      ok := true;
    }

    method ProducerWrite(c: T) returns (ok: bool)
      requires Valid()
      modifies this`writeHead, buff
      ensures Valid()
      ensures ok <==> |old(Contents())| < CAPACITY
      ensures Contents() == if ok then old(Contents()) + [c] else old(Contents())
    {
      var full := IsFull();
      if full {
        return false;
      }
      WindowPush(buff[..], readHead, writeHead, c);
      buff[writeHead] := c;
      writeHead := writeHead + 1;
      if writeHead >= BUFF_SIZE {
        writeHead := 0;
      }
      ok := true;
    }
  }
}
