/** The steps of the serial system on the real driver (dev/serial.c over
    lib/circ_buff.c): each does to the driver's variables what the step says, and the
    branch the code takes is the one the step takes. */
module SerialDriver {
  import opened Wrappers
  import opened ProcModel
  import opened CircBuff
  import opened Serial
  import opened SerialSteps

  /** The driver's variables are those of the system's state. */
  ghost predicate Runs<T>(port: SerialPort, s: Ser<T>, orig: T)
    reads port, port.ring, port.ring.buff
  {
    port.Valid() && SysOk(s, orig) && port.State() == s.uart
  }

  /** producer_write in the loop of SER_writeb. */
  method WriteOnPort<T>(port: SerialPort, c: char, ghost s: Ser<T>, ghost orig: T) returns (ok: bool)
    requires Runs(port, s, orig) && Enabled(s, orig, WriteByte) && c == Here(s).rest[0]
    modifies port.ring, port.ring.buff
    ensures port.Valid() && port.State() == SerNext(s, orig, WriteByte).uart
    ensures SerNext(s, orig, WriteByte).accepted == s.accepted + if ok then [c] else []
    ensures ok <==> !Here(SerNext(s, orig, WriteByte)).Stuck?
  {
    hide Window, SysOk;
    ok := port.ring.ProducerWrite(c);
  }

  /** The test of the status at the head of init_hw_write. */
  method BeginFlush<T>(port: SerialPort, ghost s: Ser<T>, ghost orig: T) returns (idle: bool)
    requires Runs(port, s, orig) && Enabled(s, orig, FlushBegin)
    ensures port.State() == SerNext(s, orig, FlushBegin).uart
    ensures idle <==> Here(SerNext(s, orig, FlushBegin)).Flushing?
  {
    hide Window, SysOk;
    idle := !port.busy;
  }

  /** The test of its loop: i < 14 and consumer_read. */
  method ReadForFlush<T>(port: SerialPort, i: nat, ghost s: Ser<T>, ghost orig: T) returns (ok: bool, c: char)
    requires Runs(port, s, orig) && !s.sys.window && Here(s).Flushing? && Here(s).held.None? && Here(s).i == i
    modifies port.ring
    ensures port.Valid()
    ensures if ok then
              && Enabled(s, orig, FlushRead) && port.State() == SerNext(s, orig, FlushRead).uart
              && Here(SerNext(s, orig, FlushRead)).held == Some(c)
            else Enabled(s, orig, FlushEnd) && port.State() == s.uart
  {
    hide Window, SysOk;
    ok := false;
    c := ' ';
    if i < HW_BUFF_SIZE {
      ok, c := port.ring.ConsumerRead();
    }
  }

  /** TX_byte. */
  method SendForFlush<T>(port: SerialPort, c: char, ghost s: Ser<T>, ghost orig: T)
    requires Runs(port, s, orig) && Enabled(s, orig, FlushSend) && Here(s).held == Some(c)
    modifies port`sent
    ensures port.Valid() && port.State() == SerNext(s, orig, FlushSend).uart
  {
    hide Window, SysOk;
    port.TxByte(c);
  }

  /** The status behind the loop. */
  method EndFlush<T>(port: SerialPort, i: nat, ghost s: Ser<T>, ghost orig: T)
    requires Runs(port, s, orig) && Enabled(s, orig, FlushEnd) && Here(s).i == i
    modifies port`busy
    ensures port.Valid() && port.State() == SerNext(s, orig, FlushEnd).uart
  {
    hide Window, SysOk;
    if i > 0 {
      port.busy := true;
    }
  }

  /** The condition of the wait. */
  method TestPort<T>(port: SerialPort, ghost s: Ser<T>, ghost orig: T) returns (block: bool)
    requires Runs(port, s, orig) && Enabled(s, orig, TestFull)
    ensures port.State() == SerNext(s, orig, TestFull).uart
    ensures block <==> SerNext(s, orig, TestFull).sys.window
  {
    hide Window, SysOk;
    block := port.ring.IsFull();
  }

  /** The transmit branch of serial_isr. */
  method TransmitEmpty<T>(port: SerialPort, ghost s: Ser<T>, ghost orig: T)
    requires Runs(port, s, orig) && Enabled(s, orig, TxEmpty)
    modifies port, port.ring
    ensures port.Valid() && port.State() == SerNext(s, orig, TxEmpty).uart
  {
    hide Window, SysOk, Flush;
    port.busy := false;
    port.InitHwWrite();
  }

  /** SER_write. */
  method WriteText<T>(port: SerialPort, buff: seq<char>, len: nat, ghost s: Ser<T>, ghost orig: T) returns (n: nat)
    requires Runs(port, s, orig) && (len < |buff| || '\0' in buff)
    requires Enabled(s, orig, SerWrite(Text(buff, len)))
    modifies port, port.ring, port.ring.buff
    ensures port.Valid() && port.State() == SerNext(s, orig, SerWrite(Text(buff, len))).uart
    ensures n <= |Text(buff, len)|
    ensures SerNext(s, orig, SerWrite(Text(buff, len))).accepted == s.accepted + Text(buff, len)[..n]
  {
    AcceptedLength(s.uart, Text(buff, len));
    hide Window, SysOk, Flush, Text, Accepted;
    n := port.SerWrite(buff, len);
  }
}
