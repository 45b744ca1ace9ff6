/**
 The interrupt-driven ("fast") JTAG UART driver as a state machine.

 Thread code advances one shared-memory or device access at a time, a memcpy one byte at a time. The
 interrupt routine preempts threads: while it is running no thread steps, but the host may act between
 any two of its register accesses. At most one thread writes or closes and at most one reads, as the
 two semaphores of the driver arrange.
 */
module JtagUart {
  import opened Ring
  import opened Sequences

  const FIFO_DEPTH: nat := 64
  const WRITE_THRESHOLD: nat := 8
  const READ_THRESHOLD: nat := 8
  const INT_MAX: int := 0x7fff_ffff
  const EIO: int := 5
  const EWOULDBLOCK: int := 11

  /** The interrupt-enable bits, receive and transmit. */
  datatype Enables = Enables(re: bool, we: bool)

  /** What one read of the control register shows. */
  datatype Control = Control(ri: bool, wi: bool, wspace: nat)

  /** Where a call of write is. `dirty` records that tx_in moved since this call last set WE. */
  datatype WritePc = Test | LoadOut | Copy | Publish | Enable | Spin | SpinHost | HostCheck | Return

  datatype Writer =
    | Idle
    | Writing(pc: WritePc, data: seq<Byte>, nonblock: bool, pos: nat,
              put: Index, out: Index, n: nat, k: nat, dirty: bool)
    | Closing(pollHost: bool, nonblock: bool)

  /** Where a call of read is. `got` is the caller's buffer, of which the first `pos` bytes are consumed. */
  datatype ReadPc = RTest | RLoadIn | RCopy | RPublish | RAfter | RSpin | RSpinHost | RCheck | RFinish

  datatype Reader =
    | RIdle
    | Reading(pc: ReadPc, space: nat, nonblock: bool, got: seq<Byte>, pos: nat,
              seen: Index, n: nat, k: nat)

  /** Where the interrupt routine is. */
  datatype Isr =
    | Off
    | Poll
    | Fill(avail: nat, c: Control)
    | FillEnd(avail: nat, c: Control)
    | Drain(space: nat)
    | DrainEnd(space: nat)

  /** Finished calls: the argument, how many of its bytes were taken, and the return code. */
  datatype WriteCall = WriteCall(data: seq<Byte>, nonblock: bool, moved: nat, rc: int)
  type WriteRecord = rec: WriteCall | rec.moved <= |rec.data| witness WriteCall([], false, 0, 0)
  datatype ReadRecord = ReadRecord(space: nat, nonblock: bool, bytes: seq<Byte>, rc: int)

  /**
   The transmit side: software ring, hardware FIFO, the histories of the data register and of the host,
   the writing thread and its finished calls. `closed` holds from a return of close, with code `closeRc`,
   until the next call of write or close.
   */
  datatype Tx = Tx(buf: Buffer, put: Index, take: Index, fifo: seq<Byte>, sent: seq<Byte>, drained: seq<Byte>,
                   w: Writer, done: seq<WriteRecord>, closed: bool, closeRc: int)

  /** The receive side; `popped` are the bytes read from the data register with RVALID set. */
  datatype Rx = Rx(buf: Buffer, put: Index, take: Index, fifo: seq<Byte>, popped: seq<Byte>, typed: seq<Byte>,
                   r: Reader, done: seq<ReadRecord>)

  /** The driver's copy of the interrupt-enable bits, the bits in the control register, the interrupt routine. */
  datatype Port = Port(irqEnable: Enables, ctl: Enables, isr: Isr)

  /** Seconds without host activity; `ever` records that this count was once above zero. */
  datatype Host = Host(inactive: nat, ever: bool, ac: bool, timeout: nat)
  {
    /** Whether the host may once have looked absent to a waiting reader. */
    predicate Lost() { ever || timeout == 0 }
  }

  datatype Uart = Uart(tx: Tx, rx: Rx, port: Port, host: Host)

  datatype Action =
    | HostSend(b: Byte)
    | HostDrain
    | Timer
    | Interrupt
    | IsrStep(pause: bool)
    | Write(data: seq<Byte>, nonblock: bool)
    | Close(nonblock: bool)
    | WriterStep
    | Read(space: nat, nonblock: bool)
    | ReaderStep

  // ----------------------------------------------------------------------------------------------
  // The transmit side
  // ----------------------------------------------------------------------------------------------

  function Min(a: nat, b: nat): nat { if a <= b then a else b }

  function ReturnCode(moved: nat, nonblock: bool): int
  {
    if moved != 0 then moved else if nonblock then -EWOULDBLOCK else -EIO
  }

  /** How many slots the writer may fill in one block, from its own index and a copy of the consumer's. */
  function Room(put: Index, out: Index): nat
  {
    if put < out then out - 1 - put
    else if out > 0 then BUF_LEN - put
    else BUF_LEN - 1 - put
  }

  /** The steps of write that change nothing but its own local variables. */
  function WriterMove(w: Writer, put: Index, take: Index, host: Host): (w': Writer)
    requires w.Writing? && !w.pc.Copy? && !w.pc.Publish? && !w.pc.Return?
    requires w.pos <= |w.data|
    ensures w'.Writing? && w'.data == w.data && w'.pos == w.pos && w'.nonblock == w.nonblock
  {
    match w.pc
    case Test => if w.pos < |w.data| then w.(put := put, pc := LoadOut) else w.(pc := Enable)
    case LoadOut =>
      var room := Room(w.put, take);
      if room == 0 then w.(out := take, pc := Enable)
      else w.(out := take, n := Min(room, |w.data| - w.pos), k := 0, pc := Copy)
    case Enable => w.(dirty := false, pc := if w.pos == |w.data| || w.nonblock then Return else Spin)
    case Spin => w.(pc := if w.out == take then SpinHost else HostCheck)
    case SpinHost => w.(pc := if host.inactive < host.timeout then Spin else HostCheck)
    case HostCheck => w.(pc := if host.inactive != 0 then Return else Test)
  }

  function WriterNext(tx: Tx, host: Host): Tx
    requires tx.w.Writing? && WriterInv(tx, host.ever)
  {
    var w := tx.w;
    if w.pc.Copy? then
      tx.(buf := tx.buf[w.put + w.k := w.data[w.pos + w.k]],
          w := w.(k := w.k + 1, pc := if w.k + 1 == w.n then Publish else Copy))
    else if w.pc.Publish? then
      tx.(put := Advance(w.put, w.n), w := w.(pos := w.pos + w.n, dirty := true, pc := Test))
    else if w.pc.Return? then
      tx.(w := Idle,
          done := tx.done + [WriteCall(w.data, w.nonblock, w.pos, ReturnCode(w.pos, w.nonblock))])
    else
      tx.(w := WriterMove(w, tx.put, tx.take, host))
  }

  /** One evaluation of either operand of the waiting loop of close. */
  function CloserNext(tx: Tx, host: Host): Tx
    requires tx.w.Closing?
  {
    if !tx.w.pollHost then
      if tx.take != tx.put then tx.(w := tx.w.(pollHost := true)) else CloseReturns(tx, 0)
    else if host.inactive >= host.timeout then CloseReturns(tx, 0)
    else if tx.w.nonblock then CloseReturns(tx, -EWOULDBLOCK)
    else tx.(w := tx.w.(pollHost := false))
  }

  function CloseReturns(tx: Tx, rc: int): Tx
  {
    tx.(w := Idle, closed := true, closeRc := rc)
  }

  /** A byte goes from the transmit ring to the data register; the hardware drops it when its FIFO is full. */
  function DrainOne(tx: Tx): Tx
  {
    var b := tx.buf[tx.take];
    tx.(fifo := if |tx.fifo| < FIFO_DEPTH then tx.fifo + [b] else tx.fifo,
        sent := tx.sent + [b], take := Advance(tx.take, 1))
  }

  /** The bytes finished writes took, in call order. */
  ghost function Moved(ws: seq<WriteRecord>): seq<Byte>
  {
    if ws == [] then [] else Moved(ws[..|ws| - 1]) + ws[|ws| - 1].data[..ws[|ws| - 1].moved]
  }

  /** Everything write has accepted so far: a byte counts once tx_in has moved past it. */
  ghost function Accepted(tx: Tx): seq<Byte>
    requires tx.w.Writing? ==> tx.w.pos <= |tx.w.data|
  {
    Moved(tx.done) + if tx.w.Writing? then tx.w.data[..tx.w.pos] else []
  }

  predicate WriterInv(tx: Tx, ever: bool)
  {
    tx.w.Writing? ==>
      var w := tx.w;
      && w.pos <= |w.data|
      && (w.pc.LoadOut? || w.pc.Copy? || w.pc.Publish? ==> w.put == tx.put && w.pos < |w.data|)
      && (w.pc.Copy? || w.pc.Publish? ==> CopyInv(tx))
      && (w.pc.Spin? || w.pc.SpinHost? || w.pc.HostCheck? ==> w.pos < |w.data| && !w.nonblock)
      && (w.dirty ==> w.pc.Test? || w.pc.LoadOut? || w.pc.Copy? || w.pc.Publish? || w.pc.Enable?)
      && (w.pc.Return? && !w.nonblock && !ever ==> w.pos == |w.data|)
  }

  /** During a memcpy the copied block is free, however stale the copy of tx_out has become. */
  predicate CopyInv(tx: Tx)
    requires tx.w.Writing? && tx.w.pos < |tx.w.data|
  {
    var w := tx.w;
    && 1 <= w.n <= |w.data| - w.pos
    && w.put + w.n <= BUF_LEN
    && Used(tx.take, tx.put) <= Used(w.out, tx.put)
    && Used(w.out, tx.put) + w.n < BUF_LEN
    && w.k <= w.n
    && (w.pc.Copy? <==> w.k < w.n)
    && tx.buf[w.put..w.put + w.k] == w.data[w.pos..w.pos + w.k]
  }

  ghost predicate WriteRecordOk(rec: WriteRecord, ever: bool)
  {
    && (rec.moved > 0 ==> rec.rc == rec.moved)
    && (rec.moved == 0 ==> rec.rc == if rec.nonblock then -EWOULDBLOCK else -EIO)
    && (!rec.nonblock && !ever ==> rec.moved == |rec.data|)
  }

  /** What write accepted is what reached the data register, then the ring; no byte is lost in the FIFO. */
  ghost predicate TxStream(tx: Tx)
  {
    && (tx.w.Writing? ==> tx.w.pos <= |tx.w.data|)
    && Accepted(tx) == tx.sent + Contents(tx.buf, tx.take, tx.put)
    && tx.sent == tx.drained + tx.fifo
    && |tx.fifo| <= FIFO_DEPTH
  }

  ghost predicate WriteRecordsOk(ws: seq<WriteRecord>, ever: bool)
  {
    forall i :: 0 <= i < |ws| ==> WriteRecordOk(ws[i], ever)
  }

  ghost predicate TxInv(tx: Tx, ever: bool)
  {
    TxStream(tx) && WriterInv(tx, ever) && WriteRecordsOk(tx.done, ever)
  }

  /** A close that returned 0 while the host was active has drained the ring. */
  ghost predicate CloseInv(tx: Tx, host: Host)
  {
    && (tx.closed ==> tx.w.Idle?)
    && (tx.closed && tx.closeRc == 0 && !host.ever && host.timeout > 0 ==> tx.take == tx.put)
  }

  /** A memcpy step touches only a slot the interrupt routine does not read. */
  lemma CopyStream(tx: Tx, host: Host)
    requires TxStream(tx) && WriterInv(tx, host.ever) && tx.w.Writing? && tx.w.pc.Copy?
    ensures !Live(tx.take, tx.put, tx.w.put + tx.w.k)
    ensures TxStream(WriterNext(tx, host))
  {
    var w := tx.w;
    FreeBlockIsDead(tx.take, tx.put, w.n, w.put + w.k);
    DeadWrite(tx.buf, tx.take, tx.put, w.put + w.k, w.data[w.pos + w.k]);
  }

  lemma CopyLocal(tx: Tx, host: Host)
    requires WriterInv(tx, host.ever) && tx.w.Writing? && tx.w.pc.Copy?
    ensures WriterInv(WriterNext(tx, host), host.ever)
  {
    var w, buf' := tx.w, WriterNext(tx, host).buf;
    ExtendOne(buf', w.put, w.put + w.k);
    ExtendOne(w.data, w.pos, w.pos + w.k);
    assert buf'[w.put..w.put + w.k] == tx.buf[w.put..w.put + w.k];
  }

  lemma PublishAccepts(tx: Tx, host: Host)
    requires WriterInv(tx, host.ever) && tx.w.Writing? && tx.w.pc.Publish?
    ensures Accepted(WriterNext(tx, host)) == Accepted(tx) + tx.buf[tx.put..tx.put + tx.w.n]
  {
    Extend(tx.w.data, 0, tx.w.pos, tx.w.pos + tx.w.n);
    Assoc(Moved(tx.done), tx.w.data[..tx.w.pos], tx.buf[tx.put..tx.put + tx.w.n]);
  }

  lemma PublishStream(tx: Tx, host: Host)
    requires TxStream(tx) && WriterInv(tx, host.ever) && tx.w.Writing? && tx.w.pc.Publish?
    ensures TxStream(WriterNext(tx, host))
    ensures Accepted(WriterNext(tx, host)) == Accepted(tx) + tx.w.data[tx.w.pos..tx.w.pos + tx.w.n]
  {
    PutBlock(tx.buf, tx.take, tx.put, tx.w.n);
    PublishAccepts(tx, host);
    Assoc(tx.sent, Contents(tx.buf, tx.take, tx.put), tx.buf[tx.put..tx.put + tx.w.n]);
  }

  lemma MovedAppend(ws: seq<WriteRecord>, rec: WriteRecord)
    ensures Moved(ws + [rec]) == Moved(ws) + rec.data[..rec.moved]
  {
    DropLast(ws, rec);
  }

  lemma ReturnStream(tx: Tx, host: Host)
    requires TxStream(tx) && WriterInv(tx, host.ever) && tx.w.Writing? && tx.w.pc.Return?
    ensures TxStream(WriterNext(tx, host))
  {
    var w := tx.w;
    MovedAppend(tx.done, WriteCall(w.data, w.nonblock, w.pos, ReturnCode(w.pos, w.nonblock)));
    assert Accepted(WriterNext(tx, host)) == Accepted(tx);
  }

  lemma MoveKeeps(tx: Tx, host: Host)
    requires TxInv(tx, host.ever)
    requires tx.w.Writing? && !tx.w.pc.Copy? && !tx.w.pc.Publish? && !tx.w.pc.Return?
    requires !host.ever ==> host.inactive == 0
    ensures TxInv(WriterNext(tx, host), host.ever)
  {
    assert Accepted(WriterNext(tx, host)) == Accepted(tx);
  }

  lemma WriterStepKeeps(tx: Tx, host: Host)
    requires TxInv(tx, host.ever) && tx.w.Writing?
    requires !host.ever ==> host.inactive == 0
    ensures TxInv(WriterNext(tx, host), host.ever)
  {
    if tx.w.pc.Copy? {
      CopyStream(tx, host);
      CopyLocal(tx, host);
    } else if tx.w.pc.Publish? {
      PublishStream(tx, host);
    } else if tx.w.pc.Return? {
      ReturnStream(tx, host);
    } else {
      MoveKeeps(tx, host);
    }
  }

  lemma CloserStepKeeps(tx: Tx, host: Host)
    requires TxInv(tx, host.ever) && tx.w.Closing?
    ensures TxInv(CloserNext(tx, host), host.ever)
  {
  }

  lemma DrainStream(tx: Tx)
    requires TxStream(tx) && tx.take != tx.put && |tx.fifo| < FIFO_DEPTH
    ensures TxStream(DrainOne(tx))
  {
    var live, b := Contents(tx.buf, tx.take, tx.put), [tx.buf[tx.take]];
    TakeBlock(tx.buf, tx.take, tx.put, 1);
    Extend(live, 0, 1, |live|);
    assert live[0..|live|] == live && live[0..1] == b;
    Assoc(tx.sent, b, live[1..]);
    Assoc(tx.drained, tx.fifo, b);
  }

  /** The interrupt routine only widens the gap the writer computed. */
  lemma DrainLocal(tx: Tx, ever: bool)
    requires WriterInv(tx, ever) && tx.take != tx.put
    ensures WriterInv(DrainOne(tx), ever)
  {
    UsedAfterTake(tx.take, tx.put, 1);
  }

  lemma DrainKeeps(tx: Tx, ever: bool)
    requires TxInv(tx, ever) && tx.take != tx.put && |tx.fifo| < FIFO_DEPTH
    ensures TxInv(DrainOne(tx), ever)
  {
    DrainStream(tx);
    DrainLocal(tx, ever);
  }

  // ----------------------------------------------------------------------------------------------
  // The receive side
  // ----------------------------------------------------------------------------------------------

  /** How many bytes the reader may take in one block, from a copy of the producer's index and its own. */
  function Available(seen: Index, take: Index): nat
  {
    if seen >= take then seen - take else BUF_LEN - take
  }

  /** The steps of read that change nothing but its own local variables. */
  function ReaderMove(r: Reader, put: Index, take: Index, host: Host): (r': Reader)
    requires r.Reading? && !r.pc.RCopy? && !r.pc.RPublish? && !r.pc.RFinish?
    requires r.pos <= r.space
    ensures r'.Reading? && r'.got == r.got && r'.pos == r.pos && r'.space == r.space && r'.nonblock == r.nonblock
  {
    match r.pc
    case RTest => r.(pc := if r.pos < r.space then RLoadIn else RFinish)
    case RLoadIn =>
      var avail := Available(put, take);
      if avail == 0 then r.(seen := put, pc := RAfter)
      else r.(seen := put, n := Min(avail, r.space - r.pos), k := 0, pc := RCopy)
    case RAfter => r.(pc := if r.pos != 0 || r.nonblock then RFinish else RSpin)
    case RSpin => r.(pc := if r.seen == put then RSpinHost else RCheck)
    case RSpinHost => r.(pc := if host.inactive < host.timeout then RSpin else RCheck)
    case RCheck => r.(pc := if r.seen == put then RFinish else RTest)
  }

  function ReaderNext(rx: Rx, host: Host): Rx
    requires rx.r.Reading? && ReaderInv(rx, host.Lost())
  {
    var r := rx.r;
    if r.pc.RCopy? then
      rx.(r := r.(got := r.got + [rx.buf[rx.take + r.k]], k := r.k + 1,
                  pc := if r.k + 1 == r.n then RPublish else RCopy))
    else if r.pc.RPublish? then
      rx.(take := Advance(rx.take, r.n),
          r := r.(pos := r.pos + r.n, pc := if r.pos + r.n < r.space then RLoadIn else RAfter))
    else if r.pc.RFinish? then
      rx.(r := RIdle, done := rx.done + [ReadRecord(r.space, r.nonblock, r.got, ReturnCode(r.pos, r.nonblock))])
    else
      rx.(r := ReaderMove(r, rx.put, rx.take, host))
  }

  /** A byte goes from the data register to the receive ring. */
  function FillOne(rx: Rx): Rx
    requires rx.fifo != []
  {
    rx.(fifo := rx.fifo[1..], popped := rx.popped + [rx.fifo[0]],
        buf := rx.buf[rx.put := rx.fifo[0]], put := Advance(rx.put, 1))
  }

  /** The bytes finished reads delivered, in call order. */
  ghost function Delivered(rs: seq<ReadRecord>): seq<Byte>
  {
    if rs == [] then [] else Delivered(rs[..|rs| - 1]) + rs[|rs| - 1].bytes
  }

  /** Everything read has consumed so far. */
  ghost function Consumed(rx: Rx): seq<Byte>
    requires rx.r.Reading? ==> rx.r.pos <= |rx.r.got|
  {
    Delivered(rx.done) + if rx.r.Reading? then rx.r.got[..rx.r.pos] else []
  }

  predicate ReaderInv(rx: Rx, lost: bool)
  {
    rx.r.Reading? ==>
      var r := rx.r;
      && r.pos <= |r.got| && r.pos <= r.space
      && (!r.pc.RCopy? && !r.pc.RPublish? ==> |r.got| == r.pos)
      && (r.pc.RLoadIn? ==> r.pos < r.space)
      && (r.pc.RTest? || r.pc.RSpin? || r.pc.RSpinHost? || r.pc.RCheck? ==> r.pos == 0)
      && (r.pc.RCopy? || r.pc.RPublish? ==> TakeInv(rx))
      && (r.pos == 0 && (r.pc.RAfter? || r.pc.RSpin? || r.pc.RSpinHost? || r.pc.RCheck?) ==> r.seen == rx.take)
      && (r.pc.RSpin? || r.pc.RSpinHost? || r.pc.RCheck? ==> !r.nonblock)
      && (r.pc.RCheck? && !lost ==> rx.put != rx.take)
      && (r.pc.RFinish? && !r.nonblock && !lost ==> r.pos != 0 || r.space == 0)
  }

  /** During a memcpy the copied block is live. */
  predicate TakeInv(rx: Rx)
    requires rx.r.Reading? && rx.r.pos <= rx.r.space
  {
    var r := rx.r;
    && 1 <= r.n <= r.space - r.pos
    && r.n <= Used(rx.take, rx.put)
    && rx.take + r.n <= BUF_LEN
    && r.k <= r.n
    && (r.pc.RCopy? <==> r.k < r.n)
    && |r.got| == r.pos + r.k
    && r.got[r.pos..] == rx.buf[rx.take..rx.take + r.k]
  }

  ghost predicate ReadRecordOk(rec: ReadRecord, lost: bool)
  {
    && (!rec.nonblock && rec.space > 0 && !lost ==> rec.bytes != [])
    && |rec.bytes| <= rec.space
    && (|rec.bytes| > 0 ==> rec.rc == |rec.bytes|)
    && (|rec.bytes| == 0 ==> rec.rc == if rec.nonblock then -EWOULDBLOCK else -EIO)
  }

  /** What the interrupt routine popped is what read consumed, then the ring. */
  ghost predicate RxStream(rx: Rx)
  {
    && (rx.r.Reading? ==> rx.r.pos <= |rx.r.got|)
    && rx.popped == Consumed(rx) + Contents(rx.buf, rx.take, rx.put)
    && rx.typed == rx.popped + rx.fifo
    && |rx.fifo| <= FIFO_DEPTH
  }

  ghost predicate ReadRecordsOk(rs: seq<ReadRecord>, lost: bool)
  {
    forall i :: 0 <= i < |rs| ==> ReadRecordOk(rs[i], lost)
  }

  ghost predicate RxInv(rx: Rx, lost: bool)
  {
    RxStream(rx) && ReaderInv(rx, lost) && ReadRecordsOk(rx.done, lost)
  }

  /** The slot a copy reads from holds an unread byte: it is none that the interrupt routine may fill. */
  lemma TakeStream(rx: Rx, host: Host)
    requires RxStream(rx) && ReaderInv(rx, host.Lost()) && rx.r.Reading? && rx.r.pc.RCopy?
    ensures RxStream(ReaderNext(rx, host))
    ensures rx.take + rx.r.k < BUF_LEN && Live(rx.take, rx.put, rx.take + rx.r.k) && rx.take + rx.r.k != rx.put
  {
    KeepsPrefix(rx.r.got, rx.buf[rx.take + rx.r.k], rx.r.pos);
    assert Consumed(ReaderNext(rx, host)) == Consumed(rx);
  }

  lemma TakeLocal(rx: Rx, host: Host)
    requires ReaderInv(rx, host.Lost()) && rx.r.Reading? && rx.r.pc.RCopy?
    ensures ReaderInv(ReaderNext(rx, host), host.Lost())
  {
    ExtendOne(rx.buf, rx.take, rx.take + rx.r.k);
    KeepsPrefix(rx.r.got, rx.buf[rx.take + rx.r.k], rx.r.pos);
  }

  lemma ConsumeMore(rx: Rx, host: Host)
    requires ReaderInv(rx, host.Lost()) && rx.r.Reading? && rx.r.pc.RPublish?
    ensures Consumed(ReaderNext(rx, host)) == Consumed(rx) + rx.buf[rx.take..rx.take + rx.r.n]
  {
    Extend(rx.r.got, 0, rx.r.pos, rx.r.pos + rx.r.n);
    Assoc(Delivered(rx.done), rx.r.got[..rx.r.pos], rx.buf[rx.take..rx.take + rx.r.n]);
  }

  lemma ConsumeStream(rx: Rx, host: Host)
    requires RxStream(rx) && ReaderInv(rx, host.Lost()) && rx.r.Reading? && rx.r.pc.RPublish?
    ensures RxStream(ReaderNext(rx, host))
  {
    var n, live := rx.r.n, Contents(rx.buf, rx.take, rx.put);
    TakeBlock(rx.buf, rx.take, rx.put, n);
    ConsumeMore(rx, host);
    Assoc(Consumed(rx), live[..n], live[n..]);
    assert live[..n] + live[n..] == live;
  }

  lemma DeliveredAppend(rs: seq<ReadRecord>, rec: ReadRecord)
    ensures Delivered(rs + [rec]) == Delivered(rs) + rec.bytes
  {
    DropLast(rs, rec);
  }

  lemma FinishStream(rx: Rx, host: Host)
    requires RxStream(rx) && ReaderInv(rx, host.Lost()) && rx.r.Reading? && rx.r.pc.RFinish?
    ensures RxStream(ReaderNext(rx, host))
  {
    var r := rx.r;
    assert r.got[..r.pos] == r.got;
    DeliveredAppend(rx.done, ReadRecord(r.space, r.nonblock, r.got, ReturnCode(r.pos, r.nonblock)));
    assert Consumed(ReaderNext(rx, host)) == Consumed(rx);
  }

  lemma ReaderMoveKeeps(rx: Rx, host: Host)
    requires !host.ever ==> host.inactive == 0
    requires RxInv(rx, host.Lost()) && rx.r.Reading? && !rx.r.pc.RCopy? && !rx.r.pc.RPublish? && !rx.r.pc.RFinish?
    ensures RxInv(ReaderNext(rx, host), host.Lost())
  {
    assert Consumed(ReaderNext(rx, host)) == Consumed(rx);
  }

  lemma ReaderStepKeeps(rx: Rx, host: Host)
    requires RxInv(rx, host.Lost()) && rx.r.Reading?
    requires !host.ever ==> host.inactive == 0
    ensures RxInv(ReaderNext(rx, host), host.Lost())
  {
    if rx.r.pc.RCopy? {
      TakeStream(rx, host);
      TakeLocal(rx, host);
    } else if rx.r.pc.RPublish? {
      ConsumeStream(rx, host);
    } else if rx.r.pc.RFinish? {
      FinishStream(rx, host);
    } else {
      ReaderMoveKeeps(rx, host);
    }
  }

  lemma FillStream(rx: Rx)
    requires RxStream(rx) && rx.fifo != [] && !Full(rx.take, rx.put)
    ensures RxStream(FillOne(rx))
  {
    var live, b := Contents(rx.buf, rx.take, rx.put), [rx.fifo[0]];
    PutOne(rx.buf, rx.take, rx.put, rx.fifo[0]);
    Assoc(Consumed(rx), live, b);
    Assoc(rx.popped, b, rx.fifo[1..]);
    assert b + rx.fifo[1..] == rx.fifo;
  }

  /** No unread byte is overwritten. */
  lemma FillLocal(rx: Rx, lost: bool)
    requires ReaderInv(rx, lost) && rx.fifo != [] && !Full(rx.take, rx.put)
    ensures ReaderInv(FillOne(rx), lost)
  {
    UsedAfterPut(rx.take, rx.put, 1);
  }

  lemma FillKeeps(rx: Rx, lost: bool)
    requires RxInv(rx, lost) && rx.fifo != [] && !Full(rx.take, rx.put)
    ensures RxInv(FillOne(rx), lost)
  {
    FillStream(rx);
    FillLocal(rx, lost);
  }

  // ----------------------------------------------------------------------------------------------
  // The whole system
  // ----------------------------------------------------------------------------------------------

  /** The state after the initialisation routine: only receive interrupts are enabled. */
  function Init(txBuf: Buffer, rxBuf: Buffer, timeout: nat): Uart
  {
    Uart(Tx(txBuf, 0, 0, [], [], [], Idle, [], false, 0), Rx(rxBuf, 0, 0, [], [], [], RIdle, []),
         Port(Enables(true, false), Enables(true, false), Off), Host(0, false, false, timeout))
  }

  /** The control register; a receive interrupt needs a nearly full FIFO or a pause of the host. */
  function ReadControl(ctl: Enables, rxFifo: seq<Byte>, txFifo: seq<Byte>, pause: bool): Control
    requires |txFifo| <= FIFO_DEPTH && |rxFifo| <= FIFO_DEPTH
  {
    Control(ctl.re && rxFifo != [] && (pause || FIFO_DEPTH - |rxFifo| <= READ_THRESHOLD),
            ctl.we && |txFifo| <= WRITE_THRESHOLD,
            FIFO_DEPTH - |txFifo|)
  }

  /** The driver's copy of the enable bits changes and is written to the control register. */
  function SetEnables(port: Port, e: Enables, isr: Isr): Port
  {
    port.(irqEnable := e, ctl := e, isr := isr)
  }

  /** What the steps rely on to stay within the buffers. */
  predicate Ready(s: Uart)
  {
    && WriterInv(s.tx, s.host.ever) && ReaderInv(s.rx, s.host.Lost())
    && |s.tx.fifo| <= FIFO_DEPTH && |s.rx.fifo| <= FIFO_DEPTH
  }

  function IsrNext(s: Uart, pause: bool): Uart
    requires Ready(s)
  {
    var p := s.port;
    match p.isr
    case Off => s
    case Poll =>
      var c := ReadControl(p.ctl, s.rx.fifo, s.tx.fifo, pause);
      s.(port := p.(isr := if !c.ri && !c.wi then Off else if c.ri then Fill(1, c) else Drain(c.wspace)))
    case Fill(avail, c) =>
      if Advance(s.rx.put, 1) == s.rx.take then s.(port := p.(isr := FillEnd(avail, c)))
      else if s.rx.fifo == [] then s.(port := p.(isr := FillEnd(0, c)))
      else s.(port := p.(isr := Fill(|s.rx.fifo| - 1, c)), rx := FillOne(s.rx))
    case FillEnd(avail, c) =>
      var next := if c.wi then Drain(c.wspace) else Poll;
      s.(port := if avail > 0 then SetEnables(p, p.irqEnable.(re := false), next) else p.(isr := next))
    case Drain(space) =>
      if space > 0 && s.tx.take != s.tx.put
      then s.(port := p.(isr := Drain(space - 1)), tx := DrainOne(s.tx))
      else s.(port := p.(isr := DrainEnd(space)))
    case DrainEnd(space) =>
      s.(port := if space > 0 then SetEnables(p, p.irqEnable.(we := false), Poll) else p.(isr := Poll))
  }

  /** The once-a-second check for host activity. */
  function TimerNext(s: Uart): Uart
  {
    if s.host.ac then
      s.(port := s.port.(ctl := s.port.irqEnable), host := s.host.(ac := false, inactive := 0))
    else if s.host.inactive < INT_MAX - 2 then
      s.(host := s.host.(inactive := s.host.inactive + 1, ever := true))
    else s
  }

  /** A byte arrives from the host, or the host takes one. */
  function HostNext(s: Uart, a: Action): Uart
    requires a.HostSend? || a.HostDrain?
  {
    match a
    case HostSend(b) =>
      if |s.rx.fifo| < FIFO_DEPTH
      then s.(host := s.host.(ac := true), rx := s.rx.(fifo := s.rx.fifo + [b], typed := s.rx.typed + [b])) else s
    case HostDrain =>
      if s.tx.fifo != []
      then s.(host := s.host.(ac := true),
              tx := s.tx.(fifo := s.tx.fifo[1..], drained := s.tx.drained + [s.tx.fifo[0]])) else s
  }

  /** What can happen only while the interrupt routine is not running. */
  function ThreadNext(s: Uart, a: Action): Uart
    requires Ready(s)
  {
    var p := s.port;
    match a
    case Timer => TimerNext(s)
    case Interrupt => s.(port := p.(isr := Poll))
    case Write(data, nonblock) =>
      if s.tx.w.Idle?
      then s.(tx := s.tx.(w := Writing(Test, data, nonblock, 0, 0, 0, 0, 0, false), closed := false)) else s
    case Close(nonblock) =>
      if s.tx.w.Idle? then s.(tx := s.tx.(w := Closing(false, nonblock), closed := false)) else s
    case WriterStep =>
      if s.tx.w.Writing? then
        s.(tx := WriterNext(s.tx, s.host),
           port := if s.tx.w.pc.Enable? then SetEnables(p, p.irqEnable.(we := true), Off) else p)
      else if s.tx.w.Closing? then s.(tx := CloserNext(s.tx, s.host)) else s
    case Read(space, nonblock) =>
      if s.rx.r.RIdle? then s.(rx := s.rx.(r := Reading(RTest, space, nonblock, [], 0, 0, 0, 0))) else s
    case ReaderStep =>
      if s.rx.r.Reading? then
        s.(rx := ReaderNext(s.rx, s.host),
           port := if s.rx.r.pc.RFinish? && s.rx.r.pos != 0
                   then SetEnables(p, p.irqEnable.(re := true), Off) else p)
      else s
    case _ => s
  }

  /** One step of the whole system; an action that is not enabled changes nothing. */
  function Next(s: Uart, a: Action): Uart
    requires Ready(s)
  {
    if a.HostSend? || a.HostDrain? then HostNext(s, a)
    else if a.IsrStep? then IsrNext(s, a.pause)
    else if s.port.isr.Off? then ThreadNext(s, a)
    else s
  }

  /** Between advancing tx_in and setting WE. */
  predicate WriterOwes(tx: Tx)
  {
    tx.w.Writing? && tx.w.dirty
  }

  /** Between advancing rx_out and setting RE. */
  predicate ReaderOwes(rx: Rx)
  {
    rx.r.Reading? && rx.r.pos != 0
  }

  ghost predicate PortInv(port: Port, space: int, txEmpty: bool, rxFull: bool, writerOwes: bool, readerOwes: bool)
  {
    && port.ctl == port.irqEnable
    && (txEmpty || port.irqEnable.we || writerOwes)
    && (port.irqEnable.re || rxFull || readerOwes)
    && match port.isr
       case Off => true
       case Poll => true
       case Fill(avail, c) => c.wspace <= space
       case FillEnd(avail, c) => c.wspace <= space && (avail > 0 ==> rxFull)
       case Drain(left) => left <= space
       case DrainEnd(left) => left <= space && (left > 0 ==> txEmpty)
  }

  /** How the sides, the interrupt bits and the host hang together. */
  ghost predicate LinkInv(s: Uart)
  {
    && PortInv(s.port, FIFO_DEPTH - |s.tx.fifo|, s.tx.take == s.tx.put, Full(s.rx.take, s.rx.put),
               WriterOwes(s.tx), ReaderOwes(s.rx))
    && CloseInv(s.tx, s.host)
    && (!s.host.ever ==> s.host.inactive == 0)
  }

  ghost predicate Inv(s: Uart)
  {
    TxInv(s.tx, s.host.ever) && RxInv(s.rx, s.host.Lost()) && LinkInv(s)
  }

  lemma InitInv(txBuf: Buffer, rxBuf: Buffer, timeout: nat)
    ensures Inv(Init(txBuf, rxBuf, timeout))
  {
  }

  lemma WriterLink(s: Uart)
    requires Ready(s) && LinkInv(s) && s.port.isr.Off? && !s.tx.w.Idle?
    ensures LinkInv(ThreadNext(s, WriterStep))
  {
    if s.tx.w.Writing? && s.tx.w.pc.Publish? { UsedAfterPut(s.tx.take, s.tx.put, s.tx.w.n); }
  }

  lemma WriterThreadKeeps(s: Uart)
    requires Inv(s) && s.port.isr.Off? && !s.tx.w.Idle?
    ensures Inv(ThreadNext(s, WriterStep))
  {
    WriterLink(s);
    if s.tx.w.Writing? { WriterStepKeeps(s.tx, s.host); } else { CloserStepKeeps(s.tx, s.host); }
  }

  lemma ReaderLink(s: Uart)
    requires Ready(s) && LinkInv(s) && s.port.isr.Off? && s.rx.r.Reading?
    ensures LinkInv(ThreadNext(s, ReaderStep))
  {
  }

  lemma ReaderThreadKeeps(s: Uart)
    requires Inv(s) && s.port.isr.Off? && s.rx.r.Reading?
    ensures Inv(ThreadNext(s, ReaderStep))
  {
    ReaderLink(s);
    ReaderStepKeeps(s.rx, s.host);
  }

  lemma ReadCallKeeps(s: Uart, a: Action)
    requires Inv(s) && s.port.isr.Off? && a.Read?
    ensures Inv(ThreadNext(s, a))
  {
    assert Consumed(ThreadNext(s, a).rx) == Consumed(s.rx);
  }

  lemma WriteCallKeeps(s: Uart, a: Action)
    requires Inv(s) && s.port.isr.Off? && (a.Write? || a.Close?)
    ensures Inv(ThreadNext(s, a))
  {
    assert Accepted(ThreadNext(s, a).tx) == Accepted(s.tx);
  }

  lemma InactivityWeakens(tx: Tx, rx: Rx, ever: bool, lost: bool)
    requires TxInv(tx, ever) && RxInv(rx, lost)
    ensures TxInv(tx, true) && RxInv(rx, true)
  {
  }

  lemma TimerKeeps(s: Uart)
    requires Inv(s) && s.port.isr.Off?
    ensures Inv(TimerNext(s))
  {
    InactivityWeakens(s.tx, s.rx, s.host.ever, s.host.Lost());
  }

  lemma FillStepKeeps(s: Uart)
    requires Inv(s) && (s.port.isr.Fill? || s.port.isr.FillEnd?)
    ensures Inv(IsrNext(s, false))
  {
    FullTest(s.rx.take, s.rx.put);
    if s.port.isr.Fill? && Advance(s.rx.put, 1) != s.rx.take && s.rx.fifo != [] { FillKeeps(s.rx, s.host.Lost()); }
  }

  lemma DrainStepKeeps(s: Uart)
    requires Inv(s) && (s.port.isr.Drain? || s.port.isr.DrainEnd?)
    ensures Inv(IsrNext(s, false))
  {
    if s.port.isr.Drain? && s.port.isr.space > 0 && s.tx.take != s.tx.put { DrainKeeps(s.tx, s.host.ever); }
  }

  lemma IsrStepKeeps(s: Uart, pause: bool)
    requires Inv(s)
    ensures Inv(IsrNext(s, pause))
  {
    if s.port.isr.Fill? || s.port.isr.FillEnd? {
      FillStepKeeps(s);
    } else if s.port.isr.Drain? || s.port.isr.DrainEnd? {
      DrainStepKeeps(s);
    }
  }

  lemma HostSendKeeps(s: Uart, b: Byte)
    requires Inv(s)
    ensures Inv(HostNext(s, HostSend(b)))
  {
    Assoc(s.rx.popped, s.rx.fifo, [b]);
  }

  lemma DrainKeepsTx(tx: Tx, ever: bool)
    requires TxInv(tx, ever) && tx.fifo != []
    ensures TxInv(tx.(fifo := tx.fifo[1..], drained := tx.drained + [tx.fifo[0]]), ever)
  {
    Assoc(tx.drained, [tx.fifo[0]], tx.fifo[1..]);
    assert [tx.fifo[0]] + tx.fifo[1..] == tx.fifo;
  }

  lemma HostDrainKeeps(s: Uart)
    requires Inv(s)
    ensures Inv(HostNext(s, HostDrain))
  {
    if s.tx.fifo != [] { DrainKeepsTx(s.tx, s.host.ever); }
  }

  /** The transmit interrupt is turned off only by the interrupt routine, and only with the ring empty. */
  lemma WeClearedOnlyWhenEmpty(s: Uart, a: Action)
    requires Ready(s) && LinkInv(s) && s.port.irqEnable.we && !Next(s, a).port.irqEnable.we
    ensures a.IsrStep? && s.tx.take == s.tx.put
  {
  }

  /** A read that moved a byte leaves receive interrupts on when it returns. */
  lemma ReadTurnsInterruptsOn(s: Uart)
    requires Ready(s) && s.port.isr.Off? && s.rx.r.Reading? && s.rx.r.pc.RFinish? && s.rx.r.pos != 0
    ensures Next(s, ReaderStep).port.irqEnable.re && Next(s, ReaderStep).port.ctl.re
  {
  }

  /** Every step of the system keeps the invariant. */
  lemma StepKeeps(s: Uart, a: Action)
    requires Inv(s)
    ensures Inv(Next(s, a))
  {
    if a.HostSend? {
      HostSendKeeps(s, a.b);
    } else if a.HostDrain? {
      HostDrainKeeps(s);
    } else if a.IsrStep? {
      IsrStepKeeps(s, a.pause);
    } else if s.port.isr.Off? {
      if a.WriterStep? {
        if !s.tx.w.Idle? { WriterThreadKeeps(s); }
      } else if a.ReaderStep? {
        if s.rx.r.Reading? { ReaderThreadKeeps(s); }
      } else if a.Timer? {
        TimerKeeps(s);
      } else if a.Write? || a.Close? {
        WriteCallKeeps(s, a);
      } else if a.Read? {
        ReadCallKeeps(s, a);
      }
    }
  }
}
