/**
 What holds in every state a run of the fast driver can reach, whatever the writer, the reader, the
 interrupt routine, the timer and the host do and in whatever order.
 */
module JtagUartRuns {
  import opened Ring
  import opened JtagUart
  import opened Runs
  import opened Sequences

  /** One step of the machine, from any state. */
  function Step(s: Uart, a: Action): Uart
  {
    if Ready(s) then Next(s, a) else s
  }

  /** The state after a sequence of actions. */
  function Exec(s: Uart, acts: seq<Action>): Uart
  {
    Run(Step, s, acts)
  }

  /** Every run keeps the invariant. */
  lemma {:induction false} ExecKeeps(s: Uart, acts: seq<Action>)
    requires Inv(s)
    ensures Inv(Exec(s, acts))
  {
    if acts != [] {
      ExecKeeps(s, acts[..|acts| - 1]);
      StepKeeps(Exec(s, acts[..|acts| - 1]), acts[|acts| - 1]);
    }
  }

  /** The state a run from power-up reaches. */
  function Reach(txBuf: Buffer, rxBuf: Buffer, timeout: nat, acts: seq<Action>): Uart
  {
    Exec(Init(txBuf, rxBuf, timeout), acts)
  }

  lemma ReachKeeps(txBuf: Buffer, rxBuf: Buffer, timeout: nat, acts: seq<Action>)
    ensures Inv(Reach(txBuf, rxBuf, timeout, acts))
  {
    InitInv(txBuf, rxBuf, timeout);
    ExecKeeps(Init(txBuf, rxBuf, timeout), acts);
  }

  /** No byte is lost, repeated or reordered between a caller of write and the host. */
  lemma TransmitStream(txBuf: Buffer, rxBuf: Buffer, timeout: nat, acts: seq<Action>)
    ensures var tx := Reach(txBuf, rxBuf, timeout, acts).tx;
            && (tx.w.Writing? ==> tx.w.pos <= |tx.w.data|)
            && Accepted(tx) == tx.drained + tx.fifo + Contents(tx.buf, tx.take, tx.put)
            && tx.sent == tx.drained + tx.fifo
  {
    ReachKeeps(txBuf, rxBuf, timeout, acts);
  }

  /** No byte is lost, repeated or reordered between the host and the callers of read. */
  lemma ReceiveStream(txBuf: Buffer, rxBuf: Buffer, timeout: nat, acts: seq<Action>)
    ensures var rx := Reach(txBuf, rxBuf, timeout, acts).rx;
            && (rx.r.Reading? ==> rx.r.pos <= |rx.r.got|)
            && rx.popped == Consumed(rx) + Contents(rx.buf, rx.take, rx.put)
            && rx.typed == Consumed(rx) + Contents(rx.buf, rx.take, rx.put) + rx.fifo
  {
    ReachKeeps(txBuf, rxBuf, timeout, acts);
  }

  /**
   While write copies a block, its copy of tx_out never claims more room than there is, none of the
   block's slots can be read by the interrupt routine, and publishing it leaves a slot free.
   */
  lemma StaleCopyIsSafe(txBuf: Buffer, rxBuf: Buffer, timeout: nat, acts: seq<Action>)
    ensures var tx := Reach(txBuf, rxBuf, timeout, acts).tx;
            tx.w.Writing? && (tx.w.pc.Copy? || tx.w.pc.Publish?) ==>
              && Used(tx.take, tx.put) <= Used(tx.w.out, tx.put)
              && Used(tx.take, Advance(tx.put, tx.w.n)) == Used(tx.take, tx.put) + tx.w.n < BUF_LEN
              && forall i :: tx.put <= i < tx.put + tx.w.n ==> i < BUF_LEN && !Live(tx.take, tx.put, i)
  {
    ReachKeeps(txBuf, rxBuf, timeout, acts);
    var tx := Reach(txBuf, rxBuf, timeout, acts).tx;
    if tx.w.Writing? && (tx.w.pc.Copy? || tx.w.pc.Publish?) {
      UsedAfterPut(tx.take, tx.put, tx.w.n);
    }
  }

  /** A byte waiting in the transmit ring is never forgotten: the transmit interrupt is on, or about to be. */
  lemma NoLostWakeup(txBuf: Buffer, rxBuf: Buffer, timeout: nat, acts: seq<Action>)
    ensures var s := Reach(txBuf, rxBuf, timeout, acts);
            Contents(s.tx.buf, s.tx.take, s.tx.put) != [] ==>
              (s.port.irqEnable.we && s.port.ctl.we) || WriterOwes(s.tx)
  {
    ReachKeeps(txBuf, rxBuf, timeout, acts);
  }

  /** The receive interrupt is off only while the receive ring is full, or about to be turned on. */
  lemma NoStuckReceiver(txBuf: Buffer, rxBuf: Buffer, timeout: nat, acts: seq<Action>)
    ensures var s := Reach(txBuf, rxBuf, timeout, acts);
            !s.port.ctl.re ==> |Contents(s.rx.buf, s.rx.take, s.rx.put)| == BUF_LEN - 1 || ReaderOwes(s.rx)
  {
    ReachKeeps(txBuf, rxBuf, timeout, acts);
  }

  /** The interrupt routine turns transmit interrupts off only when the ring is empty. */
  lemma TransmitOffOnlyWhenEmpty(txBuf: Buffer, rxBuf: Buffer, timeout: nat, acts: seq<Action>, a: Action)
    ensures var s, s' := Reach(txBuf, rxBuf, timeout, acts), Reach(txBuf, rxBuf, timeout, acts + [a]);
            s.port.irqEnable.we && !s'.port.irqEnable.we ==>
              a.IsrStep? && Contents(s.tx.buf, s.tx.take, s.tx.put) == []
  {
    ReachKeeps(txBuf, rxBuf, timeout, acts);
    RunOneMore(Step, Init(txBuf, rxBuf, timeout), acts, a);
    var s := Reach(txBuf, rxBuf, timeout, acts);
    if s.port.irqEnable.we && !Step(s, a).port.irqEnable.we { WeClearedOnlyWhenEmpty(s, a); }
  }

  lemma ReadEnds(s: Uart, a: Action)
    requires Ready(s)
    ensures var s' := Next(s, a);
            s'.rx.done == s.rx.done
            || (&& |s'.rx.done| == |s.rx.done| + 1 && s'.rx.done[..|s.rx.done|] == s.rx.done
                && (s'.rx.done[|s.rx.done|].bytes != [] ==> s'.port.irqEnable.re && s'.port.ctl.re))
  {
    if a.ReaderStep? && s.port.isr.Off? && s.rx.r.Reading? && s.rx.r.pc.RFinish? && s.rx.r.pos != 0 {
      ReadTurnsInterruptsOn(s);
    }
  }

  /** Whatever step ends a read that moved a byte leaves receive interrupts on, in the copy and in the device. */
  lemma ReadEndsWithInterruptsOn(txBuf: Buffer, rxBuf: Buffer, timeout: nat, acts: seq<Action>, a: Action)
    ensures var s, s' := Reach(txBuf, rxBuf, timeout, acts), Reach(txBuf, rxBuf, timeout, acts + [a]);
            s'.rx.done == s.rx.done
            || (&& |s'.rx.done| == |s.rx.done| + 1 && s'.rx.done[..|s.rx.done|] == s.rx.done
                && (s'.rx.done[|s.rx.done|].bytes != [] ==> s'.port.irqEnable.re && s'.port.ctl.re))
  {
    ReachKeeps(txBuf, rxBuf, timeout, acts);
    RunOneMore(Step, Init(txBuf, rxBuf, timeout), acts, a);
    ReadEnds(Reach(txBuf, rxBuf, timeout, acts), a);
  }

  /** A call returns an error exactly when it moved no byte, and the count of moved bytes otherwise. */
  lemma ErrorMeansNothingMoved(txBuf: Buffer, rxBuf: Buffer, timeout: nat, acts: seq<Action>)
    ensures var s := Reach(txBuf, rxBuf, timeout, acts);
            && (forall i :: 0 <= i < |s.tx.done| ==>
                  var rec := s.tx.done[i];
                  && (rec.rc < 0 <==> rec.moved == 0)
                  && (rec.rc >= 0 ==> rec.rc == rec.moved)
                  && (rec.rc < 0 ==> rec.rc == if rec.nonblock then -EWOULDBLOCK else -EIO))
            && (forall i :: 0 <= i < |s.rx.done| ==>
                  var rec := s.rx.done[i];
                  && |rec.bytes| <= rec.space
                  && (rec.rc < 0 <==> rec.bytes == [])
                  && (rec.rc >= 0 ==> rec.rc == |rec.bytes|)
                  && (rec.rc < 0 ==> rec.rc == if rec.nonblock then -EWOULDBLOCK else -EIO))
  {
    ReachKeeps(txBuf, rxBuf, timeout, acts);
    var s := Reach(txBuf, rxBuf, timeout, acts);
    forall i | 0 <= i < |s.tx.done| ensures WriteRecordOk(s.tx.done[i], s.host.ever) {}
    forall i | 0 <= i < |s.rx.done| ensures ReadRecordOk(s.rx.done[i], s.host.Lost()) {}
  }

  /** As long as the host stays active, a blocking call moves everything (write) or something (read). */
  lemma ActiveHostServesBlockingCalls(txBuf: Buffer, rxBuf: Buffer, timeout: nat, acts: seq<Action>)
    ensures var s := Reach(txBuf, rxBuf, timeout, acts);
            !s.host.ever && timeout > 0 ==>
              && (forall i :: 0 <= i < |s.tx.done| && !s.tx.done[i].nonblock ==>
                    s.tx.done[i].moved == |s.tx.done[i].data|)
              && (forall i :: 0 <= i < |s.rx.done| && !s.rx.done[i].nonblock && s.rx.done[i].space > 0 ==>
                    s.rx.done[i].bytes != [])
  {
    ReachKeeps(txBuf, rxBuf, timeout, acts);
    var s := Reach(txBuf, rxBuf, timeout, acts);
    TimeoutIsFixed(Init(txBuf, rxBuf, timeout), acts);
    if !s.host.ever && timeout > 0 {
      forall i | 0 <= i < |s.tx.done| ensures WriteRecordOk(s.tx.done[i], false) {}
      forall i | 0 <= i < |s.rx.done| ensures ReadRecordOk(s.rx.done[i], false) {}
    }
  }

  /**
   When a finished write that blocks has returned what the small driver returns, the length of its argument: exactly
   when it moved all of an argument that is not empty. Under a host that stays active it fails only for no bytes.
   */
  lemma WriteReturnsLength(txBuf: Buffer, rxBuf: Buffer, timeout: nat, acts: seq<Action>)
    ensures var s := Reach(txBuf, rxBuf, timeout, acts);
            forall i :: 0 <= i < |s.tx.done| && !s.tx.done[i].nonblock ==>
              var rec := s.tx.done[i];
              && (rec.rc == |rec.data| <==> rec.data != [] && rec.moved == |rec.data|)
              && (!s.host.ever && timeout > 0 ==> (rec.rc == |rec.data| <==> rec.data != []))
  {
    ErrorMeansNothingMoved(txBuf, rxBuf, timeout, acts);
    ActiveHostServesBlockingCalls(txBuf, rxBuf, timeout, acts);
  }

  /** From power-up: a blocking write of no bytes moves nothing and reports an error. */
  lemma EmptyWriteFails(txBuf: Buffer, rxBuf: Buffer, timeout: nat)
    ensures Reach(txBuf, rxBuf, timeout, [Write([], false), WriterStep, WriterStep, WriterStep]).tx.done
            == [WriteCall([], false, 0, -EIO)]
  {
    var s0 := Init(txBuf, rxBuf, timeout);
    var a1, a2, a3, a4 := [Write([], false)], [WriterStep], [WriterStep], [WriterStep];
    RunOneMore(Step, s0, [], a1[0]);
    RunOneMore(Step, s0, a1, a2[0]);
    RunOneMore(Step, s0, a1 + a2, a3[0]);
    RunOneMore(Step, s0, a1 + a2 + a3, a4[0]);
    assert [] + [a1[0]] == a1 && a1 + a2 + a3 + a4 == [Write([], false), WriterStep, WriterStep, WriterStep];
  }

  // ----------------------------------------------------------------------------------------------
  // The fast driver refines the small one
  // ----------------------------------------------------------------------------------------------

  /** The arguments of a sequence of writes, one after the other. */
  ghost function Flatten(calls: seq<seq<Byte>>): seq<Byte>
  {
    if calls == [] then [] else Flatten(calls[..|calls| - 1]) + calls[|calls| - 1]
  }

  /** The arguments of finished writes. */
  ghost function Args(ws: seq<WriteRecord>): seq<seq<Byte>>
  {
    seq(|ws|, i requires 0 <= i < |ws| => ws[i].data)
  }

  /** The arguments of the writes so far, the running one included. */
  ghost function Calls(tx: Tx): seq<seq<Byte>>
  {
    Args(tx.done) + if tx.w.Writing? then [tx.w.data] else []
  }

  ghost predicate AllBlocking(tx: Tx)
  {
    && (forall i :: 0 <= i < |tx.done| ==> !tx.done[i].nonblock)
    && (tx.w.Writing? ==> !tx.w.nonblock)
  }

  lemma {:induction false} CompleteWritesMoveAll(ws: seq<WriteRecord>)
    requires WriteRecordsOk(ws, false)
    requires forall i :: 0 <= i < |ws| ==> !ws[i].nonblock
    ensures Moved(ws) == Flatten(Args(ws))
  {
    if ws != [] {
      var front := ws[..|ws| - 1];
      CompleteWritesMoveAll(front);
      assert Args(ws)[..|ws| - 1] == Args(front);
      assert WriteRecordOk(ws[|ws| - 1], false);
    }
  }

  /** Under an active host, blocking writes accept their arguments in order, the running one up to its position. */
  lemma ActiveHostAcceptsAll(tx: Tx)
    requires TxInv(tx, false) && AllBlocking(tx)
    ensures Flatten(Calls(tx)) == Accepted(tx) + if tx.w.Writing? then tx.w.data[tx.w.pos..] else []
  {
    var all := Args(tx.done);
    CompleteWritesMoveAll(tx.done);
    if tx.w.Writing? {
      DropLast(all, tx.w.data);
      assert Calls(tx) == all + [tx.w.data];
      assert Accepted(tx) == Moved(tx.done) + tx.w.data[..tx.w.pos];
      Assoc(Moved(tx.done), tx.w.data[..tx.w.pos], tx.w.data[tx.w.pos..]);
      assert tx.w.data[..tx.w.pos] + tx.w.data[tx.w.pos..] == tx.w.data;
      assert Flatten(Calls(tx)) == Flatten(all) + tx.w.data;
    } else {
      assert Calls(tx) == all;
      assert Accepted(tx) + [] == Moved(tx.done);
    }
  }

  lemma StepKeepsTimeout(s: Uart, a: Action)
    ensures Step(s, a).host.timeout == s.host.timeout
  {
  }

  lemma {:induction false} TimeoutIsFixed(s: Uart, acts: seq<Action>)
    ensures Exec(s, acts).host.timeout == s.host.timeout
  {
    if acts != [] {
      TimeoutIsFixed(s, acts[..|acts| - 1]);
      StepKeepsTimeout(Exec(s, acts[..|acts| - 1]), acts[|acts| - 1]);
    }
  }

  /**
   The small driver's data-register history for completed writes is their arguments in order (see
   SmallUart.Write). As long as the host stays active and all writes block, the fast driver's history
   is a prefix of it, and the two agree once close has returned 0.
   */
  lemma FastRefinesSmall(txBuf: Buffer, rxBuf: Buffer, timeout: nat, acts: seq<Action>)
    ensures var s := Reach(txBuf, rxBuf, timeout, acts);
            !s.host.ever && AllBlocking(s.tx) ==>
              && s.tx.sent <= Flatten(Calls(s.tx))
              && (s.tx.closed && s.tx.closeRc == 0 && timeout > 0 ==> s.tx.sent == Flatten(Calls(s.tx)))
  {
    ReachKeeps(txBuf, rxBuf, timeout, acts);
    var s := Reach(txBuf, rxBuf, timeout, acts);
    TimeoutIsFixed(Init(txBuf, rxBuf, timeout), acts);
    if !s.host.ever && AllBlocking(s.tx) {
      ActiveHostAcceptsAll(s.tx);
    }
  }
}
