/**
 What a call of the fast driver does between its first step and its return, whatever the interrupt routine, the timer,
 the host and the other thread do meanwhile: how much it moves at least, when it waits and when it ends.
 */
module JtagUartCalls {
  import opened Ring
  import opened JtagUart
  import opened JtagUartRuns
  import opened Runs

  // ----------------------------------------------------------------------------------------------
  // How much a write moves
  // ----------------------------------------------------------------------------------------------

  function FreeSlots(tx: Tx): nat { BUF_LEN - 1 - Used(tx.take, tx.put) }

  /** The writer has stopped copying for now: it sets WE, waits, or returns. */
  predicate Stopped(pc: WritePc) { !(pc.Test? || pc.LoadOut? || pc.Copy? || pc.Publish?) }

  /**
   A writer that stops short last saw a full ring, and a block it copies is as long as it can be: it ends the data, the
   buffer or the room.
   */
  ghost predicate FillsUp(tx: Tx)
  {
    tx.w.Writing? ==>
      && (Stopped(tx.w.pc) && tx.w.pos < |tx.w.data| ==> Used(tx.w.out, tx.put) == BUF_LEN - 1)
      && ((tx.w.pc.Copy? || tx.w.pc.Publish?) && tx.w.pos + tx.w.n < |tx.w.data| && tx.put + tx.w.n < BUF_LEN ==>
            Used(tx.w.out, tx.put) + tx.w.n == BUF_LEN - 1)
  }

  /** `free` slots were free when write number `n` was called. */
  ghost predicate Filling(tx: Tx, n: nat, data: seq<Byte>, nonblock: bool, free: nat)
  {
    n <= |tx.done| &&
    if |tx.done| == n then
      && tx.w.Writing? && tx.w.data == data && tx.w.nonblock == nonblock && tx.w.pos + FreeSlots(tx) >= free
      && (Stopped(tx.w.pc) && tx.w.pos < |data| ==> tx.w.pos >= free)
    else
      tx.done[n].data == data && tx.done[n].nonblock == nonblock
      && (tx.done[n].moved >= |data| || tx.done[n].moved >= free)
  }

  lemma WriterFills(tx: Tx, host: Host)
    requires WriterInv(tx, host.ever) && tx.w.Writing? && FillsUp(tx)
    ensures FillsUp(WriterNext(tx, host))
  {
  }

  lemma WriterFilling(tx: Tx, host: Host, n: nat, data: seq<Byte>, nonblock: bool, free: nat)
    requires WriterInv(tx, host.ever) && tx.w.Writing? && Filling(tx, n, data, nonblock, free)
    ensures Filling(WriterNext(tx, host), n, data, nonblock, free)
  {
    if tx.w.pc.Publish? { UsedAfterPut(tx.take, tx.put, tx.w.n); }
  }

  lemma DrainFilling(tx: Tx, n: nat, data: seq<Byte>, nonblock: bool, free: nat)
    requires tx.take != tx.put && Filling(tx, n, data, nonblock, free)
    ensures Filling(DrainOne(tx), n, data, nonblock, free)
  {
    UsedAfterTake(tx.take, tx.put, 1);
  }

  lemma FillsUpStep(s: Uart, a: Action)
    requires Ready(s) && FillsUp(s.tx)
    ensures FillsUp(Next(s, a).tx)
  {
    if a.WriterStep? && s.tx.w.Writing? { WriterFills(s.tx, s.host); }
  }

  lemma FillingStep(s: Uart, a: Action, n: nat, data: seq<Byte>, nonblock: bool, free: nat)
    requires Ready(s) && Filling(s.tx, n, data, nonblock, free)
    ensures Filling(Next(s, a).tx, n, data, nonblock, free)
  {
    if a.WriterStep? && s.tx.w.Writing? {
      WriterFilling(s.tx, s.host, n, data, nonblock, free);
    } else if a.IsrStep? && s.port.isr.Drain? && s.tx.take != s.tx.put {
      DrainFilling(s.tx, n, data, nonblock, free);
    }
  }

  /** In every reachable state a writer that stops short has seen a full ring, and blocks are as long as they can be. */
  lemma {:induction false} WriteStopsFull(txBuf: Buffer, rxBuf: Buffer, timeout: nat, acts: seq<Action>)
    ensures FillsUp(Reach(txBuf, rxBuf, timeout, acts).tx)
  {
    if acts != [] {
      ReachKeeps(txBuf, rxBuf, timeout, acts[..|acts| - 1]);
      WriteStopsFull(txBuf, rxBuf, timeout, acts[..|acts| - 1]);
      FillsUpStep(Reach(txBuf, rxBuf, timeout, acts[..|acts| - 1]), acts[|acts| - 1]);
    }
  }

  lemma {:induction false} FillingRun(s: Uart, acts: seq<Action>, n: nat, data: seq<Byte>, nonblock: bool, free: nat)
    requires Inv(s) && Filling(s.tx, n, data, nonblock, free)
    ensures Inv(Exec(s, acts)) && Filling(Exec(s, acts).tx, n, data, nonblock, free)
  {
    ExecKeeps(s, acts);
    if acts != [] {
      var before := Exec(s, acts[..|acts| - 1]);
      FillingRun(s, acts[..|acts| - 1], n, data, nonblock, free);
      FillingStep(before, acts[|acts| - 1], n, data, nonblock, free);
    }
  }

  lemma RunAfter(txBuf: Buffer, rxBuf: Buffer, timeout: nat, acts: seq<Action>, a: Action, more: seq<Action>)
    ensures Reach(txBuf, rxBuf, timeout, acts + [a] + more) == Exec(Reach(txBuf, rxBuf, timeout, acts + [a]), more)
    ensures Reach(txBuf, rxBuf, timeout, acts + [a]) == Step(Reach(txBuf, rxBuf, timeout, acts), a)
  {
    RunJoin(Step, Init(txBuf, rxBuf, timeout), acts + [a], more);
    RunOneMore(Step, Init(txBuf, rxBuf, timeout), acts, a);
  }

  /**
   A call of write, blocking or not, moves at least as many bytes as slots were free when it was called, or all of its
   argument: `more` is what happens after the call, and the call is either still running or finished.
   */
  lemma WriteFills(txBuf: Buffer, rxBuf: Buffer, timeout: nat, acts: seq<Action>, data: seq<Byte>, nonblock: bool,
                   more: seq<Action>)
    requires var s := Reach(txBuf, rxBuf, timeout, acts); s.port.isr.Off? && s.tx.w.Idle?
    ensures var was := Reach(txBuf, rxBuf, timeout, acts).tx;
            var tx, n := Reach(txBuf, rxBuf, timeout, acts + [Write(data, nonblock)] + more).tx, |was.done|;
            && n <= |tx.done|
            && (n == |tx.done| ==> tx.w.Writing? && tx.w.data == data && tx.w.nonblock == nonblock)
            && (n < |tx.done| ==>
                  && tx.done[n].data == data && tx.done[n].nonblock == nonblock
                  && (tx.done[n].moved < |data| ==> tx.done[n].moved + 1 + Used(was.take, was.put) >= BUF_LEN))
  {
    var a, s := Write(data, nonblock), Reach(txBuf, rxBuf, timeout, acts);
    RunAfter(txBuf, rxBuf, timeout, acts, a, more);
    ReachKeeps(txBuf, rxBuf, timeout, acts);
    ReachKeeps(txBuf, rxBuf, timeout, acts + [a]);
    FillingRun(Step(s, a), more, |s.tx.done|, data, nonblock, FreeSlots(s.tx));
  }

  // ----------------------------------------------------------------------------------------------
  // How much a read moves
  // ----------------------------------------------------------------------------------------------

  /** The reader has stopped copying for now: it waits or returns. */
  predicate Emptied(pc: ReadPc) { !(pc.RTest? || pc.RLoadIn? || pc.RCopy? || pc.RPublish?) }

  /** A reader that stops short last saw an empty ring, and a block it copies is as long as it can be. */
  ghost predicate TakesUp(rx: Rx)
  {
    rx.r.Reading? ==>
      && (Emptied(rx.r.pc) && rx.r.pos < rx.r.space ==> rx.r.seen == rx.take)
      && ((rx.r.pc.RCopy? || rx.r.pc.RPublish?) && rx.r.pos + rx.r.n < rx.r.space && rx.take + rx.r.n < BUF_LEN ==>
            Used(rx.take, rx.r.seen) == rx.r.n)
  }

  /** `waiting` bytes were in the ring when read number `n` was called. */
  ghost predicate Taking(rx: Rx, n: nat, space: nat, nonblock: bool, waiting: nat)
  {
    n <= |rx.done| &&
    if |rx.done| == n then
      && rx.r.Reading? && rx.r.space == space && rx.r.nonblock == nonblock
      && rx.r.pos + Used(rx.take, rx.put) >= waiting
      && (Emptied(rx.r.pc) && rx.r.pos < space ==> rx.r.pos >= waiting)
    else
      rx.done[n].space == space && rx.done[n].nonblock == nonblock
      && (|rx.done[n].bytes| >= space || |rx.done[n].bytes| >= waiting)
  }

  lemma ReaderTakes(rx: Rx, host: Host)
    requires ReaderInv(rx, host.Lost()) && rx.r.Reading? && TakesUp(rx)
    ensures TakesUp(ReaderNext(rx, host))
  {
  }

  lemma ReaderTaking(rx: Rx, host: Host, n: nat, space: nat, nonblock: bool, waiting: nat)
    requires ReaderInv(rx, host.Lost()) && rx.r.Reading? && Taking(rx, n, space, nonblock, waiting)
    ensures Taking(ReaderNext(rx, host), n, space, nonblock, waiting)
  {
    if rx.r.pc.RPublish? { UsedAfterTake(rx.take, rx.put, rx.r.n); }
  }

  lemma FillTaking(rx: Rx, n: nat, space: nat, nonblock: bool, waiting: nat)
    requires rx.fifo != [] && !Full(rx.take, rx.put) && Taking(rx, n, space, nonblock, waiting)
    ensures Taking(FillOne(rx), n, space, nonblock, waiting)
  {
    UsedAfterPut(rx.take, rx.put, 1);
  }

  lemma TakesUpStep(s: Uart, a: Action)
    requires Ready(s) && TakesUp(s.rx)
    ensures TakesUp(Next(s, a).rx)
  {
    if a.ReaderStep? && s.rx.r.Reading? { ReaderTakes(s.rx, s.host); }
  }

  lemma TakingStep(s: Uart, a: Action, n: nat, space: nat, nonblock: bool, waiting: nat)
    requires Ready(s) && Taking(s.rx, n, space, nonblock, waiting)
    ensures Taking(Next(s, a).rx, n, space, nonblock, waiting)
  {
    if a.ReaderStep? && s.rx.r.Reading? {
      ReaderTaking(s.rx, s.host, n, space, nonblock, waiting);
    } else if a.IsrStep? && s.port.isr.Fill? && Advance(s.rx.put, 1) != s.rx.take && s.rx.fifo != [] {
      FullTest(s.rx.take, s.rx.put);
      FillTaking(s.rx, n, space, nonblock, waiting);
    }
  }

  /** In every reachable state a reader that stops short saw an empty ring, and blocks are as long as they can be. */
  lemma {:induction false} ReadStopsEmpty(txBuf: Buffer, rxBuf: Buffer, timeout: nat, acts: seq<Action>)
    ensures TakesUp(Reach(txBuf, rxBuf, timeout, acts).rx)
  {
    if acts != [] {
      ReachKeeps(txBuf, rxBuf, timeout, acts[..|acts| - 1]);
      ReadStopsEmpty(txBuf, rxBuf, timeout, acts[..|acts| - 1]);
      TakesUpStep(Reach(txBuf, rxBuf, timeout, acts[..|acts| - 1]), acts[|acts| - 1]);
    }
  }

  lemma {:induction false} TakingRun(s: Uart, acts: seq<Action>, n: nat, space: nat, nonblock: bool, waiting: nat)
    requires Inv(s) && Taking(s.rx, n, space, nonblock, waiting)
    ensures Inv(Exec(s, acts)) && Taking(Exec(s, acts).rx, n, space, nonblock, waiting)
  {
    ExecKeeps(s, acts);
    if acts != [] {
      var before := Exec(s, acts[..|acts| - 1]);
      TakingRun(s, acts[..|acts| - 1], n, space, nonblock, waiting);
      TakingStep(before, acts[|acts| - 1], n, space, nonblock, waiting);
    }
  }

  /** A call of read moves at least as many bytes as were waiting in the ring when it was called, or fills its space. */
  lemma ReadTakes(txBuf: Buffer, rxBuf: Buffer, timeout: nat, acts: seq<Action>, space: nat, nonblock: bool,
                  more: seq<Action>)
    requires var s := Reach(txBuf, rxBuf, timeout, acts); s.port.isr.Off? && s.rx.r.RIdle?
    ensures var was := Reach(txBuf, rxBuf, timeout, acts).rx;
            var rx, n := Reach(txBuf, rxBuf, timeout, acts + [Read(space, nonblock)] + more).rx, |was.done|;
            && n <= |rx.done|
            && (n == |rx.done| ==> rx.r.Reading? && rx.r.space == space && rx.r.nonblock == nonblock)
            && (n < |rx.done| ==>
                  && rx.done[n].space == space && rx.done[n].nonblock == nonblock
                  && (|rx.done[n].bytes| < space ==> |rx.done[n].bytes| >= Used(was.take, was.put)))
  {
    var a, s := Read(space, nonblock), Reach(txBuf, rxBuf, timeout, acts);
    RunAfter(txBuf, rxBuf, timeout, acts, a, more);
    ReachKeeps(txBuf, rxBuf, timeout, acts);
    ReachKeeps(txBuf, rxBuf, timeout, acts + [a]);
    TakingRun(Step(s, a), more, |s.rx.done|, space, nonblock, Used(s.rx.take, s.rx.put));
  }

  // ----------------------------------------------------------------------------------------------
  // When a call ends
  // ----------------------------------------------------------------------------------------------

  /** The host has not been active for as long as a call waits for it. */
  predicate GivenUp(host: Host) { host.inactive > 0 && host.inactive >= host.timeout }

  /** How often the writing thread has its turn in a run. */
  ghost function WriterTurns(s: Uart, acts: seq<Action>): nat
  {
    if acts == [] then 0
    else
      var front, a := acts[..|acts| - 1], acts[|acts| - 1];
      WriterTurns(s, front) + if a.WriterStep? && Exec(s, front).port.isr.Off? then 1 else 0
  }

  ghost function ReaderTurns(s: Uart, acts: seq<Action>): nat
  {
    if acts == [] then 0
    else
      var front, a := acts[..|acts| - 1], acts[|acts| - 1];
      ReaderTurns(s, front) + if a.ReaderStep? && Exec(s, front).port.isr.Off? then 1 else 0
  }

  /** Turns a write has left at most, when it does not wait. */
  ghost function WriteRank(w: Writer): int
    requires w.Writing? && w.pos <= |w.data|
  {
    var r := |w.data| - w.pos;
    match w.pc
    case Test => 4 * r + 7
    case LoadOut => 4 * r + 6
    case Copy => 4 * r + 5 - w.k
    case Publish => 4 * r + 5 - w.n
    case Enable => 5
    case Spin => 4
    case SpinHost => 3
    case HostCheck => 2
    case Return => 1
  }

  ghost predicate WriteEnding(tx: Tx, n: nat, size: nat, nonblock: bool, turns: nat)
  {
    n <= |tx.done| &&
    (|tx.done| == n ==>
       && tx.w.Writing? && |tx.w.data| == size && tx.w.nonblock == nonblock && tx.w.pos <= size
       && 1 <= WriteRank(tx.w) <= 4 * size + 7 - turns)
  }

  lemma WriterEnding(tx: Tx, host: Host, n: nat, size: nat, nonblock: bool, turns: nat)
    requires WriterInv(tx, host.ever) && tx.w.Writing? && WriteEnding(tx, n, size, nonblock, turns)
    requires nonblock || GivenUp(host)
    ensures WriteEnding(WriterNext(tx, host), n, size, nonblock, turns + 1)
  {
  }

  lemma WriteEndingStep(s: Uart, a: Action, n: nat, size: nat, nonblock: bool, turns: nat)
    requires Ready(s) && WriteEnding(s.tx, n, size, nonblock, turns) && (nonblock || GivenUp(s.host))
    ensures WriteEnding(Next(s, a).tx, n, size, nonblock, turns + if a.WriterStep? && s.port.isr.Off? then 1 else 0)
  {
    if a.WriterStep? && s.port.isr.Off? && s.tx.w.Writing? {
      WriterEnding(s.tx, s.host, n, size, nonblock, turns);
    }
  }

  lemma {:induction false} WriteEndingRun(s: Uart, acts: seq<Action>, n: nat, size: nat, nonblock: bool)
    requires Inv(s) && WriteEnding(s.tx, n, size, nonblock, 0)
    requires nonblock || forall j :: 0 <= j < |acts| ==> GivenUp(Exec(s, acts[..j]).host)
    ensures Inv(Exec(s, acts)) && WriteEnding(Exec(s, acts).tx, n, size, nonblock, WriterTurns(s, acts))
  {
    ExecKeeps(s, acts);
    if acts != [] {
      var front := acts[..|acts| - 1];
      forall j | 0 <= j < |front| && !nonblock ensures GivenUp(Exec(s, front[..j]).host) {
        assert front[..j] == acts[..j];
      }
      WriteEndingRun(s, front, n, size, nonblock);
      WriteEndingStep(Exec(s, front), acts[|acts| - 1], n, size, nonblock, WriterTurns(s, front));
    }
  }

  /**
   A write that does not block ends within a number of its own turns that depends on its length alone, and so does any
   write once the host has not been active for its timeout.
   */
  lemma WriteEnds(txBuf: Buffer, rxBuf: Buffer, timeout: nat, acts: seq<Action>, data: seq<Byte>, nonblock: bool,
                  more: seq<Action>)
    requires var s := Reach(txBuf, rxBuf, timeout, acts); s.port.isr.Off? && s.tx.w.Idle?
    requires var s1 := Reach(txBuf, rxBuf, timeout, acts + [Write(data, nonblock)]);
             && (nonblock || forall j :: 0 <= j < |more| ==> GivenUp(Exec(s1, more[..j]).host))
             && WriterTurns(s1, more) >= 4 * |data| + 7
    ensures |Reach(txBuf, rxBuf, timeout, acts + [Write(data, nonblock)] + more).tx.done|
            > |Reach(txBuf, rxBuf, timeout, acts).tx.done|
  {
    var a, s := Write(data, nonblock), Reach(txBuf, rxBuf, timeout, acts);
    RunAfter(txBuf, rxBuf, timeout, acts, a, more);
    ReachKeeps(txBuf, rxBuf, timeout, acts);
    ReachKeeps(txBuf, rxBuf, timeout, acts + [a]);
    WriteEndingRun(Step(s, a), more, |s.tx.done|, |data|, nonblock);
  }

  /** The same for a read; one that waits starts over when bytes come in. */
  ghost function ReadRank(rx: Rx): int
    requires rx.r.Reading? && rx.r.pos <= rx.r.space
  {
    var r, left := rx.r, rx.r.space - rx.r.pos;
    var again := if r.nonblock || r.pos > 0 || (!Emptied(r.pc) && rx.take != rx.put) then 0 else 4 * r.space + 8;
    match r.pc
    case RTest => 4 * left + 7 + again
    case RLoadIn => 4 * left + 6 + again
    case RCopy => 4 * left + 5 - r.k
    case RPublish => 4 * left + 5 - r.n
    case RAfter => 5 + again
    case RSpin => 4 + again
    case RSpinHost => 3 + again
    case RCheck => 2 + again
    case RFinish => 1
  }

  ghost predicate ReadEnding(rx: Rx, n: nat, space: nat, nonblock: bool, turns: nat)
  {
    n <= |rx.done| &&
    (|rx.done| == n ==>
       && rx.r.Reading? && rx.r.space == space && rx.r.nonblock == nonblock && rx.r.pos <= space
       && 1 <= ReadRank(rx) <= 8 * space + 15 - turns)
  }

  lemma ReaderEnding(rx: Rx, host: Host, n: nat, space: nat, nonblock: bool, turns: nat)
    requires ReaderInv(rx, host.Lost()) && rx.r.Reading? && ReadEnding(rx, n, space, nonblock, turns)
    requires nonblock || GivenUp(host)
    ensures ReadEnding(ReaderNext(rx, host), n, space, nonblock, turns + 1)
  {
  }

  lemma FillEnding(rx: Rx, n: nat, space: nat, nonblock: bool, turns: nat)
    requires rx.fifo != [] && !Full(rx.take, rx.put) && ReadEnding(rx, n, space, nonblock, turns)
    requires rx.r.Reading? && (rx.r.pc.RCopy? ==> rx.r.k < rx.r.n <= rx.r.space - rx.r.pos)
    requires rx.r.Reading? && (rx.r.pc.RPublish? ==> rx.r.n <= rx.r.space - rx.r.pos)
    ensures ReadEnding(FillOne(rx), n, space, nonblock, turns)
  {
    UsedAfterPut(rx.take, rx.put, 1);
  }

  lemma ReadEndingStep(s: Uart, a: Action, n: nat, space: nat, nonblock: bool, turns: nat)
    requires Ready(s) && ReadEnding(s.rx, n, space, nonblock, turns) && (nonblock || GivenUp(s.host))
    ensures ReadEnding(Next(s, a).rx, n, space, nonblock, turns + if a.ReaderStep? && s.port.isr.Off? then 1 else 0)
  {
    if a.ReaderStep? && s.port.isr.Off? && s.rx.r.Reading? {
      ReaderEnding(s.rx, s.host, n, space, nonblock, turns);
    } else if a.IsrStep? && s.port.isr.Fill? && Advance(s.rx.put, 1) != s.rx.take && s.rx.fifo != [] {
      FullTest(s.rx.take, s.rx.put);
      if s.rx.r.Reading? { FillEnding(s.rx, n, space, nonblock, turns); }
    }
  }

  lemma {:induction false} ReadEndingRun(s: Uart, acts: seq<Action>, n: nat, space: nat, nonblock: bool)
    requires Inv(s) && ReadEnding(s.rx, n, space, nonblock, 0)
    requires nonblock || forall j :: 0 <= j < |acts| ==> GivenUp(Exec(s, acts[..j]).host)
    ensures Inv(Exec(s, acts)) && ReadEnding(Exec(s, acts).rx, n, space, nonblock, ReaderTurns(s, acts))
  {
    ExecKeeps(s, acts);
    if acts != [] {
      var front := acts[..|acts| - 1];
      forall j | 0 <= j < |front| && !nonblock ensures GivenUp(Exec(s, front[..j]).host) {
        assert front[..j] == acts[..j];
      }
      ReadEndingRun(s, front, n, space, nonblock);
      ReadEndingStep(Exec(s, front), acts[|acts| - 1], n, space, nonblock, ReaderTurns(s, front));
    }
  }

  /** A read that does not block, and any read once the host has not been active for its timeout, ends. */
  lemma ReadEnds(txBuf: Buffer, rxBuf: Buffer, timeout: nat, acts: seq<Action>, space: nat, nonblock: bool,
                 more: seq<Action>)
    requires var s := Reach(txBuf, rxBuf, timeout, acts); s.port.isr.Off? && s.rx.r.RIdle?
    requires var s1 := Reach(txBuf, rxBuf, timeout, acts + [Read(space, nonblock)]);
             && (nonblock || forall j :: 0 <= j < |more| ==> GivenUp(Exec(s1, more[..j]).host))
             && ReaderTurns(s1, more) >= 8 * space + 15
    ensures |Reach(txBuf, rxBuf, timeout, acts + [Read(space, nonblock)] + more).rx.done|
            > |Reach(txBuf, rxBuf, timeout, acts).rx.done|
  {
    var a, s := Read(space, nonblock), Reach(txBuf, rxBuf, timeout, acts);
    RunAfter(txBuf, rxBuf, timeout, acts, a, more);
    ReachKeeps(txBuf, rxBuf, timeout, acts);
    ReachKeeps(txBuf, rxBuf, timeout, acts + [a]);
    ReadEndingRun(Step(s, a), more, |s.rx.done|, space, nonblock);
  }

  // ----------------------------------------------------------------------------------------------
  // When a call waits
  // ----------------------------------------------------------------------------------------------

  /** Nothing has been sent from the full ring, and the host may still come back. */
  ghost predicate StillFull(s: Uart, take: Index)
  {
    s.tx.take == take && s.host.inactive < s.host.timeout
  }

  /** A blocking write that has more to send waits for room in a ring it found full. */
  ghost predicate WaitsForRoom(w: Writer, data: seq<Byte>, pos: nat, take: Index)
  {
    && w.Writing? && (w.pc.Enable? || w.pc.Spin? || w.pc.SpinHost?) && !w.nonblock
    && w.data == data && w.pos == pos < |data| && w.out == take
  }

  lemma WaitsForRoomStep(s: Uart, a: Action, data: seq<Byte>, pos: nat, take: Index)
    requires Ready(s) && WaitsForRoom(s.tx.w, data, pos, take) && StillFull(s, take)
    ensures WaitsForRoom(Next(s, a).tx.w, data, pos, take) && Next(s, a).tx.done == s.tx.done
  {
  }

  /** Such a write goes on waiting for as long as the ring stays full and the host has not timed out. */
  lemma {:induction false} WriteWaits(s: Uart, acts: seq<Action>, data: seq<Byte>, pos: nat)
    requires Inv(s) && WaitsForRoom(s.tx.w, data, pos, s.tx.take)
    requires forall j :: 0 <= j < |acts| ==> StillFull(Exec(s, acts[..j]), s.tx.take)
    ensures WaitsForRoom(Exec(s, acts).tx.w, data, pos, s.tx.take) && Exec(s, acts).tx.done == s.tx.done
  {
    if acts != [] {
      var front := acts[..|acts| - 1];
      forall j | 0 <= j < |front| ensures StillFull(Exec(s, front[..j]), s.tx.take) { assert front[..j] == acts[..j]; }
      WriteWaits(s, front, data, pos);
      ExecKeeps(s, front);
      WaitsForRoomStep(Exec(s, front), acts[|acts| - 1], data, pos, s.tx.take);
    }
  }

  ghost predicate StillEmpty(s: Uart, put: Index)
  {
    s.rx.put == put && s.host.inactive < s.host.timeout
  }

  /** A blocking read that has nothing yet waits for bytes in a ring it found empty. */
  ghost predicate WaitsForBytes(r: Reader, space: nat, put: Index)
  {
    && r.Reading? && (r.pc.RAfter? || r.pc.RSpin? || r.pc.RSpinHost?) && !r.nonblock
    && r.space == space > 0 && r.pos == 0 && r.seen == put
  }

  lemma WaitsForBytesStep(s: Uart, a: Action, space: nat, put: Index)
    requires Ready(s) && WaitsForBytes(s.rx.r, space, put) && StillEmpty(s, put)
    ensures WaitsForBytes(Next(s, a).rx.r, space, put) && Next(s, a).rx.done == s.rx.done
  {
  }

  /** Such a read goes on waiting for as long as the ring stays empty and the host has not timed out. */
  lemma {:induction false} ReadWaits(s: Uart, acts: seq<Action>, space: nat)
    requires Inv(s) && WaitsForBytes(s.rx.r, space, s.rx.put)
    requires forall j :: 0 <= j < |acts| ==> StillEmpty(Exec(s, acts[..j]), s.rx.put)
    ensures WaitsForBytes(Exec(s, acts).rx.r, space, s.rx.put) && Exec(s, acts).rx.done == s.rx.done
  {
    if acts != [] {
      var front := acts[..|acts| - 1];
      forall j | 0 <= j < |front| ensures StillEmpty(Exec(s, front[..j]), s.rx.put) { assert front[..j] == acts[..j]; }
      ReadWaits(s, front, space);
      ExecKeeps(s, front);
      WaitsForBytesStep(Exec(s, front), acts[|acts| - 1], space, s.rx.put);
    }
  }

  /** A blocking write that has seen a fuller ring than there is now, and turns it has left at most before it copies. */
  ghost predicate Resuming(tx: Tx, turns: nat)
  {
    && tx.w.Writing? && !tx.w.nonblock && tx.w.pos < |tx.w.data| && Used(tx.take, tx.put) < BUF_LEN - 1
    && match tx.w.pc
       case Enable => Used(tx.take, tx.put) < Used(tx.w.out, tx.put) && turns <= 0
       case SpinHost => Used(tx.take, tx.put) < Used(tx.w.out, tx.put) && turns <= 1
       case Spin => Used(tx.take, tx.put) < Used(tx.w.out, tx.put) && turns <= 2
       case HostCheck => turns <= 3
       case Test => turns <= 4
       case LoadOut => turns <= 5
       case _ => false
  }

  /** All through a run the host is active, and the write has not begun to copy. */
  ghost predicate NotCopying(s: Uart, acts: seq<Action>)
  {
    forall n :: 0 <= n <= |acts| ==>
      var t := Exec(s, acts[..n]); t.host.inactive == 0 && t.tx.w.Writing? && !t.tx.w.pc.Copy?
  }

  lemma NotCopyingFront(s: Uart, acts: seq<Action>)
    requires acts != [] && NotCopying(s, acts)
    ensures var front := acts[..|acts| - 1];
            && NotCopying(s, front) && Exec(s, front).host.inactive == 0
            && Exec(s, acts).tx.w.Writing? && !Exec(s, acts).tx.w.pc.Copy?
  {
    var front := acts[..|acts| - 1];
    assert acts[..|acts|] == acts && front[..|front|] == front;
    assert forall n :: 0 <= n <= |front| ==> front[..n] == acts[..n];
  }

  lemma ResumingStep(s: Uart, a: Action, turns: nat)
    requires Inv(s) && Resuming(s.tx, turns) && s.host.inactive == 0
    requires Next(s, a).tx.w.Writing? && !Next(s, a).tx.w.pc.Copy?
    ensures Resuming(Next(s, a).tx, turns + if a.WriterStep? && s.port.isr.Off? then 1 else 0)
  {
    if a.IsrStep? && s.port.isr.Drain? && s.tx.take != s.tx.put { UsedAfterTake(s.tx.take, s.tx.put, 1); }
  }

  /** A waiting write notices that bytes have been sent: under an active host it copies again by its sixth turn. */
  lemma {:induction false} WriteResumes(s: Uart, acts: seq<Action>)
    requires Inv(s) && Resuming(s.tx, 0) && NotCopying(s, acts)
    ensures Resuming(Exec(s, acts).tx, WriterTurns(s, acts)) && WriterTurns(s, acts) <= 5
  {
    if acts != [] {
      var m := |acts| - 1;
      NotCopyingFront(s, acts);
      WriteResumes(s, acts[..m]);
      ExecKeeps(s, acts[..m]);
      ResumingStep(Exec(s, acts[..m]), acts[m], WriterTurns(s, acts[..m]));
    }
  }

  /** The same for a blocking read that found the ring empty, when it no longer is. */
  ghost predicate RResuming(rx: Rx, turns: nat)
  {
    && rx.r.Reading? && !rx.r.nonblock && rx.r.pos == 0 < rx.r.space && rx.take != rx.put
    && match rx.r.pc
       case RAfter => rx.r.seen == rx.take && turns <= 0
       case RSpinHost => rx.r.seen == rx.take && turns <= 1
       case RSpin => rx.r.seen == rx.take && turns <= 2
       case RCheck => rx.r.seen == rx.take && turns <= 3
       case RTest => turns <= 4
       case RLoadIn => turns <= 5
       case _ => false
  }

  ghost predicate NotTaking(s: Uart, acts: seq<Action>)
  {
    forall n :: 0 <= n <= |acts| ==> var t := Exec(s, acts[..n]); t.rx.r.Reading? && !t.rx.r.pc.RCopy?
  }

  lemma NotTakingFront(s: Uart, acts: seq<Action>)
    requires acts != [] && NotTaking(s, acts)
    ensures NotTaking(s, acts[..|acts| - 1])
    ensures Exec(s, acts).rx.r.Reading? && !Exec(s, acts).rx.r.pc.RCopy?
  {
    var front := acts[..|acts| - 1];
    assert acts[..|acts|] == acts;
    assert forall n :: 0 <= n <= |front| ==> front[..n] == acts[..n];
  }

  lemma RResumingStep(s: Uart, a: Action, turns: nat)
    requires Inv(s) && RResuming(s.rx, turns)
    requires Next(s, a).rx.r.Reading? && !Next(s, a).rx.r.pc.RCopy?
    ensures RResuming(Next(s, a).rx, turns + if a.ReaderStep? && s.port.isr.Off? then 1 else 0)
  {
    if a.IsrStep? && s.port.isr.Fill? && Advance(s.rx.put, 1) != s.rx.take && s.rx.fifo != [] {
      FullTest(s.rx.take, s.rx.put);
      UsedAfterPut(s.rx.take, s.rx.put, 1);
    }
  }

  /** A waiting read notices that bytes have come in: it copies by its sixth turn. */
  lemma {:induction false} ReadResumes(s: Uart, acts: seq<Action>)
    requires Inv(s) && RResuming(s.rx, 0) && NotTaking(s, acts)
    ensures RResuming(Exec(s, acts).rx, ReaderTurns(s, acts)) && ReaderTurns(s, acts) <= 5
  {
    if acts != [] {
      var m := |acts| - 1;
      NotTakingFront(s, acts);
      ReadResumes(s, acts[..m]);
      ExecKeeps(s, acts[..m]);
      RResumingStep(Exec(s, acts[..m]), acts[m], ReaderTurns(s, acts[..m]));
    }
  }

  // ----------------------------------------------------------------------------------------------
  // Close
  // ----------------------------------------------------------------------------------------------

  lemma CloseStep(s: Uart, a: Action)
    requires Ready(s)
    ensures var s' := Next(s, a);
            !s.tx.closed && s'.tx.closed ==>
              && s.tx.w.Closing? && s'.tx.w.Idle?
              && (s'.tx.closeRc == 0 || s'.tx.closeRc == -EWOULDBLOCK)
              && (s'.tx.closeRc == 0 ==> s.tx.take == s.tx.put || s.host.inactive >= s.host.timeout)
              && (s'.tx.closeRc != 0 ==> s.tx.w.nonblock && s.host.inactive < s.host.timeout)
  {
  }

  /**
   Close returns 0 only when the ring is empty or the host has timed out, and -EWOULDBLOCK only when it is not to
   block and the host has not timed out.
   */
  lemma CloseReturnsWhy(txBuf: Buffer, rxBuf: Buffer, timeout: nat, acts: seq<Action>, a: Action)
    ensures var s, s' := Reach(txBuf, rxBuf, timeout, acts), Reach(txBuf, rxBuf, timeout, acts + [a]);
            !s.tx.closed && s'.tx.closed ==>
              && s.tx.w.Closing? && s'.tx.w.Idle?
              && (s'.tx.closeRc == 0 || s'.tx.closeRc == -EWOULDBLOCK)
              && (s'.tx.closeRc == 0 ==> s.tx.take == s.tx.put || s.host.inactive >= s.host.timeout)
              && (s'.tx.closeRc != 0 ==> s.tx.w.nonblock && s.host.inactive < s.host.timeout)
  {
    ReachKeeps(txBuf, rxBuf, timeout, acts);
    RunOneMore(Step, Init(txBuf, rxBuf, timeout), acts, a);
    CloseStep(Reach(txBuf, rxBuf, timeout, acts), a);
  }

  /** Why a close does not go on waiting: it is not to block, the ring is empty, or the host has timed out. */
  datatype Why = NonBlocking | RingEmpty | TimedOut

  predicate Holds(why: Why, s: Uart, nonblock: bool)
  {
    match why
    case NonBlocking => nonblock
    case RingEmpty => s.tx.take == s.tx.put
    case TimedOut => s.host.inactive >= s.host.timeout
  }

  /** A close that has such a reason and has not returned. */
  predicate Lingers(why: Why, s: Uart, nonblock: bool) { Holds(why, s, nonblock) && !s.tx.closed }

  /** So it does all through a run. */
  ghost predicate LingersOn(why: Why, s: Uart, acts: seq<Action>, nonblock: bool)
  {
    forall n :: 0 <= n <= |acts| ==> Lingers(why, Exec(s, acts[..n]), nonblock)
  }

  lemma LingersFront(why: Why, s: Uart, acts: seq<Action>, nonblock: bool)
    requires acts != [] && LingersOn(why, s, acts, nonblock)
    ensures var front := acts[..|acts| - 1];
            && LingersOn(why, s, front, nonblock)
            && Lingers(why, Exec(s, front), nonblock) && Lingers(why, Exec(s, acts), nonblock)
  {
    var front := acts[..|acts| - 1];
    assert acts[..|acts|] == acts;
    forall n | 0 <= n <= |front| ensures Lingers(why, Exec(s, front[..n]), nonblock) { assert front[..n] == acts[..n]; }
  }

  /** Turns a close has left at most. */
  function CloseRank(w: Writer, why: Why): nat
    requires w.Closing?
  {
    if w.pollHost == (why.RingEmpty?) then 2 else 1
  }

  ghost predicate CloseEnding(s: Uart, nonblock: bool, why: Why, turns: nat)
  {
    s.tx.w.Closing? && s.tx.w.nonblock == nonblock && CloseRank(s.tx.w, why) + turns <= 2
  }

  lemma CloseEndingStep(s: Uart, a: Action, nonblock: bool, why: Why, turns: nat)
    requires Ready(s) && CloseEnding(s, nonblock, why, turns) && Holds(why, s, nonblock) && !Next(s, a).tx.closed
    ensures CloseEnding(Next(s, a), nonblock, why, turns + if a.WriterStep? && s.port.isr.Off? then 1 else 0)
  {
  }

  lemma {:induction false} CloseEndingRun(s: Uart, acts: seq<Action>, nonblock: bool, why: Why)
    requires Inv(s) && CloseEnding(s, nonblock, why, 0)
    requires LingersOn(why, s, acts, nonblock)
    ensures CloseEnding(Exec(s, acts), nonblock, why, WriterTurns(s, acts))
  {
    if acts != [] {
      var m := |acts| - 1;
      var front := acts[..m];
      LingersFront(why, s, acts, nonblock);
      CloseEndingRun(s, front, nonblock, why);
      ExecKeeps(s, front);
      CloseEndingStep(Exec(s, front), acts[m], nonblock, why, WriterTurns(s, front));
    }
  }

  /**
   A close that is not to block returns by its second turn, and so does one while the ring is empty, and one while the
   host has timed out: if it has not returned, it has had at most one turn.
   */
  lemma CloseEnds(txBuf: Buffer, rxBuf: Buffer, timeout: nat, acts: seq<Action>, nonblock: bool, why: Why,
                  more: seq<Action>)
    requires var s := Reach(txBuf, rxBuf, timeout, acts); s.port.isr.Off? && s.tx.w.Idle?
    requires LingersOn(why, Reach(txBuf, rxBuf, timeout, acts + [Close(nonblock)]), more, nonblock)
    ensures WriterTurns(Reach(txBuf, rxBuf, timeout, acts + [Close(nonblock)]), more) <= 1
  {
    RunAfter(txBuf, rxBuf, timeout, acts, Close(nonblock), more);
    ReachKeeps(txBuf, rxBuf, timeout, acts);
    ReachKeeps(txBuf, rxBuf, timeout, acts + [Close(nonblock)]);
    CloseEndingRun(Reach(txBuf, rxBuf, timeout, acts + [Close(nonblock)]), more, nonblock, why);
  }

  /** A close that found nothing left to send, still running or returned. */
  ghost predicate ClosingEmpty(tx: Tx)
  {
    && tx.take == tx.put
    && ((tx.w.Closing? && !tx.w.pollHost && !tx.closed) || (tx.w.Idle? && tx.closed && tx.closeRc == 0))
  }

  lemma ClosingEmptyStep(s: Uart, a: Action)
    requires Ready(s) && ClosingEmpty(s.tx) && !a.Write? && !a.Close?
    ensures ClosingEmpty(Next(s, a).tx)
  {
  }

  lemma {:induction false} ClosingEmptyRun(s: Uart, acts: seq<Action>)
    requires Inv(s) && ClosingEmpty(s.tx) && forall j :: 0 <= j < |acts| ==> !acts[j].Write? && !acts[j].Close?
    ensures ClosingEmpty(Exec(s, acts).tx)
  {
    if acts != [] {
      ClosingEmptyRun(s, acts[..|acts| - 1]);
      ExecKeeps(s, acts[..|acts| - 1]);
      ClosingEmptyStep(Exec(s, acts[..|acts| - 1]), acts[|acts| - 1]);
    }
  }

  /** A close that is called with nothing left to send returns 0, whether it is to block or not. */
  lemma CloseOfEmpty(txBuf: Buffer, rxBuf: Buffer, timeout: nat, acts: seq<Action>, nonblock: bool, more: seq<Action>)
    requires var s := Reach(txBuf, rxBuf, timeout, acts);
             s.port.isr.Off? && s.tx.w.Idle? && s.tx.take == s.tx.put
    requires forall j :: 0 <= j < |more| ==> !more[j].Write? && !more[j].Close?
    ensures var tx := Reach(txBuf, rxBuf, timeout, acts + [Close(nonblock)] + more).tx;
            !tx.w.Closing? ==> tx.closed && tx.closeRc == 0
  {
    var s := Reach(txBuf, rxBuf, timeout, acts);
    RunAfter(txBuf, rxBuf, timeout, acts, Close(nonblock), more);
    ReachKeeps(txBuf, rxBuf, timeout, acts);
    ReachKeeps(txBuf, rxBuf, timeout, acts + [Close(nonblock)]);
    ClosingEmptyRun(Step(s, Close(nonblock)), more);
  }

  /** Bytes are left to send, and the host may still come back. */
  ghost predicate StillUnsent(s: Uart)
  {
    s.tx.take != s.tx.put && s.host.inactive < s.host.timeout
  }

  lemma CloseWaitsStep(s: Uart, a: Action)
    requires Ready(s) && s.tx.w.Closing? && !s.tx.w.nonblock && !s.tx.closed && StillUnsent(s)
    ensures var tx := Next(s, a).tx; tx.w.Closing? && !tx.w.nonblock && !tx.closed
  {
  }

  /** A blocking close waits for as long as bytes are left to send and the host has not timed out. */
  lemma {:induction false} CloseWaits(s: Uart, acts: seq<Action>)
    requires Inv(s) && s.tx.w.Closing? && !s.tx.w.nonblock && !s.tx.closed
    requires forall j :: 0 <= j < |acts| ==> StillUnsent(Exec(s, acts[..j]))
    ensures var tx := Exec(s, acts).tx; tx.w.Closing? && !tx.w.nonblock && !tx.closed
  {
    if acts != [] {
      var front := acts[..|acts| - 1];
      forall j | 0 <= j < |front| ensures StillUnsent(Exec(s, front[..j])) { assert front[..j] == acts[..j]; }
      CloseWaits(s, front);
      ExecKeeps(s, front);
      CloseWaitsStep(Exec(s, front), acts[|acts| - 1]);
    }
  }

  // ----------------------------------------------------------------------------------------------
  // Host activity
  // ----------------------------------------------------------------------------------------------

  /** The host took or sent a byte. */
  ghost predicate HostActed(s: Uart, s': Uart)
  {
    |s'.tx.drained| > |s.tx.drained| || |s'.rx.typed| > |s.rx.typed|
  }

  lemma ActivityStep(s: Uart, a: Action)
    requires Ready(s)
    ensures var s' := Next(s, a);
            && (HostActed(s, s') ==> s'.host.ac && s'.host.inactive == s.host.inactive)
            && (s'.host.ac && !s.host.ac ==> HostActed(s, s'))
            && (s.host.inactive <= INT_MAX - 2 ==> s'.host.inactive <= INT_MAX - 2)
  {
  }

  /** The mark of host activity goes up when a byte crosses, and only then. */
  lemma ActivityIsMarked(txBuf: Buffer, rxBuf: Buffer, timeout: nat, acts: seq<Action>, a: Action)
    ensures var s, s' := Reach(txBuf, rxBuf, timeout, acts), Reach(txBuf, rxBuf, timeout, acts + [a]);
            && (HostActed(s, s') ==> s'.host.ac)
            && (s'.host.ac && !s.host.ac ==> HostActed(s, s'))
  {
    ReachKeeps(txBuf, rxBuf, timeout, acts);
    RunOneMore(Step, Init(txBuf, rxBuf, timeout), acts, a);
    ActivityStep(Reach(txBuf, rxBuf, timeout, acts), a);
  }

  lemma {:induction false} InactiveBounded(txBuf: Buffer, rxBuf: Buffer, timeout: nat, acts: seq<Action>)
    ensures Reach(txBuf, rxBuf, timeout, acts).host.inactive <= INT_MAX - 2
  {
    if acts != [] {
      InactiveBounded(txBuf, rxBuf, timeout, acts[..|acts| - 1]);
      ReachKeeps(txBuf, rxBuf, timeout, acts[..|acts| - 1]);
      ActivityStep(Reach(txBuf, rxBuf, timeout, acts[..|acts| - 1]), acts[|acts| - 1]);
    }
  }

  /** How often the timer fires in a run. */
  ghost function Seconds(s: Uart, acts: seq<Action>): nat
  {
    if acts == [] then 0
    else
      var front, a := acts[..|acts| - 1], acts[|acts| - 1];
      Seconds(s, front) + if a.Timer? && Exec(s, front).port.isr.Off? then 1 else 0
  }

  /** Seconds without activity, after `k` timer ticks of a silent host. */
  function Silent(inactive: nat, ac: bool, k: nat): nat
  {
    var n := if ac then (if k == 0 then inactive else k - 1) else inactive + k;
    if n <= INT_MAX - 2 then n else (INT_MAX - 2) as nat
  }

  lemma SilentStep(s: Uart, a: Action, inactive: nat, ac: bool, k: nat)
    requires Ready(s) && !a.HostSend? && !a.HostDrain? && inactive <= INT_MAX - 2
    requires s.host.inactive == Silent(inactive, ac, k) && s.host.ac == (ac && k == 0)
    ensures var k' := k + if a.Timer? && s.port.isr.Off? then 1 else 0;
            Next(s, a).host.inactive == Silent(inactive, ac, k') && Next(s, a).host.ac == (ac && k' == 0)
  {
  }

  /**
   While the host is silent each tick of the timer counts one second more, up to a bound; the first tick after activity
   sets the count to zero instead.
   */
  lemma {:induction false} SilenceCounts(txBuf: Buffer, rxBuf: Buffer, timeout: nat, acts: seq<Action>,
                                         quiet: seq<Action>)
    requires forall j :: 0 <= j < |quiet| ==> !quiet[j].HostSend? && !quiet[j].HostDrain?
    ensures var s := Reach(txBuf, rxBuf, timeout, acts);
            var h, k := Exec(s, quiet).host, Seconds(s, quiet);
            h.inactive == Silent(s.host.inactive, s.host.ac, k) && h.ac == (s.host.ac && k == 0)
  {
    var s := Reach(txBuf, rxBuf, timeout, acts);
    InactiveBounded(txBuf, rxBuf, timeout, acts);
    if quiet != [] {
      var front := quiet[..|quiet| - 1];
      SilenceCounts(txBuf, rxBuf, timeout, acts, front);
      ReachKeeps(txBuf, rxBuf, timeout, acts);
      ExecKeeps(s, front);
      SilentStep(Exec(s, front), quiet[|quiet| - 1], s.host.inactive, s.host.ac, Seconds(s, front));
    }
  }
}
