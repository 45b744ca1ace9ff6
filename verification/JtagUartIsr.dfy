/**
 The interrupt routine as it is written: loops that update the driver's state structure and the device
 in place. With the host quiet while it runs it terminates, and it does exactly what the state machine
 does when only its interrupt steps are taken.
 */
module JtagUartIsr {
  import opened Ring
  import opened JtagUart
  import opened JtagUartRuns
  import opened Runs

  // ----------------------------------------------------------------------------------------------
  // What one pass of the routine's outer loop does
  // ----------------------------------------------------------------------------------------------

  /** The receive loop; the second result is the last RAVAIL it saw. */
  function FillAll(rx: Rx, avail: nat): (Rx, nat)
    decreases |rx.fifo|
  {
    if Advance(rx.put, 1) == rx.take then (rx, avail)
    else if rx.fifo == [] then (rx, 0)
    else FillAll(FillOne(rx), |rx.fifo| - 1)
  }

  /** The transmit loop; the second result is the write space it did not use. */
  function DrainAll(tx: Tx, space: nat): (Tx, nat)
    decreases space
  {
    if space > 0 && tx.take != tx.put then DrainAll(DrainOne(tx), space - 1) else (tx, space)
  }

  function Received(s: Uart): Uart
  {
    var (rx, avail) := FillAll(s.rx, 1);
    s.(rx := rx,
       port := if avail > 0 then SetEnables(s.port, s.port.irqEnable.(re := false), s.port.isr) else s.port)
  }

  function Transmitted(s: Uart, space: nat): Uart
  {
    var (tx, left) := DrainAll(s.tx, space);
    s.(tx := tx,
       port := if left > 0 then SetEnables(s.port, s.port.irqEnable.(we := false), s.port.isr) else s.port)
  }

  /** One pass, from the control register value that started it. */
  function Pass(s: Uart, c: Control): Uart
  {
    var s1 := if c.ri then Received(s) else s;
    if c.wi then Transmitted(s1, c.wspace) else s1
  }

  /** What is left to do: bytes to pop, room to fill, interrupts to turn off. */
  function Work(s: Uart): nat
  {
    |s.rx.fifo| + (if |s.tx.fifo| <= FIFO_DEPTH then FIFO_DEPTH - |s.tx.fifo| else 0)
    + (if s.port.ctl.re then 1 else 0) + (if s.port.ctl.we then 1 else 0)
  }

  lemma {:induction false} FillAllUses(rx: Rx, avail: nat)
    ensures var (rx', avail') := FillAll(rx, avail);
            && |rx'.fifo| <= |rx.fifo|
            && (rx'.fifo == [] || avail' > 0 || avail == 0)
            && (avail > 0 ==> |rx'.fifo| < |rx.fifo| || avail' > 0 || rx.fifo == [])
    decreases |rx.fifo|
  {
    if Advance(rx.put, 1) != rx.take && rx.fifo != [] {
      FillAllUses(FillOne(rx), |rx.fifo| - 1);
    }
  }

  lemma {:induction false} DrainAllUses(tx: Tx, space: nat)
    requires |tx.fifo| + space == FIFO_DEPTH
    ensures var (tx', left) := DrainAll(tx, space);
            |tx.fifo| <= |tx'.fifo| <= FIFO_DEPTH && |tx'.fifo| + left == FIFO_DEPTH
    decreases space
  {
    if space > 0 && tx.take != tx.put { DrainAllUses(DrainOne(tx), space - 1); }
  }

  ghost predicate Quiet(s: Uart)
  {
    |s.tx.fifo| <= FIFO_DEPTH && |s.rx.fifo| <= FIFO_DEPTH && s.port.ctl == s.port.irqEnable
  }

  lemma ReceivedProgress(s: Uart)
    requires Quiet(s) && s.port.ctl.re && s.rx.fifo != []
    ensures var s' := Received(s);
            Quiet(s') && Work(s') < Work(s) && (s'.rx.fifo == [] || !s'.port.ctl.re)
            && s'.tx == s.tx && s'.port.ctl.we == s.port.ctl.we
  {
    FillAllUses(s.rx, 1);
  }

  lemma TransmittedProgress(s: Uart)
    requires Quiet(s) && s.port.ctl.we && |s.tx.fifo| < FIFO_DEPTH
    ensures var s' := Transmitted(s, FIFO_DEPTH - |s.tx.fifo|);
            Quiet(s') && Work(s') < Work(s) && (|s'.tx.fifo| == FIFO_DEPTH || !s'.port.ctl.we)
            && s'.rx == s.rx && s'.port.ctl.re == s.port.ctl.re
  {
    DrainAllUses(s.tx, FIFO_DEPTH - |s.tx.fifo|);
  }

  /**
   Every pass empties the receive FIFO or turns its interrupt off, and uses up the write space or turns
   that interrupt off; so there is always less left to do.
   */
  lemma PassMakesProgress(s: Uart, pause: bool)
    requires Quiet(s)
    ensures var c := ReadControl(s.port.ctl, s.rx.fifo, s.tx.fifo, pause);
            var s' := Pass(s, c);
            && (c.ri ==> s'.rx.fifo == [] || !s'.port.ctl.re)
            && (c.wi ==> |s'.tx.fifo| == FIFO_DEPTH || !s'.port.ctl.we)
            && (c.ri || c.wi ==> Work(s') < Work(s))
            && Quiet(s')
  {
    var c := ReadControl(s.port.ctl, s.rx.fifo, s.tx.fifo, pause);
    if c.ri { ReceivedProgress(s); }
    if c.wi { TransmittedProgress(if c.ri then Received(s) else s); }
  }

  // ----------------------------------------------------------------------------------------------
  // A pass is a run of interrupt steps of the machine
  // ----------------------------------------------------------------------------------------------

  ghost predicate IsrSteps(acts: seq<Action>)
  {
    forall i :: 0 <= i < |acts| ==> acts[i].IsrStep?
  }

  /** `s'` is `s` after some interrupt steps. */
  ghost predicate After(s: Uart, s': Uart)
  {
    exists acts :: IsrSteps(acts) && Exec(s, acts) == s'
  }

  lemma OneStep(s: Uart, pause: bool)
    requires Ready(s)
    ensures After(s, IsrNext(s, pause))
  {
    var acts := [IsrStep(pause)];
    RunOneMore(Step, s, [], IsrStep(pause));
    assert [] + acts == acts;
    assert IsrSteps(acts) && Exec(s, acts) == Step(s, IsrStep(pause));
  }

  lemma AfterAfter(s: Uart, s1: Uart, s2: Uart)
    requires After(s, s1) && After(s1, s2)
    ensures After(s, s2)
  {
    var first :| IsrSteps(first) && Exec(s, first) == s1;
    var next :| IsrSteps(next) && Exec(s1, next) == s2;
    RunJoin(Step, s, first, next);
    assert IsrSteps(first + next) && Exec(s, first + next) == s2;
  }

  lemma AfterKeeps(s: Uart, s': Uart)
    requires Inv(s) && After(s, s')
    ensures Inv(s')
  {
    var acts :| IsrSteps(acts) && Exec(s, acts) == s';
    ExecKeeps(s, acts);
  }

  lemma StepAfter(s: Uart, pause: bool, t: Uart)
    requires Ready(s) && After(IsrNext(s, pause), t)
    ensures After(s, t)
  {
    OneStep(s, pause);
    AfterAfter(s, IsrNext(s, pause), t);
  }

  /** Where the receive loop ends that starts in `s`. */
  function FillEnds(s: Uart, avail: nat, c: Control): Uart
  {
    var (rx', avail') := FillAll(s.rx, avail);
    s.(rx := rx', port := s.port.(isr := FillEnd(avail', c)))
  }

  lemma FillStep(s: Uart, avail: nat, c: Control)
    requires Ready(s) && s.port.isr == Fill(avail, c)
    ensures var s1 := IsrNext(s, false);
            if Advance(s.rx.put, 1) != s.rx.take && s.rx.fifo != []
            then && s1.port.isr == Fill(|s.rx.fifo| - 1, c) && |s1.rx.fifo| < |s.rx.fifo|
                 && FillEnds(s1, |s.rx.fifo| - 1, c) == FillEnds(s, avail, c)
            else s1 == FillEnds(s, avail, c)
  {
  }

  /** One step of the loop, and the rest of it. */
  lemma FillGoesOn(s: Uart, avail: nat, c: Control)
    requires Ready(s) && s.port.isr == Fill(avail, c) && Advance(s.rx.put, 1) != s.rx.take && s.rx.fifo != []
    requires After(IsrNext(s, false), FillEnds(IsrNext(s, false), |s.rx.fifo| - 1, c))
    ensures After(s, FillEnds(s, avail, c))
  {
    FillStep(s, avail, c);
    StepAfter(s, false, FillEnds(s, avail, c));
  }

  /** The state after one step inside the loop, from which the rest of the loop is still to run. */
  lemma FillInside(s: Uart, avail: nat, c: Control) returns (s1: Uart)
    requires Inv(s) && s.port.isr == Fill(avail, c) && Advance(s.rx.put, 1) != s.rx.take && s.rx.fifo != []
    ensures Inv(s1) && s1.port.isr == Fill(|s.rx.fifo| - 1, c) && |s1.rx.fifo| < |s.rx.fifo|
    ensures After(s1, FillEnds(s1, |s.rx.fifo| - 1, c)) ==> After(s, FillEnds(s, avail, c))
  {
    s1 := IsrNext(s, false);
    FillStep(s, avail, c);
    IsrStepKeeps(s, false);
    if After(s1, FillEnds(s1, |s.rx.fifo| - 1, c)) { FillGoesOn(s, avail, c); }
  }

  lemma FillStops(s: Uart, avail: nat, c: Control)
    requires Ready(s) && s.port.isr == Fill(avail, c) && !(Advance(s.rx.put, 1) != s.rx.take && s.rx.fifo != [])
    ensures After(s, FillEnds(s, avail, c))
  {
    FillStep(s, avail, c);
    OneStep(s, false);
  }

  lemma {:induction false} FillSteps(s: Uart, avail: nat, c: Control)
    requires Inv(s) && s.port.isr == Fill(avail, c)
    ensures After(s, FillEnds(s, avail, c))
    decreases |s.rx.fifo|
  {
    if Advance(s.rx.put, 1) != s.rx.take && s.rx.fifo != [] {
      var s1 := FillInside(s, avail, c);
      FillSteps(s1, |s.rx.fifo| - 1, c);
    } else {
      FillStops(s, avail, c);
    }
  }

  /** Where the transmit loop ends that starts in `s`. */
  function DrainEnds(s: Uart, space: nat): Uart
  {
    var (tx', left) := DrainAll(s.tx, space);
    s.(tx := tx', port := s.port.(isr := DrainEnd(left)))
  }

  lemma DrainStep(s: Uart, space: nat)
    requires Ready(s) && s.port.isr == Drain(space)
    ensures var s1 := IsrNext(s, false);
            if space > 0 && s.tx.take != s.tx.put
            then s1.port.isr == Drain(space - 1) && DrainEnds(s1, space - 1) == DrainEnds(s, space)
            else s1 == DrainEnds(s, space)
  {
  }

  lemma {:induction false} DrainSteps(s: Uart, space: nat)
    requires Inv(s) && s.port.isr == Drain(space)
    ensures After(s, DrainEnds(s, space))
    decreases space
  {
    DrainStep(s, space);
    if space > 0 && s.tx.take != s.tx.put {
      IsrStepKeeps(s, false);
      DrainSteps(IsrNext(s, false), space - 1);
      StepAfter(s, false, DrainEnds(s, space));
    } else {
      OneStep(s, false);
    }
  }

  /** The receive half of a pass: from reading the control register to the end of the receive part. */
  lemma ReceiveIsRun(s: Uart, c: Control)
    requires Inv(s) && s.port.isr == Fill(1, c)
    ensures var r := Received(s);
            After(s, r.(port := r.port.(isr := if c.wi then Drain(c.wspace) else Poll)))
  {
    FillSteps(s, 1, c);
    var s1 := FillEnds(s, 1, c);
    AfterKeeps(s, s1);
    OneStep(s1, false);
    AfterAfter(s, s1, IsrNext(s1, false));
  }

  lemma TransmitIsRun(s: Uart, space: nat)
    requires Inv(s) && s.port.isr == Drain(space)
    ensures var t := Transmitted(s, space);
            After(s, t.(port := t.port.(isr := Poll)))
  {
    DrainSteps(s, space);
    var s1 := DrainEnds(s, space);
    AfterKeeps(s, s1);
    OneStep(s1, false);
    AfterAfter(s, s1, IsrNext(s1, false));
  }

  /** A whole pass, the read of the control register included, is a run of interrupt steps. */
  lemma PassIsRun(s: Uart, pause: bool)
    requires Inv(s) && s.port.isr.Poll?
    ensures var c := ReadControl(s.port.ctl, s.rx.fifo, s.tx.fifo, pause);
            After(s, if c.ri || c.wi then Pass(s, c) else s.(port := s.port.(isr := Off)))
  {
    var c := ReadControl(s.port.ctl, s.rx.fifo, s.tx.fifo, pause);
    var s1 := IsrNext(s, pause);
    OneStep(s, pause);
    if c.ri || c.wi {
      IsrStepKeeps(s, pause);
      PassAfter(s1, Pass(s, c), s, c);
      AfterAfter(s, s1, Pass(s, c));
    }
  }

  /** The state after a read of the control register and, unless nothing was pending, the pass it started. */
  function Outcome(s: Uart, pause: bool): Uart
    requires |s.tx.fifo| <= FIFO_DEPTH && |s.rx.fifo| <= FIFO_DEPTH
  {
    var c := ReadControl(s.port.ctl, s.rx.fifo, s.tx.fifo, pause);
    if c.ri || c.wi then Pass(s, c) else s.(port := s.port.(isr := Off))
  }

  lemma {:induction false} FillAllFull(rx: Rx, avail: nat)
    ensures FillAll(rx, avail).1 > 0 ==> Full(FillAll(rx, avail).0.take, FillAll(rx, avail).0.put)
    decreases |rx.fifo|
  {
    FullTest(rx.take, rx.put);
    if Advance(rx.put, 1) != rx.take && rx.fifo != [] { FillAllFull(FillOne(rx), |rx.fifo| - 1); }
  }

  lemma {:induction false} DrainAllEmpty(tx: Tx, space: nat)
    ensures DrainAll(tx, space).1 > 0 ==> DrainAll(tx, space).0.take == DrainAll(tx, space).0.put
    decreases space
  {
    if space > 0 && tx.take != tx.put { DrainAllEmpty(DrainOne(tx), space - 1); }
  }

  lemma ReceivedFull(s: Uart)
    requires s.port.ctl.re
    ensures !Received(s).port.ctl.re ==> Full(Received(s).rx.take, Received(s).rx.put)
  {
    FillAllFull(s.rx, 1);
  }

  lemma TransmittedEmpty(s: Uart, space: nat)
    requires s.port.ctl.we
    ensures !Transmitted(s, space).port.ctl.we ==> Transmitted(s, space).tx.take == Transmitted(s, space).tx.put
  {
    DrainAllEmpty(s.tx, space);
  }

  /**
   A turn of the outer loop serves whoever waits: after a pause of the host any byte it has sent, without one a FIFO
   that is nearly full, and the transmitter when its FIFO is nearly empty. It empties the one FIFO, or turns its
   interrupt off with a full ring; it fills the other, or turns its interrupt off with an empty ring.
   */
  lemma OutcomeServes(s: Uart, pause: bool)
    requires Inv(s)
    ensures var t := Outcome(s, pause);
            && (s.port.ctl.re && s.rx.fifo != [] && (pause || |s.rx.fifo| >= 56) ==>
                  t.rx.fifo == [] || (!t.port.ctl.re && Full(t.rx.take, t.rx.put)))
            && (s.port.ctl.we && |s.tx.fifo| <= 8 ==>
                  |t.tx.fifo| == 64 || (!t.port.ctl.we && t.tx.take == t.tx.put))
  {
    var c := ReadControl(s.port.ctl, s.rx.fifo, s.tx.fifo, pause);
    PassMakesProgress(s, pause);
    if c.ri { ReceivedFull(s); }
    if c.wi { TransmittedEmpty(if c.ri then Received(s) else s, c.wspace); }
  }

  lemma OutcomeIsRun(start: Uart, s: Uart, pause: bool)
    requires After(start, s) && Inv(s) && s.port.isr.Poll?
    ensures After(start, Outcome(s, pause)) && Inv(Outcome(s, pause))
  {
    PassIsRun(s, pause);
    AfterAfter(start, s, Outcome(s, pause));
    AfterKeeps(s, Outcome(s, pause));
  }

  lemma PassStaysInLoop(s: Uart, c: Control)
    requires s.port.isr.Poll?
    ensures Pass(s, c).port.isr.Poll?
  {
  }

  lemma PassAfter(s1: Uart, s2: Uart, s: Uart, c: Control)
    requires Inv(s1) && s.port.isr.Poll? && (c.ri || c.wi)
    requires s1 == s.(port := s.port.(isr := if c.ri then Fill(1, c) else Drain(c.wspace)))
    requires s2 == Pass(s, c)
    ensures After(s1, s2)
  {
    if c.ri {
      ReceiveIsRun(s1, c);
      var r := Received(s1);
      var r' := r.(port := r.port.(isr := if c.wi then Drain(c.wspace) else Poll));
      AfterKeeps(s1, r');
      if c.wi {
        TransmitIsRun(r', c.wspace);
        AfterAfter(s1, r', s2);
      }
    } else {
      TransmitIsRun(s1, c.wspace);
    }
  }

  // ----------------------------------------------------------------------------------------------
  // The routine
  // ----------------------------------------------------------------------------------------------

  /** The fields of the state structure and of the device that the interrupt routine uses. */
  class IsrState {
    const rxBuf: array<Byte>
    const txBuf: array<Byte>
    var rxIn: Index
    var rxOut: Index
    var txIn: Index
    var txOut: Index
    var irqEnable: Enables
    var ctl: Enables
    var rxFifo: seq<Byte>
    var txFifo: seq<Byte>

    /** The state structure and the device as the initialisation routine leaves them. */
    constructor (rx: array<Byte>, tx: array<Byte>)
      requires rx.Length == BUF_LEN && tx.Length == BUF_LEN && rx != tx
      ensures Matches(Init(tx[..], rx[..], 0))
    {
      rxBuf, txBuf := rx, tx;
      rxIn, rxOut, txIn, txOut := 0, 0, 0, 0;
      irqEnable, ctl := Enables(true, false), Enables(true, false);
      rxFifo, txFifo := [], [];
    }

    ghost predicate RxMatches(rx: Rx)
      reads this, rxBuf
    {
      rxBuf[..] == rx.buf && rxIn == rx.put && rxOut == rx.take && rxFifo == rx.fifo
    }

    ghost predicate TxMatches(tx: Tx)
      reads this, txBuf
    {
      txBuf[..] == tx.buf && txIn == tx.put && txOut == tx.take && txFifo == tx.fifo
    }

    /** The concrete state is the state `s` of the machine. */
    ghost predicate Matches(s: Uart)
      reads this, rxBuf, txBuf
    {
      && rxBuf != txBuf
      && RxMatches(s.rx) && TxMatches(s.tx)
      && irqEnable == s.port.irqEnable && ctl == s.port.ctl
    }

    /** The receive part of a pass. */
    method Receive(ghost s: Uart)
      requires Matches(s)
      modifies this, rxBuf
      ensures Matches(Received(s)) && txFifo == old(txFifo)
    {
      var avail: nat := 1;
      ghost var rx := s.rx;
      while true
        invariant RxMatches(rx) && FillAll(rx, avail) == FillAll(s.rx, 1)
        invariant TxMatches(s.tx) && irqEnable == s.port.irqEnable && ctl == s.port.ctl
        invariant txFifo == old(txFifo)
        decreases |rxFifo|
      {
        var next := Advance(rxIn, 1);
        if next == rxOut {
          break;
        }
        if |rxFifo| == 0 {
          avail := 0;
          break;
        }
        rxBuf[rxIn] := rxFifo[0];
        rxIn := Advance(rxIn, 1);
        rxFifo := rxFifo[1..];
        avail := |rxFifo|;
        rx := FillOne(rx);
      }
      if avail > 0 {
        irqEnable := irqEnable.(re := false);
        ctl := irqEnable;
      }
      assert FillAll(s.rx, 1) == (rx, avail);
    }

    /** The transmit part of a pass. */
    method Transmit(ghost s: Uart, space0: nat)
      requires Matches(s)
      requires space0 <= FIFO_DEPTH - |txFifo|
      modifies this
      ensures Matches(Transmitted(s, space0))
    {
      var space: nat := space0;
      ghost var tx := s.tx;
      while space > 0 && txOut != txIn
        invariant TxMatches(tx) && DrainAll(tx, space) == DrainAll(s.tx, space0)
        invariant space <= FIFO_DEPTH - |txFifo|
        invariant RxMatches(s.rx) && irqEnable == s.port.irqEnable && ctl == s.port.ctl
      {
        txFifo := txFifo + [txBuf[txOut]];
        txOut := Advance(txOut, 1);
        space := space - 1;
        tx := DrainOne(tx);
      }
      if space > 0 {
        irqEnable := irqEnable.(we := false);
        ctl := irqEnable;
      }
      assert DrainAll(s.tx, space0) == (tx, space);
    }

    /**
     The routine returns, and from the machine's point of view it only took interrupt steps; on return
     the control register shows nothing that is still pending.
     */
    method Irq(ghost s: Uart) returns (ghost s': Uart)
      requires Inv(s) && s.port.isr.Off? && Matches(s)
      modifies this, rxBuf
      ensures s'.port.isr.Off? && Matches(s') && Inv(s')
      ensures After(Step(s, Interrupt), s')
      ensures ctl.we ==> |txFifo| > WRITE_THRESHOLD
      ensures ctl.re && rxFifo != [] ==> FIFO_DEPTH - |rxFifo| > READ_THRESHOLD
    {
      ghost var start := Begin(s);
      s' := start;
      while true
        invariant After(start, s') && Inv(s') && Matches(s') && s'.port.isr.Poll?
        decreases Work(s')
      {
        var pause: bool := *;
        var c := ReadControl(ctl, rxFifo, txFifo, pause);
        OutcomeIsRun(start, s', pause);
        if !c.ri && !c.wi {
          s' := Outcome(s', pause);
          return;
        }
        PassMakesProgress(s', pause);
        PassStaysInLoop(s', c);
        PerformPass(s', c);
        s' := Pass(s', c);
      }
    }

    /** The body of the outer loop. */
    method PerformPass(ghost s: Uart, c: Control)
      requires Matches(s) && c.wspace <= FIFO_DEPTH - |txFifo|
      modifies this, rxBuf
      ensures Matches(Pass(s, c))
    {
      if c.ri {
        Receive(s);
      }
      if c.wi {
        Transmit(if c.ri then Received(s) else s, c.wspace);
      }
    }

    lemma Begin(s: Uart) returns (start: Uart)
      requires Inv(s) && s.port.isr.Off? && Matches(s)
      ensures start == Step(s, Interrupt) && Inv(start) && start.port.isr.Poll? && Matches(start)
      ensures After(start, start)
    {
      start := Step(s, Interrupt);
      StepKeeps(s, Interrupt);
      assert IsrSteps([]) && Exec(start, []) == start;
    }
  }
}
