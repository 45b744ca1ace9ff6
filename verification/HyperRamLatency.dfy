/**
 How long a request takes: within a fixed number of cycles besides those in which the memory holds RWDS low, a read
 that was accepted is answered, and after a write that was accepted the controller is idle again.
 */
module HyperRamLatency {
  import opened HyperRam
  import opened HyperRamBursts
  import opened HyperRamRuns
  import opened Runs

  function LowCycle(i: In): nat { if i.rwdsIn then 0 else 1 }

  /** Cycles in which the memory holds RWDS low. */
  function Low(ins: seq<In>): nat { Weight(LowCycle, ins) }

  predicate Answered(s: System) { s.h.ctl.readdatavalid }

  predicate AtRest(s: System) { s.h.ctl.state.IDLE? }

  /** A write that the idle controller accepts at this edge. */
  predicate AcceptsWrite(c: Ctl)
  {
    && c.state.IDLE? && !(c.req.regr && !c.prev.regr) && !(c.req.regw && !c.prev.regw)
    && !(c.req.memr && !c.prev.memr) && c.req.memw && !c.prev.memw
  }

  /** `n` cycles after it was accepted, `low` of them with RWDS low, a read is still on its way. */
  ghost predicate ReadFlight(s: System, n: nat, low: nat)
  {
    match s.h.ctl.state
    case RDMEM2 => s.h.ctl.row && s.log.cycles == n && s.log.waits <= low
    case RDMEM1 => n <= 42 + low
    case _ => false
  }

  /** The same for a write: fetching the line, storing the word, sending the line, pausing. */
  ghost predicate WriteFlight(s: System, n: nat, low: nat)
  {
    match s.h.ctl.state
    case RDMEM2 => !s.h.ctl.row && s.log.cycles == n && s.log.waits <= low
    case WRMEM1 => n <= 42 + low
    case WRMEM2 => n + s.log.waits <= 43 + low + s.log.cycles
    case ACCDLY => n + s.h.ctl.acc <= 90 + low
    case _ => false
  }

  // ----------------------------------------------------------------------------------------------
  // One cycle
  // ----------------------------------------------------------------------------------------------

  lemma RowKept(h: Hw, i: In)
    requires h.ctl.state.RDMEM2? && !h.rm.stmEnd
    ensures Clock(h, i).ctl.row == h.ctl.row
  {
  }

  lemma BurstBegins(h: Hw, i: In, log: Log)
    requires Bursting(Clock(h, i).ctl.state) && Clock(h, i).ctl.state != h.ctl.state
    ensures NextLog(h, i, log).cycles == 0 && NextLog(h, i, log).waits == 0
  {
  }

  /** A cycle inside a burst counts, and as a wait only with RWDS low. */
  lemma BurstCounts(h: Hw, log: Log, i: In, h': Hw, log': Log)
    requires BurstEdge(h, log, i, h', log')
    ensures log'.cycles == log.cycles + 1 && log'.waits <= log.waits + LowCycle(i)
  {
  }

  lemma FetchGoesOn(s: System, i: In)
    requires Inv(s) && s.h.ctl.state.RDMEM2? && Time(s.log) < 41
    ensures var h', log' := Clock(s.h, i), NextLog(s.h, i, s.log);
            && h'.ctl.state.RDMEM2? && h'.ctl.row == s.h.ctl.row
            && log'.cycles == s.log.cycles + 1 && log'.waits <= s.log.waits + LowCycle(i)
  {
    RdUnfold(s, i);
    RowKept(s.h, i);
    BurstCounts(s.h, s.log, i, Clock(s.h, i), NextLog(s.h, i, s.log));
  }

  lemma FetchLeaves(s: System, i: In)
    requires Inv(s) && s.h.ctl.state.RDMEM2? && Time(s.log) >= 41
    ensures Clock(s.h, i).ctl.state == (if s.h.ctl.row then RDMEM1 else WRMEM1) && s.log.cycles == 41 + s.log.waits
  {
    RdEndsKeeps(s, i);
  }

  lemma FetchFlight(s: System, i: In, n: nat, low: nat)
    requires Inv(s) && ReadFlight(s, n, low) && s.h.ctl.state.RDMEM2?
    ensures ReadFlight(Step(s, i), n + 1, low + LowCycle(i))
  {
    if Time(s.log) < 41 { FetchGoesOn(s, i); } else { FetchLeaves(s, i); }
  }

  lemma ReadFlightStep(s: System, i: In, n: nat, low: nat)
    requires Inv(s) && ReadFlight(s, n, low)
    ensures ReadFlight(Step(s, i), n + 1, low + LowCycle(i)) || Answered(Step(s, i))
  {
    if s.h.ctl.state.RDMEM1? { Rdmem1Answers(s.h, i); } else { FetchFlight(s, i, n, low); }
  }

  lemma SendCounts(s: System, i: In)
    requires Inv(s) && s.h.ctl.state.WRMEM2? && Time(s.log) < 38
    ensures var h', log' := Clock(s.h, i), NextLog(s.h, i, s.log);
            && h'.ctl.state.WRMEM2?
            && log'.cycles == s.log.cycles + 1 && log'.waits <= s.log.waits + LowCycle(i)
  {
    WrUnfold(s, i);
    BurstCounts(s.h, s.log, i, Clock(s.h, i), NextLog(s.h, i, s.log));
  }

  lemma AccKept(c: Ctl, rr: RdReg, rm: RdMem, wm: WrMem, i: In)
    requires c.state.WRMEM2?
    ensures NextState(c, rr, rm, wm, i).acc == c.acc
  {
  }

  lemma SendLeaves(s: System, i: In)
    requires Inv(s) && s.h.ctl.state.WRMEM2? && Time(s.log) >= 38
    ensures Clock(s.h, i).ctl.state.ACCDLY? && Clock(s.h, i).ctl.acc == 8 && s.log.cycles == 38 + s.log.waits
  {
    WrEndsKeeps(s, i);
    AccKept(s.h.ctl, s.h.rr, s.h.rm, s.h.wm, i);
  }

  lemma PauseStep(c: Ctl, rr: RdReg, rm: RdMem, wm: WrMem, i: In)
    requires c.state.ACCDLY?
    ensures var c' := NextState(c, rr, rm, wm, i);
            if c.acc == 0 then c'.state.IDLE? else c'.state.ACCDLY? && c'.acc == c.acc - 1
  {
  }

  lemma StoreStep(s: System, i: In)
    requires s.h.ctl.state.WRMEM1?
    ensures var s' := Step(s, i);
            s'.h.ctl.state.IDLE? || (s'.h.ctl.state.WRMEM2? && s'.log.cycles == 0 && s'.log.waits == 0)
  {
    Wrmem1Writes(s.h, i);
    if Clock(s.h, i).ctl.state.WRMEM2? { BurstBegins(s.h, i, s.log); }
  }

  lemma WriteFlightStep(s: System, i: In, n: nat, low: nat)
    requires Inv(s) && WriteFlight(s, n, low)
    ensures WriteFlight(Step(s, i), n + 1, low + LowCycle(i)) || AtRest(Step(s, i))
  {
    match s.h.ctl.state
    case RDMEM2 => if Time(s.log) < 41 { FetchGoesOn(s, i); } else { FetchLeaves(s, i); }
    case WRMEM1 => StoreStep(s, i);
    case WRMEM2 => if Time(s.log) < 38 { SendCounts(s, i); } else { SendLeaves(s, i); }
    case ACCDLY => PauseStep(s.h.ctl, s.h.rr, s.h.rm, s.h.wm, i);
  }

  /** At the edge that accepts it a read starts out, and so does a write. */
  lemma FlightStarts(s: System, i: In)
    requires s.h.ctl.state.IDLE?
    ensures AcceptsRead(s.h.ctl) ==> ReadFlight(Step(s, i), 0, 0)
    ensures AcceptsWrite(s.h.ctl) ==> WriteFlight(Step(s, i), 0, 0)
  {
    var c := NextIdle(s.h.ctl, i);
    assert AcceptsRead(s.h.ctl) ==> c.row && (c.state.RDMEM1? || c.state.RDMEM2?);
    assert AcceptsWrite(s.h.ctl) ==> !c.row && (c.state.WRMEM1? || c.state.RDMEM2?);
    if Clock(s.h, i).ctl.state.RDMEM2? { BurstBegins(s.h, i, s.log); }
  }

  // ----------------------------------------------------------------------------------------------
  // Runs
  // ----------------------------------------------------------------------------------------------

  lemma CyclesKeep()
    ensures forall t: System, i: In :: Inv(t) ==> Inv(Step(t, i))
  {
    forall t: System, i: In | Inv(t) ensures Inv(Step(t, i)) { CycleKeeps(t, i); }
  }

  lemma ReadFlightSteps()
    ensures forall t: System, i: In, n: nat, m: nat, k: nat, l: nat ::
              Inv(t) && ReadFlight(t, n, k) && m == n + 1 && l == k + LowCycle(i) ==>
                ReadFlight(Step(t, i), m, l) || Answered(Step(t, i))
  {
    forall t: System, i: In, n: nat, m: nat, k: nat, l: nat
      | Inv(t) && ReadFlight(t, n, k) && m == n + 1 && l == k + LowCycle(i)
      ensures ReadFlight(Step(t, i), m, l) || Answered(Step(t, i))
    {
      ReadFlightStep(t, i, n, k);
    }
  }

  lemma WriteFlightSteps()
    ensures forall t: System, i: In, n: nat, m: nat, k: nat, l: nat ::
              Inv(t) && WriteFlight(t, n, k) && m == n + 1 && l == k + LowCycle(i) ==>
                WriteFlight(Step(t, i), m, l) || AtRest(Step(t, i))
  {
    forall t: System, i: In, n: nat, m: nat, k: nat, l: nat
      | Inv(t) && WriteFlight(t, n, k) && m == n + 1 && l == k + LowCycle(i)
      ensures WriteFlight(Step(t, i), m, l) || AtRest(Step(t, i))
    {
      WriteFlightStep(t, i, n, k);
    }
  }

  lemma ReadFlies(s: System, next: seq<In>)
    requires Inv(s) && ReadFlight(s, 0, 0)
    ensures Inv(Run(Step, s, next))
    ensures Passes(Step, s, next, Answered) || ReadFlight(Run(Step, s, next), |next|, Low(next))
  {
    CyclesKeep();
    ReadFlightSteps();
    RunFlies(Step, s, next, LowCycle, Inv, ReadFlight, Answered);
  }

  lemma WriteFlies(s: System, next: seq<In>)
    requires Inv(s) && WriteFlight(s, 0, 0)
    ensures Inv(Run(Step, s, next))
    ensures Passes(Step, s, next, AtRest) || WriteFlight(Run(Step, s, next), |next|, Low(next))
  {
    CyclesKeep();
    WriteFlightSteps();
    RunFlies(Step, s, next, LowCycle, Inv, WriteFlight, AtRest);
  }

  /** A flight cannot last. */
  lemma FlightEnds(s: System, n: nat, low: nat)
    requires Inv(s)
    ensures ReadFlight(s, n, low) ==> n <= 42 + low
    ensures WriteFlight(s, n, low) ==> n <= 90 + low
  {
  }

  /**
   A memory read that is accepted in any reachable state is answered at most 43 cycles after that, not counting cycles
   with RWDS low, whatever else is on the bus.
   */
  lemma ReadLatency(word: Word, half: Half, tail: Packed, ins: seq<In>, i: In, next: seq<In>)
    requires AcceptsRead(Reach(word, half, tail, ins).h.ctl) && |next| >= 43 + Low(next)
    ensures Passes(Step, Reach(word, half, tail, ins + [i]), next, Answered)
  {
    var s := Reach(word, half, tail, ins + [i]);
    ReachKeeps(word, half, tail, ins + [i]);
    ReachOneMore(word, half, tail, ins, i);
    FlightStarts(Reach(word, half, tail, ins), i);
    ReadFlies(s, next);
    FlightEnds(Run(Step, s, next), |next|, Low(next));
  }

  /** After a memory write that is accepted the controller is idle again at most 91 such cycles later. */
  lemma WriteLatency(word: Word, half: Half, tail: Packed, ins: seq<In>, i: In, next: seq<In>)
    requires AcceptsWrite(Reach(word, half, tail, ins).h.ctl) && |next| >= 91 + Low(next)
    ensures Passes(Step, Reach(word, half, tail, ins + [i]), next, AtRest)
  {
    var s := Reach(word, half, tail, ins + [i]);
    ReachKeeps(word, half, tail, ins + [i]);
    ReachOneMore(word, half, tail, ins, i);
    FlightStarts(Reach(word, half, tail, ins), i);
    WriteFlies(s, next);
    FlightEnds(Run(Step, s, next), |next|, Low(next));
  }
}
