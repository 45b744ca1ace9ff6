/**
 The controller with its engines over whole runs from reset, for arbitrary inputs in every cycle. A log
 beside the registers records what a run did; no register depends on it.
 */
module HyperRamRuns {
  import opened HyperRam
  import opened HyperRamBursts
  import opened Runs

  /**
   `memReads`/`memAnswers` count accepted memory reads and cycles with readdatavalid, `regReads`/`regAnswers`
   the same for register reads. The other fields describe the current or last burst: its cycles and how
   many of them it waited for RWDS, engine starts, the command and the line handed over, the halfwords
   sampled, the words shifted into the line buffer, the halfwords shifted out, and the halfwords on the
   data pins in cycles with their output enabled.
   */
  datatype Log = Log(memReads: nat, memAnswers: nat, regReads: nat, regAnswers: nat,
                     cycles: nat, waits: nat, starts: nat, cmd: Command, old': Line, sampled: Half,
                     samples: seq<Half>, filled: nat, shifted: seq<Half>, driven: seq<Half>)

  datatype System = System(h: Hw, log: Log)

  predicate Bursting(s: TopState) { s.RDREG? || s.RDMEM2? || s.WRMEM2? }

  /** A read that the idle controller accepts at this edge. */
  predicate AcceptsRead(c: Ctl)
  {
    c.state.IDLE? && !(c.req.regr && !c.prev.regr) && !(c.req.regw && !c.prev.regw) && c.req.memr && !c.prev.memr
  }

  predicate AcceptsRegRead(c: Ctl)
  {
    c.state.IDLE? && c.req.regr && !c.prev.regr
  }

  /** An engine leaves its idle state at this edge. */
  predicate EngineStarts(h: Hw)
  {
    || (h.rr.phase.EIdle? && h.ctl.start.rdreg)
    || (h.rm.phase.EIdle? && h.ctl.start.rdmem)
    || (h.wm.phase.EIdle? && h.ctl.start.wrmem)
  }

  /** The engine of the current burst waits for RWDS. */
  predicate Waits(h: Hw, i: In)
  {
    !i.rwdsIn &&
    match h.ctl.state
    case RDREG => h.rr.phase.ECa? && h.rr.counter == 0
    case RDMEM2 => h.rm.phase.ECa? && h.rm.counter == 0
    case WRMEM2 => h.wm.phase.ECa? && h.wm.counter == 0
    case _ => false
  }

  /** What leaves the output register of the active engine at this edge. */
  function ShiftedOut(h: Hw): seq<Half>
  {
    if h.ctl.state.RDMEM2? && h.rm.phase.ECa? && 1 <= h.rm.counter < 4 then [h.rm.out[0]]
    else if h.ctl.state.WRMEM2? && WrShifts(h.wm) then [h.wm.out[0]]
    else if h.ctl.state.RDREG? && h.rr.phase.ECa? && 1 <= h.rr.counter < 4 then [h.rr.out[0]]
    else []
  }

  function NextLog(h: Hw, i: In, log: Log): Log
  {
    var h' := Clock(h, i);
    var counted := log.(
      memReads := log.memReads + if AcceptsRead(h.ctl) then 1 else 0,
      memAnswers := log.memAnswers + if h'.ctl.readdatavalid then 1 else 0,
      regReads := log.regReads + if AcceptsRegRead(h.ctl) then 1 else 0,
      regAnswers := log.regAnswers + if h'.rr.valid then 1 else 0);
    if Bursting(h'.ctl.state) && h'.ctl.state != h.ctl.state then
      counted.(cycles := 0, waits := 0, starts := 0, old' := h.ctl.line,
               samples := [], filled := 0, shifted := [], driven := [])
    else
      counted.(
        cycles := log.cycles + if Bursting(h.ctl.state) then 1 else 0,
        waits := log.waits + if Waits(h, i) then 1 else 0,
        starts := log.starts + if EngineStarts(h) then 1 else 0,
        cmd := if h.ctl.state.RDREG? && log.cycles == 0 then RegCommand(h.ctl.csrAddr)
               else if (h.ctl.state.RDMEM2? || h.ctl.state.WRMEM2?) && log.cycles == 1 then i.ca
               else log.cmd,
        samples := if RdSamples(h.rm) then log.samples + [i.dataout] else log.samples,
        sampled := if h.rr.phase.ERun? && h.rr.counter == 14 then i.dataout else log.sampled,
        filled := log.filled + if h.ctl.state.RDMEM2? && h.rm.wordvalid then 1 else 0,
        shifted := log.shifted + ShiftedOut(h),
        driven := if h.pins.oe then log.driven + [h.pins.datain] else log.driven)
  }

  function Step(s: System, i: In): System
  {
    System(Clock(s.h, i), NextLog(s.h, i, s.log))
  }

  function Init(word: Word, half: Half, tail: Packed): System
  {
    System(Reset(word, half, tail),
           Log(0, 0, 0, 0, 0, 0, 0, Command(0, 0, 0), seq(8, _ => Word(0, 0)), 0, [], 0, [], []))
  }

  // ----------------------------------------------------------------------------------------------
  // What every cycle keeps
  // ----------------------------------------------------------------------------------------------

  /** The register-read engine is idle; its end signal, if still up, is up where nothing looks at it. */
  ghost predicate RgQuiet(h: Hw)
  {
    && h.rr.phase.EIdle? && !h.ctl.start.rdreg && !h.rr.oe && h.rr.csn && !h.rr.valid
    && (h.rr.stmEnd ==> h.ctl.state.IDLE?)
  }

  ghost predicate RmQuiet(h: Hw)
  {
    && h.rm.phase.EIdle? && !h.ctl.start.rdmem && !h.rm.oe && h.rm.csn && !h.rm.inner && !h.rm.wordvalid
    && (h.rm.stmEnd ==> h.ctl.state.RDMEM1? || h.ctl.state.WRMEM1?)
  }

  ghost predicate WmQuiet(h: Hw)
  {
    && h.wm.phase.EIdle? && !h.ctl.start.wrmem && !h.wm.oe && h.wm.csn && !h.ctl.inbufValid
    && (h.wm.stmEnd ==> h.ctl.state.ACCDLY? && h.ctl.acc == 8)
  }

  /** What the state machine remembers between bursts. */
  ghost predicate CtlInv(c: Ctl)
  {
    && (c.start.wrreg ==> c.state.WRREG?)
    && (c.readdatavalid ==> c.state.IDLE?)
    && (c.state.RDREG? || c.state.RDMEM1? || c.state.WRMEM1? || c.state.RDMEM2? ==> !c.wrTmp)
    && (!c.state.IDLE? && !c.state.ACCDLY? ==> c.acc == 8)
  }

  /** Words in the line buffer by time `t` of a read burst. */
  function Filled(t: nat): nat { if t < 25 then 0 else Clamp((t - 25) / 2, 8) }

  /** What a read burst drives: the command, then one cycle of zero. */
  function ReadTrace(cmd: Command): seq<Half> { cmd.Halves() + [0] }

  function ReadDriven(t: nat): nat { Clamp(t - 5, 4) }

  /** What a write burst drives: the command, the line, then one cycle of zero. */
  function WriteTrace(cmd: Command, line: Line): seq<Half> { cmd.Halves() + Pack(line) + [0] }

  function WriteDriven(t: nat): nat { if t <= 22 then Clamp(t - 5, 4) else Clamp(t - 19, 20) }

  /** The burst time: cycles not spent waiting. */
  function Time(log: Log): int { log.cycles - log.waits }

  /** A read burst: its handshake, its command and its engine. */
  ghost predicate RdCore(h: Hw, log: Log)
  {
    var t := Time(log);
    && h.ctl.state.RDMEM2?
    && 0 <= t && (t < 3 ==> log.waits == 0)
    && RdAt(h.rm, t, log.cmd, log.samples)
    && h.ctl.start == Starts(false, false, t >= 2, false) && h.ctl.rdTmp == (t >= 1)
    && (t == 2 ==> h.ctl.ca == log.cmd)
    && log.starts == (if t >= 3 then 1 else 0)
  }

  /** ... the line buffer ... */
  ghost predicate RdFill(h: Hw, log: Log)
  {
    Time(log) >= 0 && log.filled == Filled(Time(log)) && HoldsWords(h.ctl.line, log.samples, log.filled)
  }

  /** ... and the wires. */
  ghost predicate RdWires(h: Hw, log: Log)
  {
    var t := Time(log);
    && t >= 0
    && log.shifted == log.cmd.Halves()[..ReadShifts(t)]
    && h.pins.oe == (5 <= t <= 8) && (t != 3 ==> h.pins.csn == !(4 <= t <= 41))
    && log.driven == ReadTrace(log.cmd)[..ReadDriven(t)]
    && (h.pins.oe ==> h.pins.datain == ReadTrace(log.cmd)[t - 5])
  }

  ghost predicate RdVisit(h: Hw, log: Log)
  {
    RdCore(h, log) && RdFill(h, log) && RdWires(h, log)
  }

  /** The halfwords a write burst shifts out. */
  function WriteHalves(cmd: Command, line: Line): (all: seq<Half>)
    ensures |all| == 19
  {
    cmd.Halves() + Pack(line)
  }

  ghost predicate WrCore(h: Hw, log: Log)
  {
    var t := Time(log);
    && h.ctl.state.WRMEM2?
    && 0 <= t && (t < 3 ==> log.waits == 0)
    && WrAt(h.wm, t, WriteHalves(log.cmd, log.old'))
    && h.ctl.start == Starts(false, false, false, t >= 2) && h.ctl.wrTmp == (t >= 1)
    && h.ctl.inbufValid == (t == 0) && (t == 0 ==> h.ctl.wrLine == Pack(log.old'))
    && (t == 2 ==> h.ctl.ca == log.cmd)
    && log.starts == (if t >= 3 then 1 else 0)
  }

  ghost predicate WrWires(h: Hw, log: Log)
  {
    var t := Time(log);
    && t >= 0
    && log.shifted == WriteHalves(log.cmd, log.old')[..WriteShifts(t)]
    && h.pins.oe == (5 <= t <= 8 || 23 <= t <= 38) && (t != 3 ==> h.pins.csn == !(4 <= t <= 38))
    && log.driven == WriteTrace(log.cmd, log.old')[..WriteDriven(t)]
    && (h.pins.oe ==> WriteDriven(t) < 20 && h.pins.datain == WriteTrace(log.cmd, log.old')[WriteDriven(t)])
  }

  ghost predicate RgCore(h: Hw, log: Log)
  {
    var t := Time(log);
    && h.ctl.state.RDREG?
    && 0 <= t && (t < 2 ==> log.waits == 0)
    && RgAt(h.rr, t, log.cmd)
    && h.ctl.start == Starts(t >= 1, false, false, false)
    && (t == 1 ==> h.ctl.ca == log.cmd)
    && log.starts == (if t >= 2 then 1 else 0)
    && (t == 22 ==> h.rr.data == log.sampled)
  }

  ghost predicate RgWires(h: Hw, log: Log)
  {
    var t := Time(log);
    && t >= 0
    && log.shifted == log.cmd.Halves()[..Clamp(t - 3, 3)]
    && h.pins.oe == (4 <= t <= 7) && (t != 2 ==> h.pins.csn == !(3 <= t <= 22))
    && log.driven == ReadTrace(log.cmd)[..Clamp(t - 4, 4)]
    && (h.pins.oe ==> h.pins.datain == ReadTrace(log.cmd)[t - 4])
  }

  ghost predicate WrVisit(h: Hw, log: Log)
  {
    WrCore(h, log) && WrWires(h, log)
  }

  ghost predicate RgVisit(h: Hw, log: Log)
  {
    RgCore(h, log) && RgWires(h, log)
  }

  /** At most the engine of the controller's state is at work, and nothing is driven between bursts. */
  ghost predicate Steady(h: Hw, log: Log)
  {
    CtlInv(h.ctl) &&
    match h.ctl.state
    case RDMEM2 => RdVisit(h, log) && RgQuiet(h) && WmQuiet(h)
    case WRMEM2 => WrVisit(h, log) && RgQuiet(h) && RmQuiet(h)
    case RDREG => RgVisit(h, log) && RmQuiet(h) && WmQuiet(h)
    case _ => Between(h)
  }

  /** No engine works. */
  ghost predicate Between(h: Hw)
  {
    RgQuiet(h) && RmQuiet(h) && WmQuiet(h) && !h.pins.oe && h.pins.csn
  }

  /** A memory read that was accepted and not yet answered. */
  predicate ReadInFlight(c: Ctl)
  {
    c.state.RDMEM1? || (c.state.RDMEM2? && c.row)
  }

  predicate RegReadInFlight(h: Hw)
  {
    h.ctl.state.RDREG? && !h.rr.phase.EDone?
  }

  ghost predicate Counts(h: Hw, log: Log)
  {
    && log.memReads == log.memAnswers + (if ReadInFlight(h.ctl) then 1 else 0)
    && log.regReads == log.regAnswers + (if RegReadInFlight(h) then 1 else 0)
  }

  ghost predicate Inv(s: System)
  {
    Steady(s.h, s.log) && Counts(s.h, s.log)
  }

  lemma InitInv(word: Word, half: Half, tail: Packed)
    ensures Inv(Init(word, half, tail))
  {
  }

  /** What any cycle inside a burst does to the log and the wires. */
  ghost predicate BurstEdge(h: Hw, log: Log, i: In, h': Hw, log': Log)
  {
    && h'.ctl.state == h.ctl.state
    && h'.pins == NextPins(h)
    && log'.cycles == log.cycles + 1
    && log'.waits == log.waits + (if Waits(h, i) then 1 else 0)
    && log'.starts == log.starts + (if EngineStarts(h) then 1 else 0)
    && log'.old' == log.old'
    && log'.samples == (if RdSamples(h.rm) then log.samples + [i.dataout] else log.samples)
    && log'.filled == log.filled + (if h.ctl.state.RDMEM2? && h.rm.wordvalid then 1 else 0)
    && log'.shifted == log.shifted + ShiftedOut(h)
    && log'.driven == (if h.pins.oe then log.driven + [h.pins.datain] else log.driven)
  }

  /** What a cycle inside a read burst does to the registers of the controller. */
  ghost predicate RdEdge(h: Hw, log: Log, i: In, h': Hw, log': Log)
  {
    && BurstEdge(h, log, i, h', log')
    && h'.rm == NextRdMem(h.rm, h.ctl.start.rdmem, h.ctl.ca, i)
    && h'.ctl.start == h.ctl.start.(rdmem := h.ctl.rdTmp) && h'.ctl.rdTmp && h'.ctl.ca == i.ca
    && h'.ctl.line == (if h.rm.wordvalid then h.ctl.line[1..] + [h.rm.word] else h.ctl.line)
    && log'.cmd == (if log.cycles == 1 then i.ca else log.cmd)
  }

  lemma RdUnfold(s: System, i: In)
    requires s.h.ctl.state.RDMEM2? && !s.h.rm.stmEnd
    ensures RdEdge(s.h, s.log, i, Clock(s.h, i), NextLog(s.h, i, s.log))
  {
  }

  lemma RdCoreCycle(h: Hw, log: Log, i: In, h': Hw, log': Log)
    requires RdCore(h, log) && Time(log) < 41 && h.rr.phase.EIdle? && h.wm.phase.EIdle?
    requires RdEdge(h, log, i, h', log')
    ensures RdCore(h', log') && Time(log') == Later(Time(log), 3, i)
  {
    RdStep(h.rm, Time(log), log.cmd, log.samples, h.ctl.start.rdmem, h.ctl.ca, i);
  }

  lemma FilledMore(t: nat)
    requires t <= 40
    ensures 26 <= t && t % 2 == 0 ==> Filled(t) < 8 && Filled(t + 1) == Filled(t) + 1 && 2 * Filled(t) + 2 == t - 24
    ensures t < 26 || t % 2 == 1 ==> Filled(t + 1) == Filled(t)
  {
  }

  lemma RdFillCycle(h: Hw, log: Log, i: In, h': Hw, log': Log)
    requires RdCore(h, log) && RdFill(h, log) && Time(log) < 41
    requires RdEdge(h, log, i, h', log') && Time(log') == Later(Time(log), 3, i)
    ensures RdFill(h', log')
  {
    FilledMore(Time(log));
    if h.rm.wordvalid {
      WordEnters(h.ctl.line, log.samples, log.filled, h.rm.word);
    }
    if RdSamples(h.rm) {
      MoreSamples(h'.ctl.line, log.samples, log'.filled, i.dataout);
    }
  }

  lemma RdShiftedCycle(h: Hw, log: Log, i: In, h': Hw, log': Log)
    requires RdCore(h, log) && Time(log) < 41
    requires RdEdge(h, log, i, h', log') && Time(log') == Later(Time(log), 3, i)
    requires log.shifted == log.cmd.Halves()[..ReadShifts(Time(log))]
    ensures log'.shifted == log'.cmd.Halves()[..ReadShifts(Time(log'))]
  {
    var t, all := Time(log), log.cmd.Halves();
    if 4 <= t < 7 { ShiftMore(all, t - 4, h.rm.out, log.shifted); }
  }

  lemma RdPinsCycle(h: Hw, log: Log, i: In, h': Hw, log': Log)
    requires RdCore(h, log) && RdWires(h, log) && Time(log) < 41
    requires RdEdge(h, log, i, h', log') && Time(log') == Later(Time(log), 3, i)
    ensures var t := Time(log');
            && h'.pins.oe == (5 <= t <= 8) && (t != 3 ==> h'.pins.csn == !(4 <= t <= 41))
            && (h'.pins.oe ==> h'.pins.datain == ReadTrace(log'.cmd)[t - 5])
  {
    var t, all := Time(log), log.cmd.Halves();
    if 4 <= t < 7 {
      TailShift(all, t - 4);
    }
  }

  lemma RdDrivenCycle(h: Hw, log: Log, i: In, h': Hw, log': Log)
    requires RdCore(h, log) && RdWires(h, log) && Time(log) < 41
    requires RdEdge(h, log, i, h', log') && Time(log') == Later(Time(log), 3, i)
    ensures log'.driven == ReadTrace(log'.cmd)[..ReadDriven(Time(log'))]
  {
    if h.pins.oe { PrefixMore(ReadTrace(log.cmd), Time(log) - 5); }
  }

  lemma RdWiresCycle(h: Hw, log: Log, i: In, h': Hw, log': Log)
    requires RdCore(h, log) && RdWires(h, log) && Time(log) < 41
    requires RdEdge(h, log, i, h', log') && Time(log') == Later(Time(log), 3, i)
    ensures RdWires(h', log')
  {
    RdShiftedCycle(h, log, i, h', log');
    RdPinsCycle(h, log, i, h', log');
    RdDrivenCycle(h, log, i, h', log');
  }

  /** A cycle of a read burst that is not its last. */
  lemma RdCycle(s: System, i: In)
    requires RdVisit(s.h, s.log) && Time(s.log) < 41 && s.h.rr.phase.EIdle? && s.h.wm.phase.EIdle?
    ensures RdVisit(Step(s, i).h, Step(s, i).log)
  {
    var h', log' := Clock(s.h, i), NextLog(s.h, i, s.log);
    RdUnfold(s, i);
    RdCoreCycle(s.h, s.log, i, h', log');
    RdFillCycle(s.h, s.log, i, h', log');
    RdWiresCycle(s.h, s.log, i, h', log');
  }

  /** What a cycle inside a write burst does to the registers of the controller. */
  ghost predicate WrEdge(h: Hw, log: Log, i: In, h': Hw, log': Log)
  {
    && BurstEdge(h, log, i, h', log')
    && h'.wm == NextWrMem(h.wm, h.ctl.start.wrmem, h.ctl.ca, h.ctl.inbufValid, h.ctl.wrLine, i)
    && h'.ctl.start == h.ctl.start.(wrmem := h.ctl.wrTmp) && h'.ctl.wrTmp && h'.ctl.ca == i.ca
    && !h'.ctl.inbufValid
    && log'.cmd == (if log.cycles == 1 then i.ca else log.cmd)
  }

  lemma WrUnfold(s: System, i: In)
    requires s.h.ctl.state.WRMEM2? && !s.h.wm.stmEnd
    ensures WrEdge(s.h, s.log, i, Clock(s.h, i), NextLog(s.h, i, s.log))
  {
  }

  lemma WrCoreCycle(h: Hw, log: Log, i: In, h': Hw, log': Log)
    requires WrCore(h, log) && Time(log) < 38 && h.rr.phase.EIdle? && h.rm.phase.EIdle?
    requires WrEdge(h, log, i, h', log')
    ensures WrCore(h', log') && Time(log') == Later(Time(log), 3, i)
  {
    WrEngine(h, log, i);
  }

  lemma WrEngine(h: Hw, log: Log, i: In)
    requires WrCore(h, log) && Time(log) < 38
    ensures var t, all := Time(log), WriteHalves(if log.cycles == 1 then i.ca else log.cmd, log.old');
            && WrAt(NextWrMem(h.wm, h.ctl.start.wrmem, h.ctl.ca, h.ctl.inbufValid, h.ctl.wrLine, i),
                    Later(t, 3, i), all)
            && (WrShifts(h.wm) ==> WriteShifts(t) < 19 && h.wm.out[0] == all[WriteShifts(t)])
            && WriteShifts(Later(t, 3, i)) == WriteShifts(t) + if WrShifts(h.wm) then 1 else 0
  {
    var all := WriteHalves(if log.cycles == 1 then i.ca else log.cmd, log.old');
    assert all[..3] == (if log.cycles == 1 then i.ca else log.cmd).Halves();
    assert all[3..] == Pack(log.old') == WriteHalves(log.cmd, log.old')[3..];
    WrStep(h.wm, Time(log), all, h.ctl.start.wrmem, h.ctl.ca, h.ctl.inbufValid, h.ctl.wrLine, i);
  }

  lemma WrShiftedCycle(h: Hw, log: Log, i: In, h': Hw, log': Log)
    requires WrCore(h, log) && Time(log) < 38
    requires WrEdge(h, log, i, h', log') && Time(log') == Later(Time(log), 3, i)
    requires log.shifted == WriteHalves(log.cmd, log.old')[..WriteShifts(Time(log))]
    ensures log'.shifted == WriteHalves(log'.cmd, log'.old')[..WriteShifts(Time(log'))]
  {
    WrEngine(h, log, i);
    if WrShifts(h.wm) { PrefixMore(WriteHalves(log.cmd, log.old'), WriteShifts(Time(log))); }
  }

  /** What the output register shows: the next halfword to leave it, zero once all have left. */
  lemma WrShows(h: Hw, log: Log)
    requires WrCore(h, log) && 3 <= Time(log) < 38
    ensures h.wm.out[0] == WriteTrace(log.cmd, log.old')[WriteShifts(Time(log))]
  {
    var n, all := WriteShifts(Time(log)), WriteHalves(log.cmd, log.old');
    if n < 19 { TailShift(all, n); }
    assert WriteTrace(log.cmd, log.old')[..19] == all;
  }

  lemma WrPinsCycle(h: Hw, log: Log, i: In, h': Hw, log': Log)
    requires WrCore(h, log) && WrWires(h, log) && Time(log) < 38
    requires WrEdge(h, log, i, h', log') && Time(log') == Later(Time(log), 3, i)
    ensures var t := Time(log');
            && h'.pins.oe == (5 <= t <= 8 || 23 <= t <= 38) && (t != 3 ==> h'.pins.csn == !(4 <= t <= 38))
            && (h'.pins.oe ==> WriteDriven(t) < 20
                               && h'.pins.datain == WriteTrace(log'.cmd, log'.old')[WriteDriven(t)])
  {
    if 3 <= Time(log) { WrShows(h, log); }
  }

  lemma WrDrivenCycle(h: Hw, log: Log, i: In, h': Hw, log': Log)
    requires WrCore(h, log) && WrWires(h, log) && Time(log) < 38
    requires WrEdge(h, log, i, h', log') && Time(log') == Later(Time(log), 3, i)
    ensures log'.driven == WriteTrace(log'.cmd, log'.old')[..WriteDriven(Time(log'))]
  {
    var n, n' := WriteDriven(Time(log)), WriteDriven(Time(log'));
    if h.pins.oe {
      DrivenMore(WriteTrace(log.cmd, log.old'), n, h.pins.datain, log.driven);
    } else if n == 0 {
      assert log.driven == [] == WriteTrace(log'.cmd, log'.old')[..0];
    } else {
      assert log'.cmd == log.cmd && n' == n;
    }
  }

  /** A cycle of a write burst that is not its last. */
  lemma WrCycle(s: System, i: In)
    requires WrVisit(s.h, s.log) && Time(s.log) < 38 && s.h.rr.phase.EIdle? && s.h.rm.phase.EIdle?
    ensures WrVisit(Step(s, i).h, Step(s, i).log)
  {
    var h', log' := Clock(s.h, i), NextLog(s.h, i, s.log);
    WrUnfold(s, i);
    WrCoreCycle(s.h, s.log, i, h', log');
    WrShiftedCycle(s.h, s.log, i, h', log');
    WrPinsCycle(s.h, s.log, i, h', log');
    WrDrivenCycle(s.h, s.log, i, h', log');
  }

  /** What a cycle inside a register read does to the registers of the controller. */
  ghost predicate RgEdge(h: Hw, log: Log, i: In, h': Hw, log': Log)
  {
    && BurstEdge(h, log, i, h', log')
    && h'.rr == NextRdReg(h.rr, h.ctl.start.rdreg, h.ctl.ca, i)
    && h'.ctl.start == h.ctl.start.(rdreg := true) && h'.ctl.ca == RegCommand(h.ctl.csrAddr)
    && log'.cmd == (if log.cycles == 0 then RegCommand(h.ctl.csrAddr) else log.cmd)
    && log'.sampled == (if h.rr.phase.ERun? && h.rr.counter == 14 then i.dataout else log.sampled)
  }

  lemma RgUnfold(s: System, i: In)
    requires s.h.ctl.state.RDREG? && !s.h.rr.stmEnd
    ensures RgEdge(s.h, s.log, i, Clock(s.h, i), NextLog(s.h, i, s.log))
  {
  }

  lemma RgCoreCycle(h: Hw, log: Log, i: In, h': Hw, log': Log)
    requires RgCore(h, log) && Time(log) < 22 && h.rm.phase.EIdle? && h.wm.phase.EIdle?
    requires RgEdge(h, log, i, h', log')
    ensures RgCore(h', log') && Time(log') == Later(Time(log), 2, i)
  {
    RgStep(h.rr, Time(log), log'.cmd, h.ctl.start.rdreg, h.ctl.ca, i);
  }

  lemma RgShiftedCycle(h: Hw, log: Log, i: In, h': Hw, log': Log)
    requires RgCore(h, log) && Time(log) < 22
    requires RgEdge(h, log, i, h', log') && Time(log') == Later(Time(log), 2, i)
    requires log.shifted == log.cmd.Halves()[..Clamp(Time(log) - 3, 3)]
    ensures log'.shifted == log'.cmd.Halves()[..Clamp(Time(log') - 3, 3)]
  {
    var t, all := Time(log), log.cmd.Halves();
    if 3 <= t < 6 { ShiftMore(all, t - 3, h.rr.out, log.shifted); }
  }

  lemma RgPinsCycle(h: Hw, log: Log, i: In, h': Hw, log': Log)
    requires RgCore(h, log) && RgWires(h, log) && Time(log) < 22
    requires RgEdge(h, log, i, h', log') && Time(log') == Later(Time(log), 2, i)
    ensures var t := Time(log');
            && h'.pins.oe == (4 <= t <= 7) && (t != 2 ==> h'.pins.csn == !(3 <= t <= 22))
            && (h'.pins.oe ==> h'.pins.datain == ReadTrace(log'.cmd)[t - 4])
  {
    var t, all := Time(log), log.cmd.Halves();
    if 3 <= t < 6 { TailShift(all, t - 3); }
  }

  lemma RgWiresCycle(h: Hw, log: Log, i: In, h': Hw, log': Log)
    requires RgCore(h, log) && RgWires(h, log) && Time(log) < 22
    requires RgEdge(h, log, i, h', log') && Time(log') == Later(Time(log), 2, i)
    ensures RgWires(h', log')
  {
    RgShiftedCycle(h, log, i, h', log');
    RgPinsCycle(h, log, i, h', log');
    if h.pins.oe { PrefixMore(ReadTrace(log.cmd), Time(log) - 4); }
  }

  /** A cycle of a register read that is not its last. */
  lemma RgCycle(s: System, i: In)
    requires RgVisit(s.h, s.log) && Time(s.log) < 22 && s.h.rm.phase.EIdle? && s.h.wm.phase.EIdle?
    ensures RgVisit(Step(s, i).h, Step(s, i).log)
  {
    var h', log' := Clock(s.h, i), NextLog(s.h, i, s.log);
    RgUnfold(s, i);
    RgCoreCycle(s.h, s.log, i, h', log');
    RgWiresCycle(s.h, s.log, i, h', log');
  }

  // ----------------------------------------------------------------------------------------------
  // The last cycle of a burst, and the cycles between bursts
  // ----------------------------------------------------------------------------------------------

  lemma RdEndsKeeps(s: System, i: In)
    requires RdVisit(s.h, s.log) && RgQuiet(s.h) && WmQuiet(s.h) && CtlInv(s.h.ctl) && Time(s.log) == 41
    ensures var h' := Step(s, i).h;
            h'.ctl.state == (if s.h.ctl.row then RDMEM1 else WRMEM1) && Between(h') && CtlInv(h'.ctl)
  {
  }

  /** The last cycle of a read burst: eight words were shifted in, and they are the sampled ones. */
  lemma RdEndsLine(s: System, i: In)
    requires RdVisit(s.h, s.log) && Time(s.log) == 41
    ensures var s' := Step(s, i);
            && |s'.log.samples| == 16
            && s'.log.filled == 8 && s'.h.ctl.line == Unpack(s'.log.samples)
            && s'.log.starts == 1 && s'.log.cycles == 42 + s'.log.waits
            && s'.log.driven == ReadTrace(s'.log.cmd)
  {
    assert s.h.ctl.line == Unpack(s.log.samples) by {
      var u := Unpack(s.log.samples);
      forall k | 0 <= k < 8 ensures s.h.ctl.line[k] == u[k] { assert s.h.ctl.line[8 - 8 + k] == u[k]; }
    }
  }

  lemma WrEndsKeeps(s: System, i: In)
    requires WrVisit(s.h, s.log) && RgQuiet(s.h) && RmQuiet(s.h) && CtlInv(s.h.ctl) && Time(s.log) == 38
    ensures var h' := Step(s, i).h; h'.ctl.state.ACCDLY? && Between(h') && CtlInv(h'.ctl)
  {
  }

  /** The last cycle of a write burst: the command and the line have left, none skipped or repeated. */
  lemma WrEndsLine(s: System, i: In)
    requires WrVisit(s.h, s.log) && Time(s.log) == 38
    ensures var log' := Step(s, i).log;
            && log'.old' == s.log.old' && log'.shifted == WriteHalves(log'.cmd, log'.old')
            && log'.starts == 1 && log'.cycles == 39 + log'.waits
            && log'.driven == WriteTrace(log'.cmd, log'.old')
  {
    PrefixMore(WriteTrace(s.log.cmd, s.log.old'), 19);
  }

  lemma RgEndsKeeps(s: System, i: In)
    requires RgVisit(s.h, s.log) && RmQuiet(s.h) && WmQuiet(s.h) && CtlInv(s.h.ctl) && Time(s.log) == 22
    ensures var h' := Step(s, i).h; h'.ctl.state.IDLE? && Between(h') && CtlInv(h'.ctl)
  {
  }

  lemma RgEndsRead(s: System, i: In)
    requires RgVisit(s.h, s.log) && Time(s.log) == 22
    ensures var s' := Step(s, i);
            && s'.log.starts == 1 && s'.log.cycles == 23 + s'.log.waits
            && s'.h.rr.data == s'.log.sampled
            && s'.log.driven == ReadTrace(s'.log.cmd)
  {
  }

  /** Reads in flight plus reads being accepted, before the edge, equal reads in flight plus answers after it. */
  ghost predicate MemBalance(c: Ctl, c': Ctl)
  {
    (if ReadInFlight(c) then 1 else 0) + (if AcceptsRead(c) then 1 else 0)
    == (if ReadInFlight(c') then 1 else 0) + (if c'.readdatavalid then 1 else 0)
  }

  lemma MemCountIdle(c: Ctl, i: In)
    requires c.state.IDLE?
    ensures MemBalance(c, NextIdle(c, i))
  {
  }

  lemma MemCountRdmem2(c: Ctl, rm: RdMem, i: In)
    requires CtlInv(c) && c.state.RDMEM2?
    ensures MemBalance(c, NextRdmem2(c, rm, i))
  {
  }

  lemma MemCountWrmem1(c: Ctl, i: In)
    requires CtlInv(c) && c.state.WRMEM1?
    ensures MemBalance(c, NextWrmem1(c, i))
  {
  }

  lemma MemCount(c: Ctl, rr: RdReg, rm: RdMem, wm: WrMem, i: In)
    requires CtlInv(c)
    ensures MemBalance(c, NextState(c, rr, rm, wm, i))
  {
    if c.state.IDLE? {
      MemCountIdle(c, i);
    } else if c.state.RDMEM2? {
      MemCountRdmem2(c, rm, i);
    } else if c.state.WRMEM1? {
      MemCountWrmem1(c, i);
    }
  }

  lemma MemCountCycle(s: System, i: In)
    requires CtlInv(s.h.ctl)
    requires s.log.memReads == s.log.memAnswers + (if ReadInFlight(s.h.ctl) then 1 else 0)
    ensures var h', log' := Clock(s.h, i), NextLog(s.h, i, s.log);
            log'.memReads == log'.memAnswers + (if ReadInFlight(h'.ctl) then 1 else 0)
  {
    MemCount(s.h.ctl, s.h.rr, s.h.rm, s.h.wm, i);
    var c, c' := NextState(s.h.ctl, s.h.rr, s.h.rm, s.h.wm, i), NextCtl(s.h, i);
    assert ReadInFlight(c') == ReadInFlight(c) && c'.readdatavalid == c.readdatavalid;
  }

  /** The same for register reads. */
  ghost predicate RegBalance(h: Hw, h': Hw)
  {
    (if RegReadInFlight(h) then 1 else 0) + (if AcceptsRegRead(h.ctl) then 1 else 0)
    == (if RegReadInFlight(h') then 1 else 0) + (if h'.rr.valid then 1 else 0)
  }

  lemma RegCount(h: Hw, i: In, h': Hw)
    requires h.rr.valid ==> h.rr.phase.EDone?
    requires h.ctl.state.RDREG? ==> h.rr.stmEnd == h.rr.phase.EDone?
    requires h.ctl.state.RDREG? ==> h'.ctl.state == if h.rr.stmEnd then IDLE else RDREG
    requires h.ctl.state.IDLE? ==> (h'.ctl.state.RDREG? <==> AcceptsRegRead(h.ctl))
    requires !h.ctl.state.RDREG? && !h.ctl.state.IDLE? ==> !h'.ctl.state.RDREG?
    requires !h.ctl.state.RDREG? ==> h.rr.phase.EIdle?
    requires h'.rr == NextRdReg(h.rr, h.ctl.start.rdreg, h.ctl.ca, i)
    ensures RegBalance(h, h')
  {
  }

  lemma IdleToReg(c: Ctl, i: In)
    requires c.state.IDLE?
    ensures NextIdle(c, i).state.RDREG? <==> AcceptsRegRead(c)
  {
  }

  lemma Wrmem1ToReg(c: Ctl, i: In)
    ensures !NextWrmem1(c, i).state.RDREG?
  {
  }

  lemma Rdmem2ToReg(c: Ctl, rm: RdMem, i: In)
    requires c.state.RDMEM2?
    ensures !NextRdmem2(c, rm, i).state.RDREG?
  {
  }

  lemma RegStates(c: Ctl, rr: RdReg, rm: RdMem, wm: WrMem, i: In)
    ensures var c' := NextState(c, rr, rm, wm, i);
            && (c.state.RDREG? ==> c'.state == if rr.stmEnd then IDLE else RDREG)
            && (c.state.IDLE? ==> (c'.state.RDREG? <==> AcceptsRegRead(c)))
            && (!c.state.RDREG? && !c.state.IDLE? ==> !c'.state.RDREG?)
  {
    match c.state
    case IDLE => IdleToReg(c, i);
    case RDMEM2 => Rdmem2ToReg(c, rm, i);
    case WRMEM1 => Wrmem1ToReg(c, i);
    case _ =>
  }

  lemma RegCountCycle(s: System, i: In)
    requires s.h.rr.valid ==> s.h.rr.phase.EDone?
    requires s.h.ctl.state.RDREG? ==> s.h.rr.stmEnd == s.h.rr.phase.EDone?
    requires !s.h.ctl.state.RDREG? ==> s.h.rr.phase.EIdle?
    requires s.log.regReads == s.log.regAnswers + (if RegReadInFlight(s.h) then 1 else 0)
    ensures var h', log' := Clock(s.h, i), NextLog(s.h, i, s.log);
            log'.regReads == log'.regAnswers + (if RegReadInFlight(h') then 1 else 0)
  {
    RegStates(s.h.ctl, s.h.rr, s.h.rm, s.h.wm, i);
    assert NextCtl(s.h, i).state == NextState(s.h.ctl, s.h.rr, s.h.rm, s.h.wm, i).state;
    RegCount(s.h, i, Clock(s.h, i));
  }

  /** What leaving or staying in the idle state does to the registers of the controller. */
  ghost predicate IdleEdge(c: Ctl, c': Ctl)
  {
    && c'.start == c.start && !c'.rdTmp && !c'.wrTmp && !c'.readdatavalid && c'.acc == 8 && !c'.inbufValid
    && !c'.state.WRMEM2? && !c'.state.ACCDLY?
  }

  lemma IdleUnfold(h: Hw, i: In)
    requires h.ctl.state.IDLE?
    ensures IdleEdge(h.ctl, NextCtl(h, i))
  {
    assert IdleEdge(h.ctl, NextIdle(h.ctl, i));
  }

  lemma IdleEngines(h: Hw, i: In)
    requires h.ctl.state.IDLE? && CtlInv(h.ctl) && Between(h) && IdleEdge(h.ctl, NextCtl(h, i))
    ensures Between(Clock(h, i)) && CtlInv(Clock(h, i).ctl)
    ensures !Clock(h, i).rr.stmEnd && !Clock(h, i).rm.stmEnd && !Clock(h, i).wm.stmEnd
  {
  }

  lemma IdleCycle(s: System, i: In)
    requires Steady(s.h, s.log) && s.h.ctl.state.IDLE?
    ensures Steady(Step(s, i).h, Step(s, i).log)
  {
    IdleUnfold(s.h, i);
    IdleEngines(s.h, i);
    var h', log' := Clock(s.h, i), NextLog(s.h, i, s.log);
    assert Bursting(h'.ctl.state) ==> log' == log'.(cycles := 0, waits := 0, starts := 0, samples := [],
                                                    filled := 0, shifted := [], driven := []);
  }

  lemma Rdmem1Cycle(s: System, i: In)
    requires Steady(s.h, s.log) && s.h.ctl.state.RDMEM1?
    ensures Steady(Step(s, i).h, Step(s, i).log)
  {
  }

  lemma WrregCycle(s: System, i: In)
    requires Steady(s.h, s.log) && s.h.ctl.state.WRREG?
    ensures Steady(Step(s, i).h, Step(s, i).log)
  {
  }

  lemma AccdlyEngines(h: Hw, i: In)
    requires h.ctl.state.ACCDLY? && CtlInv(h.ctl) && Between(h)
    ensures var h' := Clock(h, i); Between(h') && CtlInv(h'.ctl) && (h'.ctl.state.IDLE? || h'.ctl.state.ACCDLY?)
  {
  }

  lemma AccdlyCycle(s: System, i: In)
    requires Steady(s.h, s.log) && s.h.ctl.state.ACCDLY?
    ensures Steady(Step(s, i).h, Step(s, i).log)
  {
    AccdlyEngines(s.h, i);
  }

  lemma Wrmem1Cycle(s: System, i: In)
    requires Steady(s.h, s.log) && s.h.ctl.state.WRMEM1?
    ensures Steady(Step(s, i).h, Step(s, i).log)
  {
  }

  lemma CountsCycle(s: System, i: In)
    requires Inv(s)
    ensures Counts(Step(s, i).h, Step(s, i).log)
  {
    MemCountCycle(s, i);
    RegCountCycle(s, i);
  }

  /** While an engine works the others stay idle. */
  lemma RdOthers(h: Hw, i: In)
    requires h.ctl.state.RDMEM2? && !h.rm.stmEnd && RgQuiet(h) && WmQuiet(h) && CtlInv(h.ctl)
    ensures var h' := Clock(h, i); h'.ctl.state.RDMEM2? && RgQuiet(h') && WmQuiet(h') && CtlInv(h'.ctl)
  {
  }

  lemma WrOthers(h: Hw, i: In)
    requires h.ctl.state.WRMEM2? && !h.wm.stmEnd && RgQuiet(h) && RmQuiet(h) && CtlInv(h.ctl)
    ensures var h' := Clock(h, i); h'.ctl.state.WRMEM2? && RgQuiet(h') && RmQuiet(h') && CtlInv(h'.ctl)
  {
  }

  lemma RgOthers(h: Hw, i: In)
    requires h.ctl.state.RDREG? && !h.rr.stmEnd && RmQuiet(h) && WmQuiet(h) && CtlInv(h.ctl)
    ensures var h' := Clock(h, i); h'.ctl.state.RDREG? && RmQuiet(h') && WmQuiet(h') && CtlInv(h'.ctl)
  {
  }

  lemma RdBurstCycle(s: System, i: In)
    requires Steady(s.h, s.log) && s.h.ctl.state.RDMEM2?
    ensures Steady(Step(s, i).h, Step(s, i).log)
  {
    if Time(s.log) < 41 {
      RdCycle(s, i);
      RdOthers(s.h, i);
    } else {
      RdEndsKeeps(s, i);
    }
  }

  lemma WrBurstCycle(s: System, i: In)
    requires Steady(s.h, s.log) && s.h.ctl.state.WRMEM2?
    ensures Steady(Step(s, i).h, Step(s, i).log)
  {
    if Time(s.log) < 38 {
      WrCycle(s, i);
      WrOthers(s.h, i);
    } else {
      WrEndsKeeps(s, i);
    }
  }

  lemma RgBurstCycle(s: System, i: In)
    requires Steady(s.h, s.log) && s.h.ctl.state.RDREG?
    ensures Steady(Step(s, i).h, Step(s, i).log)
  {
    if Time(s.log) < 22 {
      RgCycle(s, i);
      RgOthers(s.h, i);
    } else {
      RgEndsKeeps(s, i);
    }
  }

  lemma SteadyCycle(s: System, i: In)
    requires Steady(s.h, s.log)
    ensures Steady(Step(s, i).h, Step(s, i).log)
  {
    match s.h.ctl.state
    case IDLE => IdleCycle(s, i);
    case RDMEM1 => Rdmem1Cycle(s, i);
    case WRREG => WrregCycle(s, i);
    case ACCDLY => AccdlyCycle(s, i);
    case WRMEM1 => Wrmem1Cycle(s, i);
    case RDMEM2 => RdBurstCycle(s, i);
    case WRMEM2 => WrBurstCycle(s, i);
    case RDREG => RgBurstCycle(s, i);
  }

  /** Every clock cycle keeps the invariant. */
  lemma CycleKeeps(s: System, i: In)
    requires Inv(s)
    ensures Inv(Step(s, i))
  {
    CountsCycle(s, i);
    SteadyCycle(s, i);
  }

  // ----------------------------------------------------------------------------------------------
  // Runs from reset
  // ----------------------------------------------------------------------------------------------

  /** The state after a sequence of cycles from reset. */
  function Reach(word: Word, half: Half, tail: Packed, ins: seq<In>): System
  {
    Run(Step, Init(word, half, tail), ins)
  }

  lemma ReachOneMore(word: Word, half: Half, tail: Packed, ins: seq<In>, i: In)
    ensures Reach(word, half, tail, ins + [i]) == Step(Reach(word, half, tail, ins), i)
  {
    RunOneMore(Step, Init(word, half, tail), ins, i);
  }

  lemma {:induction false} ReachKeeps(word: Word, half: Half, tail: Packed, ins: seq<In>)
    ensures Inv(Reach(word, half, tail, ins))
  {
    if ins == [] {
      InitInv(word, half, tail);
    } else {
      ReachKeeps(word, half, tail, ins[..|ins| - 1]);
      CycleKeeps(Reach(word, half, tail, ins[..|ins| - 1]), ins[|ins| - 1]);
    }
  }

  /** In every reachable state a burst has taken no more cycles than its length, besides those it waited for RWDS. */
  lemma BurstLength(word: Word, half: Half, tail: Packed, ins: seq<In>)
    ensures var s := Reach(word, half, tail, ins);
            && (s.h.ctl.state.RDMEM2? ==> s.log.waits <= s.log.cycles <= 41 + s.log.waits)
            && (s.h.ctl.state.WRMEM2? ==> s.log.waits <= s.log.cycles <= 38 + s.log.waits)
            && (s.h.ctl.state.RDREG? ==> s.log.waits <= s.log.cycles <= 22 + s.log.waits)
  {
    ReachKeeps(word, half, tail, ins);
  }

  lemma TraceIs(cmd: Command, driven: seq<Half>)
    requires driven == ReadTrace(cmd)
    ensures driven == [cmd.top, cmd.mid, cmd.low, 0]
  {
  }

  /**
   Every read burst fills the line: whenever the controller leaves RDMEM2 the engine was started once,
   exactly sixteen halfwords were sampled and eight words shifted in, and buffer entry k is halfwords 2k
   and 2k + 1; the visit took 42 cycles besides those spent waiting for RWDS.
   */
  lemma LineFill(word: Word, half: Half, tail: Packed, ins: seq<In>, i: In)
    ensures var s, s' := Reach(word, half, tail, ins), Reach(word, half, tail, ins + [i]);
            s.h.ctl.state.RDMEM2? && !s'.h.ctl.state.RDMEM2? ==>
              && s'.log.starts == 1 && |s'.log.samples| == 16 && s'.log.filled == 8
              && s'.h.ctl.line == Unpack(s'.log.samples)
              && s'.log.cycles == 42 + s'.log.waits
              && s'.log.driven == [s'.log.cmd.top, s'.log.cmd.mid, s'.log.cmd.low, 0]
              && s'.h.ctl.state == (if s.h.ctl.row then RDMEM1 else WRMEM1)
  {
    var s := Reach(word, half, tail, ins);
    ReachOneMore(word, half, tail, ins, i);
    ReachKeeps(word, half, tail, ins);
    if s.h.ctl.state.RDMEM2? {
      if Time(s.log) < 41 {
        RdUnfold(s, i);
      } else {
        RdEndsKeeps(s, i);
        RdEndsLine(s, i);
        TraceIs(NextLog(s.h, i, s.log).cmd, NextLog(s.h, i, s.log).driven);
      }
    }
  }

  /**
   Every write burst sends the line that was in the buffer when it was packed: the halfwords shifted out
   are the three of the command and the sixteen of the line, none skipped or repeated, and the data pins,
   in the cycles they are driven, carry just those and then one zero.
   */
  lemma LineWrite(word: Word, half: Half, tail: Packed, ins: seq<In>, i: In)
    ensures var s, s' := Reach(word, half, tail, ins), Reach(word, half, tail, ins + [i]);
            s.h.ctl.state.WRMEM2? && !s'.h.ctl.state.WRMEM2? ==>
              && s'.log.starts == 1
              && s'.log.shifted == [s'.log.cmd.top, s'.log.cmd.mid, s'.log.cmd.low] + Pack(s'.log.old')
              && s'.log.driven == [s'.log.cmd.top, s'.log.cmd.mid, s'.log.cmd.low] + Pack(s'.log.old') + [0]
              && s'.log.cycles == 39 + s'.log.waits
              && s'.h.ctl.state.ACCDLY?
  {
    var s := Reach(word, half, tail, ins);
    ReachOneMore(word, half, tail, ins, i);
    ReachKeeps(word, half, tail, ins);
    if s.h.ctl.state.WRMEM2? {
      if Time(s.log) < 38 { WrUnfold(s, i); } else { WrEndsKeeps(s, i); WrEndsLine(s, i); }
    }
  }

  /** A register read starts its engine once, drives just its command, and keeps the one halfword it sampled. */
  lemma RegisterRead(word: Word, half: Half, tail: Packed, ins: seq<In>, i: In)
    ensures var s, s' := Reach(word, half, tail, ins), Reach(word, half, tail, ins + [i]);
            s.h.ctl.state.RDREG? && !s'.h.ctl.state.RDREG? ==>
              && s'.log.starts == 1 && s'.h.rr.data == s'.log.sampled
              && s'.log.driven == [s'.log.cmd.top, s'.log.cmd.mid, s'.log.cmd.low, 0]
              && s'.log.cycles == 23 + s'.log.waits
              && s'.h.ctl.state.IDLE?
  {
    var s := Reach(word, half, tail, ins);
    ReachOneMore(word, half, tail, ins, i);
    ReachKeeps(word, half, tail, ins);
    if s.h.ctl.state.RDREG? {
      if Time(s.log) < 22 {
        RgUnfold(s, i);
      } else {
        RgEndsKeeps(s, i);
        RgEndsRead(s, i);
        TraceIs(NextLog(s.h, i, s.log).cmd, NextLog(s.h, i, s.log).driven);
      }
    }
  }

  /**
   What one run writes another reads back: if the sixteen halfwords sampled in a read burst are those a
   write burst shifted out after its command, the line buffer ends up with the line that was written.
   */
  lemma WriteThenRead(word: Word, half: Half, tail: Packed, insW: seq<In>, iW: In, insR: seq<In>, iR: In)
    ensures var w, w' := Reach(word, half, tail, insW), Reach(word, half, tail, insW + [iW]);
            var r, r' := Reach(word, half, tail, insR), Reach(word, half, tail, insR + [iR]);
            && w.h.ctl.state.WRMEM2? && !w'.h.ctl.state.WRMEM2?
            && r.h.ctl.state.RDMEM2? && !r'.h.ctl.state.RDMEM2?
            && w'.log.shifted == w'.log.cmd.Halves() + r'.log.samples
            ==> r'.h.ctl.line == w'.log.old'
  {
    LineWrite(word, half, tail, insW, iW);
    LineFill(word, half, tail, insR, iR);
    var w', r' := Reach(word, half, tail, insW + [iW]), Reach(word, half, tail, insR + [iR]);
    UnpackPack(w'.log.old');
    assert (w'.log.cmd.Halves() + Pack(w'.log.old'))[3..] == Pack(w'.log.old');
    assert (w'.log.cmd.Halves() + r'.log.samples)[3..] == r'.log.samples;
  }

  /**
   At most one engine is asked to run, and it is the one of the controller's state; an end signal is seen
   only in the burst it ends or in a state that does not look at it.
   */
  lemma OneBurst(word: Word, half: Half, tail: Packed, ins: seq<In>)
    ensures var h := Reach(word, half, tail, ins).h;
            && (h.ctl.start.rdreg ==> h.ctl.state.RDREG?)
            && (h.ctl.start.wrreg ==> h.ctl.state.WRREG?)
            && (h.ctl.start.rdmem ==> h.ctl.state.RDMEM2?)
            && (h.ctl.start.wrmem ==> h.ctl.state.WRMEM2?)
            && (!h.rr.phase.EIdle? ==> h.ctl.start.rdreg)
            && (!h.rm.phase.EIdle? ==> h.ctl.start.rdmem)
            && (!h.wm.phase.EIdle? ==> h.ctl.start.wrmem)
            && (h.rr.stmEnd ==> (h.ctl.state.RDREG? && h.rr.phase.EDone?) || (h.ctl.state.IDLE? && h.rr.phase.EIdle?))
            && (h.rm.stmEnd ==> (h.ctl.state.RDMEM2? && h.rm.phase.EDone?)
                                || ((h.ctl.state.RDMEM1? || h.ctl.state.WRMEM1?) && h.rm.phase.EIdle?))
            && (h.wm.stmEnd ==> (h.ctl.state.WRMEM2? && h.wm.phase.EDone?)
                                || (h.ctl.state.ACCDLY? && h.wm.phase.EIdle?))
  {
    ReachKeeps(word, half, tail, ins);
  }

  /** One answer per accepted read: cycles with readdatavalid trail the accepted reads by at most the one in flight. */
  lemma OneAnswer(word: Word, half: Half, tail: Packed, ins: seq<In>)
    ensures var s := Reach(word, half, tail, ins);
            && s.log.memAnswers <= s.log.memReads <= s.log.memAnswers + 1
            && (s.log.memReads == s.log.memAnswers + 1 <==> ReadInFlight(s.h.ctl))
            && s.log.regAnswers <= s.log.regReads <= s.log.regAnswers + 1
            && (s.h.ctl.state.IDLE? ==> s.log.memReads == s.log.memAnswers && s.log.regReads == s.log.regAnswers)
  {
    ReachKeeps(word, half, tail, ins);
  }

  /** Word `k` of those sampled. */
  ghost predicate HoldsWord(samples: seq<Half>, k: nat, word: Word)
  {
    2 * k + 1 < |samples| && word == Word(samples[2 * k], samples[2 * k + 1])
  }

  lemma Rdmem1Answers(h: Hw, i: In)
    requires h.ctl.state.RDMEM1?
    ensures var c := Clock(h, i).ctl;
            c.readdatavalid && c.readdata == if Entry(i.bufAddr) < 0 then Word(0, 0) else h.ctl.line[Entry(i.bufAddr)]
  {
  }

  /** The offsets of the eight words, and that no other selects one. */
  lemma EntryIs(bufAddr: nat)
    ensures forall k :: 0 <= k < 8 ==> (Entry(bufAddr) == k <==> bufAddr == 4 * k)
    ensures Entry(bufAddr) < 0 <==> forall k :: 0 <= k < 8 ==> bufAddr != 4 * k
  {
    if bufAddr % 4 == 0 && bufAddr < 32 { assert bufAddr == 4 * (bufAddr / 4); }
  }

  lemma UnpackHolds(samples: seq<Half>, k: nat)
    requires |samples| == 16 && k < 8
    ensures HoldsWord(samples, k, Unpack(samples)[k])
  {
  }

  /** A read that misses is answered two cycles after its burst, with the word its offset selects. */
  lemma MissAnswer(word: Word, half: Half, tail: Packed, ins: seq<In>, i: In, j: In)
    ensures var s, s1 := Reach(word, half, tail, ins), Reach(word, half, tail, ins + [i]);
            var s2 := Reach(word, half, tail, ins + [i] + [j]);
            s.h.ctl.state.RDMEM2? && s.h.ctl.row && !s1.h.ctl.state.RDMEM2? ==>
              && s2.h.ctl.readdatavalid
              && (forall k :: 0 <= k < 8 && j.bufAddr == 4 * k ==> HoldsWord(s1.log.samples, k, s2.h.ctl.readdata))
              && ((forall k :: 0 <= k < 8 ==> j.bufAddr != 4 * k) ==> s2.h.ctl.readdata == Word(0, 0))
  {
    LineFill(word, half, tail, ins, i);
    ReachOneMore(word, half, tail, ins + [i], j);
    EntryIs(j.bufAddr);
    var s, s1 := Reach(word, half, tail, ins), Reach(word, half, tail, ins + [i]);
    if s.h.ctl.state.RDMEM2? && s.h.ctl.row && !s1.h.ctl.state.RDMEM2? {
      Rdmem1Answers(s1.h, j);
      forall k | 0 <= k < 8 ensures HoldsWord(s1.log.samples, k, s1.h.ctl.line[k]) { UnpackHolds(s1.log.samples, k); }
    }
  }

  lemma IdleTakesHit(h: Hw, i: In)
    requires AcceptsRead(h.ctl) && BufferHit(h.ctl, i)
    ensures Clock(h, i).ctl.state.RDMEM1? && Clock(h, i).ctl.line == h.ctl.line
  {
  }

  /** A read that hits is answered two cycles later with the word its offset selects from the line buffer. */
  lemma HitAnswer(word: Word, half: Half, tail: Packed, ins: seq<In>, i: In, j: In)
    ensures var s, s2 := Reach(word, half, tail, ins), Reach(word, half, tail, ins + [i] + [j]);
            AcceptsRead(s.h.ctl) && s.h.ctl.currRow == i.rowId && s.h.ctl.currPage == i.pageId ==>
              && s2.h.ctl.readdatavalid
              && (forall k :: 0 <= k < 8 && j.bufAddr == 4 * k ==> s2.h.ctl.readdata == s.h.ctl.line[k])
              && ((forall k :: 0 <= k < 8 ==> j.bufAddr != 4 * k) ==> s2.h.ctl.readdata == Word(0, 0))
  {
    ReachOneMore(word, half, tail, ins, i);
    ReachOneMore(word, half, tail, ins + [i], j);
    var s := Reach(word, half, tail, ins);
    if AcceptsRead(s.h.ctl) && BufferHit(s.h.ctl, i) {
      IdleTakesHit(s.h, i);
      EntryIs(j.bufAddr);
      Rdmem1Answers(Step(s, i).h, j);
    }
  }

  lemma Wrmem1Writes(h: Hw, i: In)
    requires h.ctl.state.WRMEM1?
    ensures var c := Clock(h, i).ctl;
            && c.line == (if Entry(i.bufAddr) >= 0 then h.ctl.line[Entry(i.bufAddr) := i.s0Writedata]
                          else h.ctl.line[0 := Word(0, 0)])
            && c.state == if BufferHit(h.ctl, i) then IDLE else WRMEM2
  {
  }

  /**
   A write puts its word in the entry its offset selects and leaves the others; one whose offset selects none clears
   entry 0. A hit is then done. On a miss the line handed to the write engine is the one from before: unless the word
   was there already, it is not sent.
   */
  lemma WriteTakesEntry(word: Word, half: Half, tail: Packed, ins: seq<In>, i: In)
    ensures var s, s' := Reach(word, half, tail, ins), Reach(word, half, tail, ins + [i]);
            s.h.ctl.state.WRMEM1? ==>
              && (forall k :: 0 <= k < 8 && i.bufAddr == 4 * k ==>
                    && s'.h.ctl.line == s.h.ctl.line[k := i.s0Writedata]
                    && (s'.h.ctl.line == s.h.ctl.line <==> s.h.ctl.line[k] == i.s0Writedata))
              && ((forall k :: 0 <= k < 8 ==> i.bufAddr != 4 * k) ==> s'.h.ctl.line == s.h.ctl.line[0 := Word(0, 0)])
              && if s.h.ctl.currRow == i.rowId && s.h.ctl.currPage == i.pageId then s'.h.ctl.state.IDLE?
                 else s'.h.ctl.state.WRMEM2? && s'.log.old' == s.h.ctl.line
  {
    ReachOneMore(word, half, tail, ins, i);
    var s := Reach(word, half, tail, ins);
    if s.h.ctl.state.WRMEM1? {
      Wrmem1Writes(s.h, i);
      EntryIs(i.bufAddr);
      if Entry(i.bufAddr) >= 0 { SetChanges(s.h.ctl.line, Entry(i.bufAddr), i.s0Writedata); }
      if !BufferHit(s.h.ctl, i) { BurstTakesLine(s.h, i, s.log); }
    }
  }

  lemma SetChanges(line: Line, k: nat, word: Word)
    requires k < 8
    ensures line == line[k := word] <==> line[k] == word
  {
    assert line[k := word][k] == word;
  }

  /** `line` is the line sent, except perhaps for entry `k`. */
  ghost predicate ButOne(line: Line, sent: Line, k: nat)
  {
    k < 8 && line[k := sent[k]] == sent
  }

  ghost predicate SendsBuffer(s: System)
  {
    exists k: nat :: ButOne(s.h.ctl.line, s.log.old', k)
  }

  /** Only a write that misses leads to a write burst. */
  lemma Wrmem2After(c: Ctl, rr: RdReg, rm: RdMem, wm: WrMem, i: In)
    requires !c.state.WRMEM2? && !c.state.WRMEM1?
    ensures !NextState(c, rr, rm, wm, i).state.WRMEM2?
  {
    match c.state
    case IDLE => assert !NextIdle(c, i).state.WRMEM2?;
    case RDMEM2 => assert !NextRdmem2(c, rm, i).state.WRMEM2?;
    case _ =>
  }

  lemma BurstTakesLine(h: Hw, i: In, log: Log)
    requires Bursting(Clock(h, i).ctl.state) && Clock(h, i).ctl.state != h.ctl.state
    ensures NextLog(h, i, log).old' == h.ctl.line
  {
  }

  lemma SendBegins(s: System, i: In)
    requires !s.h.ctl.state.WRMEM2? && Clock(s.h, i).ctl.state.WRMEM2?
    ensures s.h.ctl.state.WRMEM1? && NextLog(s.h, i, s.log).old' == s.h.ctl.line
  {
    if !s.h.ctl.state.WRMEM1? { Wrmem2After(s.h.ctl, s.h.rr, s.h.rm, s.h.wm, i); }
    BurstTakesLine(s.h, i, s.log);
  }

  lemma SetBack(line: Line, k: nat, word: Word)
    requires k < 8
    ensures ButOne(line[k := word], line, k)
  {
    assert line[k := word][k := line[k]] == line;
  }

  lemma StoreChangesOne(h: Hw, i: In)
    requires h.ctl.state.WRMEM1?
    ensures exists k: nat :: ButOne(Clock(h, i).ctl.line, h.ctl.line, k)
  {
    var miss := Entry(i.bufAddr) < 0;
    var k: nat, word := if miss then 0 else Entry(i.bufAddr), if miss then Word(0, 0) else i.s0Writedata;
    SetBack(h.ctl.line, k, word);
    assert NextWrmem1(h.ctl, i).line == h.ctl.line[k := word];
    assert ButOne(Clock(h, i).ctl.line, h.ctl.line, k);
  }

  lemma SendLineKept(c: Ctl, rr: RdReg, rm: RdMem, wm: WrMem, i: In)
    requires c.state.WRMEM2?
    ensures var c' := NextState(c, rr, rm, wm, i); c'.line == c.line && (c'.state.WRMEM2? || c'.state.ACCDLY?)
  {
  }

  lemma SendGoesOn(s: System, i: In)
    requires s.h.ctl.state.WRMEM2?
    ensures Clock(s.h, i).ctl.line == s.h.ctl.line && NextLog(s.h, i, s.log).old' == s.log.old'
  {
    SendLineKept(s.h.ctl, s.h.rr, s.h.rm, s.h.wm, i);
  }

  lemma {:induction false} ReachSends(word: Word, half: Half, tail: Packed, ins: seq<In>)
    ensures var s := Reach(word, half, tail, ins); s.h.ctl.state.WRMEM2? ==> SendsBuffer(s)
  {
    if ins != [] {
      var before, i := Reach(word, half, tail, ins[..|ins| - 1]), ins[|ins| - 1];
      ReachSends(word, half, tail, ins[..|ins| - 1]);
      if Clock(before.h, i).ctl.state.WRMEM2? {
        if before.h.ctl.state.WRMEM2? {
          SendGoesOn(before, i);
        } else {
          SendBegins(before, i);
          StoreChangesOne(before.h, i);
        }
      }
    }
  }

  /**
   The line a write burst has sent is, when it ends, the line buffer in every entry but at most one, the entry that
   was written between packing the line and sending it.
   */
  lemma BufferSent(word: Word, half: Half, tail: Packed, ins: seq<In>, i: In)
    ensures var s, s' := Reach(word, half, tail, ins), Reach(word, half, tail, ins + [i]);
            s.h.ctl.state.WRMEM2? && !s'.h.ctl.state.WRMEM2? ==> SendsBuffer(s')
  {
    ReachOneMore(word, half, tail, ins, i);
    ReachSends(word, half, tail, ins);
    if Reach(word, half, tail, ins).h.ctl.state.WRMEM2? { SendGoesOn(Reach(word, half, tail, ins), i); }
  }

  lemma Undriven(s: System)
    requires Inv(s)
    ensures RdSamples(s.h.rm) || (s.h.rr.phase.ERun? && s.h.rr.counter == 14) ==> !s.h.pins.oe && !s.h.pins.csn
    ensures s.h.pins.oe ==> !s.h.pins.csn
  {
  }

  /** The data bus is sampled only with chip select low and the controller's own drivers off. */
  lemma SamplesUndriven(word: Word, half: Half, tail: Packed, ins: seq<In>)
    ensures var h := Reach(word, half, tail, ins).h;
            && (RdSamples(h.rm) ==> !h.pins.oe && !h.pins.csn)
            && (h.rr.phase.ERun? && h.rr.counter == 14 ==> !h.pins.oe && !h.pins.csn)
            && (h.pins.oe ==> !h.pins.csn)
  {
    ReachKeeps(word, half, tail, ins);
    Undriven(Reach(word, half, tail, ins));
  }
}
