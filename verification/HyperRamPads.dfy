/**
 The outputs nothing reads back: the enable of the memory clock, the byte mask RWDS and its enable, and the address
 captured for the decoder. They ride along with the registers of `HyperRam`; the theorems are about every run.
 */
module HyperRamPads {
  import opened HyperRam
  import opened HyperRamBursts
  import opened HyperRamRuns
  import opened Runs

  /** Clock enables of the three engines, mask and mask enable of the write engine, the pads, the captured address. */
  datatype Side = Side(rrClk: bool, rmClk: bool, wmClk: bool, wmMask: bool, wmMaskOe: bool,
                       clk: bool, mask: bool, maskOe: bool, s0Addr: nat)

  /** The clock enable of an engine in its command phase. */
  function CommandClock(counter: nat, clk: bool, rwdsIn: bool): bool
  {
    if counter == 4 then clk else if counter > 0 && counter < 4 then true else if rwdsIn then false else clk
  }

  function ReadClock(phase: Phase, counter: nat, clk: bool, rwdsIn: bool): bool
  {
    match phase
    case EIdle => clk
    case ECa => CommandClock(counter, clk, rwdsIn)
    case ERun => clk
    case EDone => false
  }

  function WriteClock(phase: Phase, counter: nat, clk: bool, rwdsIn: bool): bool
  {
    match phase
    case EIdle => clk
    case ECa => CommandClock(counter, clk, rwdsIn)
    case ERun => if counter == 29 then false else if counter > 12 then true else clk
    case EDone => false
  }

  function WriteMaskOe(phase: Phase, counter: nat, oe: bool): bool
  {
    if !phase.ERun? then oe else if counter == 29 then false else if counter > 12 then true else oe
  }

  function WriteMask(phase: Phase, counter: nat, mask: bool): bool
  {
    if phase.ERun? && counter != 29 && counter > 12 then false else mask
  }

  /** The enable of the engine that is started, off when none is. */
  function PadClock(start: Starts, rr: bool, rm: bool, wm: bool): bool
  {
    if start.rdreg then rr else if start.wrreg then false else if start.rdmem then rm
    else if start.wrmem then wm else false
  }

  function NextSide(h: Hw, s: Side, i: In): Side
  {
    var start := h.ctl.start;
    Side(ReadClock(h.rr.phase, h.rr.counter, s.rrClk, i.rwdsIn),
         ReadClock(h.rm.phase, h.rm.counter, s.rmClk, i.rwdsIn),
         WriteClock(h.wm.phase, h.wm.counter, s.wmClk, i.rwdsIn),
         WriteMask(h.wm.phase, h.wm.counter, s.wmMask),
         WriteMaskOe(h.wm.phase, h.wm.counter, s.wmMaskOe),
         PadClock(start, s.rrClk, s.rmClk, s.wmClk),
         start.wrmem && s.wmMask,
         start.wrmem && s.wmMaskOe,
         if i.s0Read || i.s0Write then i.s0Address else s.s0Addr)
  }

  function ResetSide(): Side { Side(false, false, false, false, false, false, false, false, 0) }

  /** With the halfwords on the data pins, in the current or last burst, while RWDS was driven. */
  datatype Padded = Padded(sys: System, side: Side, masked: seq<Half>)

  function NextMasked(p: Padded, i: In): seq<Half>
  {
    var was, now := p.sys.h.ctl.state, Clock(p.sys.h, i).ctl.state;
    if Bursting(now) && now != was then [] else if p.side.maskOe then p.masked + [p.sys.h.pins.datain] else p.masked
  }

  function PadStep(p: Padded, i: In): Padded
  {
    Padded(Step(p.sys, i), NextSide(p.sys.h, p.side, i), NextMasked(p, i))
  }

  function PadInit(word: Word, half: Half, tail: Packed): Padded
  {
    Padded(Init(word, half, tail), ResetSide(), [])
  }

  function PadReach(word: Word, half: Half, tail: Packed, ins: seq<In>): Padded
  {
    Run(PadStep, PadInit(word, half, tail), ins)
  }

  // ----------------------------------------------------------------------------------------------
  // What every cycle keeps
  // ----------------------------------------------------------------------------------------------

  /** The enables, one by one; the mask itself is never high. */
  ghost predicate SideIs(s: Side, rr: bool, rm: bool, wm: bool, oe: bool, clk: bool, padOe: bool)
  {
    && s.rrClk == rr && s.rmClk == rm && s.wmClk == wm && s.wmMaskOe == oe && s.clk == clk && s.maskOe == padOe
    && !s.wmMask && !s.mask
  }

  /** In a burst the enables are determined by the burst time; after a read burst the clock runs one cycle longer. */
  ghost predicate SideInv(h: Hw, log: Log, s: Side)
  {
    var t := Time(log);
    match h.ctl.state
    case RDREG => SideIs(s, 4 <= t, false, false, false, 5 <= t, false)
    case RDMEM2 => SideIs(s, false, 5 <= t, false, false, 6 <= t, false)
    case WRMEM2 => SideIs(s, false, false, 5 <= t <= 37, 22 <= t <= 37, 6 <= t, 23 <= t)
    case _ => SideIs(s, false, false, false, false, h.rm.stmEnd || h.rr.stmEnd, false)
  }

  lemma RdSide(h: Hw, log: Log, s: Side, i: In)
    requires RdCore(h, log) && h.rr.phase.EIdle? && h.wm.phase.EIdle? && SideInv(h, log, s)
    ensures var t := Later(Time(log), 3, i);
            SideIs(NextSide(h, s, i), false, Time(log) < 41 && 5 <= t, false, false, 6 <= t, false)
  {
  }

  lemma RgSide(h: Hw, log: Log, s: Side, i: In)
    requires RgCore(h, log) && h.rm.phase.EIdle? && h.wm.phase.EIdle? && SideInv(h, log, s)
    ensures var t := Later(Time(log), 2, i);
            SideIs(NextSide(h, s, i), Time(log) < 22 && 4 <= t, false, false, false, 5 <= t, false)
  {
  }

  lemma WrSide(h: Hw, log: Log, s: Side, i: In)
    requires WrCore(h, log) && h.rr.phase.EIdle? && h.rm.phase.EIdle? && SideInv(h, log, s)
    ensures var t := Later(Time(log), 3, i);
            SideIs(NextSide(h, s, i), false, false, 5 <= t <= 37, 22 <= t <= 37, 6 <= t <= 38, 23 <= t <= 38)
  {
  }

  lemma BetweenSide(h: Hw, log: Log, s: Side, i: In)
    requires Between(h) && !Bursting(h.ctl.state) && SideInv(h, log, s)
    ensures SideIs(NextSide(h, s, i), false, false, false, false, false, false)
  {
  }

  lemma RdSideCycle(s: System, d: Side, i: In)
    requires Inv(s) && s.h.ctl.state.RDMEM2? && SideInv(s.h, s.log, d)
    ensures SideInv(Clock(s.h, i), NextLog(s.h, i, s.log), NextSide(s.h, d, i))
  {
    RdSide(s.h, s.log, d, i);
    if Time(s.log) < 41 {
      RdUnfold(s, i);
      RdCoreCycle(s.h, s.log, i, Clock(s.h, i), NextLog(s.h, i, s.log));
    } else {
      RdEndsKeeps(s, i);
    }
  }

  lemma RgSideCycle(s: System, d: Side, i: In)
    requires Inv(s) && s.h.ctl.state.RDREG? && SideInv(s.h, s.log, d)
    ensures SideInv(Clock(s.h, i), NextLog(s.h, i, s.log), NextSide(s.h, d, i))
  {
    RgSide(s.h, s.log, d, i);
    if Time(s.log) < 22 {
      RgUnfold(s, i);
      RgCoreCycle(s.h, s.log, i, Clock(s.h, i), NextLog(s.h, i, s.log));
    } else {
      RgEndsKeeps(s, i);
    }
  }

  lemma WrSideCycle(s: System, d: Side, i: In)
    requires Inv(s) && s.h.ctl.state.WRMEM2? && SideInv(s.h, s.log, d)
    ensures SideInv(Clock(s.h, i), NextLog(s.h, i, s.log), NextSide(s.h, d, i))
  {
    WrSide(s.h, s.log, d, i);
    if Time(s.log) < 38 {
      WrUnfold(s, i);
      WrCoreCycle(s.h, s.log, i, Clock(s.h, i), NextLog(s.h, i, s.log));
    } else {
      WrEndsKeeps(s, i);
    }
  }

  /** An idle engine takes its end signal down. */
  lemma EndsGoDown(h: Hw, i: In)
    requires Between(h)
    ensures !Clock(h, i).rm.stmEnd && !Clock(h, i).rr.stmEnd
  {
  }

  lemma StartsAtZero(s: System, i: In)
    requires !Bursting(s.h.ctl.state) && Bursting(Clock(s.h, i).ctl.state)
    ensures Time(NextLog(s.h, i, s.log)) == 0
  {
  }

  lemma SideCycle(s: System, d: Side, i: In)
    requires Inv(s) && SideInv(s.h, s.log, d)
    ensures SideInv(Clock(s.h, i), NextLog(s.h, i, s.log), NextSide(s.h, d, i))
  {
    match s.h.ctl.state
    case RDREG => RgSideCycle(s, d, i);
    case RDMEM2 => RdSideCycle(s, d, i);
    case WRMEM2 => WrSideCycle(s, d, i);
    case _ =>
      BetweenSide(s.h, s.log, d, i);
      EndsGoDown(s.h, i);
      if Bursting(Clock(s.h, i).ctl.state) { StartsAtZero(s, i); }
  }

  /** RWDS is driven from the fifth driven halfword of a burst on. */
  ghost predicate MaskedInv(driven: seq<Half>, masked: seq<Half>)
  {
    masked == if |driven| <= 4 then [] else driven[4..]
  }

  lemma DrivenCount(s: System, d: Side)
    requires Inv(s) && SideInv(s.h, s.log, d)
    ensures d.maskOe ==> s.h.pins.oe && |s.log.driven| >= 4
    ensures s.h.pins.oe && !d.maskOe ==> |s.log.driven| < 4
  {
  }

  /** What one cycle appends to the two histories. */
  lemma MaskedMore(driven: seq<Half>, masked: seq<Half>, x: Half, oe: bool, maskOe: bool)
    requires MaskedInv(driven, masked)
    requires maskOe ==> oe && |driven| >= 4
    requires oe && !maskOe ==> |driven| < 4
    ensures MaskedInv(if oe then driven + [x] else driven, if maskOe then masked + [x] else masked)
  {
    if maskOe && |driven| > 4 { assert (driven + [x])[4..] == driven[4..] + [x]; }
  }

  lemma DrivenNext(s: System, i: In)
    ensures var was, now := s.h.ctl.state, Clock(s.h, i).ctl.state;
            NextLog(s.h, i, s.log).driven ==
            if Bursting(now) && now != was then []
            else if s.h.pins.oe then s.log.driven + [s.h.pins.datain] else s.log.driven
  {
  }

  lemma MaskedCycle(p: Padded, i: In)
    requires Inv(p.sys) && SideInv(p.sys.h, p.sys.log, p.side) && MaskedInv(p.sys.log.driven, p.masked)
    ensures MaskedInv(NextLog(p.sys.h, i, p.sys.log).driven, NextMasked(p, i))
  {
    DrivenCount(p.sys, p.side);
    DrivenNext(p.sys, i);
    MaskedMore(p.sys.log.driven, p.masked, p.sys.h.pins.datain, p.sys.h.pins.oe, p.side.maskOe);
  }

  ghost predicate PadInv(p: Padded)
  {
    Inv(p.sys) && SideInv(p.sys.h, p.sys.log, p.side) && MaskedInv(p.sys.log.driven, p.masked)
  }

  /** Every clock cycle keeps the enables where the burst time puts them. */
  lemma PadCycle(p: Padded, i: In)
    requires PadInv(p)
    ensures PadInv(PadStep(p, i))
  {
    CycleKeeps(p.sys, i);
    SideCycle(p.sys, p.side, i);
    MaskedCycle(p, i);
  }

  // ----------------------------------------------------------------------------------------------
  // Runs from reset
  // ----------------------------------------------------------------------------------------------

  lemma {:induction false} PadReachKeeps(word: Word, half: Half, tail: Packed, ins: seq<In>)
    ensures PadInv(PadReach(word, half, tail, ins))
    ensures PadReach(word, half, tail, ins).sys == Reach(word, half, tail, ins)
  {
    if ins == [] {
      InitInv(word, half, tail);
    } else {
      PadReachKeeps(word, half, tail, ins[..|ins| - 1]);
      PadCycle(PadReach(word, half, tail, ins[..|ins| - 1]), ins[|ins| - 1]);
    }
  }

  lemma SampledClocked(s: System, d: Side)
    requires Inv(s) && SideInv(s.h, s.log, d)
    ensures RdSamples(s.h.rm) ==> d.clk
    ensures s.h.rr.phase.ERun? && s.h.rr.counter == 14 ==> d.clk
  {
  }

  lemma ClockedSelected(s: System, d: Side)
    requires Inv(s) && SideInv(s.h, s.log, d)
    ensures d.clk && s.h.pins.csn ==> !Bursting(s.h.ctl.state) && (s.h.rm.stmEnd || s.h.rr.stmEnd)
    ensures d.maskOe ==> d.clk && s.h.pins.oe && !s.h.pins.csn
    ensures !d.mask
  {
  }

  lemma BurstClock(s: System, d: Side)
    requires Inv(s) && SideInv(s.h, s.log, d)
    ensures s.h.ctl.state.RDMEM2? ==> Time(s.log) <= 41 && (d.clk <==> 6 <= Time(s.log))
    ensures s.h.ctl.state.WRMEM2? ==>
              Time(s.log) <= 38 && (d.clk <==> 6 <= Time(s.log)) && (d.maskOe <==> 23 <= Time(s.log))
    ensures s.h.ctl.state.RDREG? ==> Time(s.log) <= 22 && (d.clk <==> 5 <= Time(s.log))
    ensures !Bursting(s.h.ctl.state) ==> (d.clk <==> s.h.rm.stmEnd || s.h.rr.stmEnd)
  {
  }

  /** The halfwords of a write burst from the fifth on. */
  lemma FromTheFifth(cmd: Command, line: Line, driven: seq<Half>, masked: seq<Half>)
    requires driven == cmd.Halves() + Pack(line) + [0] && MaskedInv(driven, masked)
    ensures masked == Pack(line)[1..] + [0]
  {
    assert driven == (cmd.Halves() + [Pack(line)[0]]) + (Pack(line)[1..] + [0]);
  }

  /**
   The memory is clocked whenever the data bus is sampled and whenever RWDS is driven. Its clock runs with chip
   select high in one kind of cycle only, the one after a read burst. RWDS is driven only together with the data
   pins, and low: no byte is ever masked.
   */
  lemma ClockAndMask(word: Word, half: Half, tail: Packed, ins: seq<In>)
    ensures var p := PadReach(word, half, tail, ins);
            var h, d := p.sys.h, p.side;
            && p.sys == Reach(word, half, tail, ins)
            && (RdSamples(h.rm) ==> d.clk)
            && (h.rr.phase.ERun? && h.rr.counter == 14 ==> d.clk)
            && (d.clk && h.pins.csn ==> !Bursting(h.ctl.state) && (h.rm.stmEnd || h.rr.stmEnd))
            && (d.maskOe ==> d.clk && h.pins.oe && !h.pins.csn)
            && !d.mask
  {
    PadReachKeeps(word, half, tail, ins);
    SampledClocked(Reach(word, half, tail, ins), PadReach(word, half, tail, ins).side);
    ClockedSelected(Reach(word, half, tail, ins), PadReach(word, half, tail, ins).side);
  }

  /**
   In every reachable state of a burst the clock enable depends on the burst time alone: waits for RWDS only put
   it off, so every read burst clocks the memory for 36 cycles and one more after it, every write burst for 33.
   */
  lemma ClockEnable(word: Word, half: Half, tail: Packed, ins: seq<In>)
    ensures var p := PadReach(word, half, tail, ins);
            var h, t := p.sys.h, Time(p.sys.log);
            && (h.ctl.state.RDMEM2? ==> t <= 41 && (p.side.clk <==> 6 <= t))
            && (h.ctl.state.WRMEM2? ==> t <= 38 && (p.side.clk <==> 6 <= t) && (p.side.maskOe <==> 23 <= t))
            && (h.ctl.state.RDREG? ==> t <= 22 && (p.side.clk <==> 5 <= t))
            && (!Bursting(h.ctl.state) ==> (p.side.clk <==> h.rm.stmEnd || h.rr.stmEnd))
  {
    PadReachKeeps(word, half, tail, ins);
    BurstClock(Reach(word, half, tail, ins), PadReach(word, half, tail, ins).side);
  }

  /** A line moved up by one halfword is itself only when it is all zero. */
  lemma ShiftedIsSame(p: Packed)
    ensures p[1..] + [0] == p <==> forall k :: 0 <= k < 16 ==> p[k] == 0
  {
    var q := p[1..] + [0];
    if q == p {
      var k := 15;
      while k > 0
        invariant 0 <= k < 16 && forall j :: k <= j < 16 ==> p[j] == 0
      {
        assert q[k - 1] == p[k];
        k := k - 1;
      }
    }
  }

  /**
   RWDS is driven for sixteen halfwords of every write burst: those of the line but its first, and a zero. The first
   halfword of the line is on the pins in the cycle after the command, before RWDS is driven. What is on
   the pins under RWDS is the line only when the line is all zero.
   */
  lemma MaskedLine(word: Word, half: Half, tail: Packed, ins: seq<In>, i: In)
    ensures var s, p' := PadReach(word, half, tail, ins).sys, PadReach(word, half, tail, ins + [i]);
            s.h.ctl.state.WRMEM2? && !p'.sys.h.ctl.state.WRMEM2? ==>
              && p'.masked == Pack(p'.sys.log.old')[1..] + [0]
              && (p'.masked == Pack(p'.sys.log.old') <==> forall k :: 0 <= k < 16 ==> Pack(p'.sys.log.old')[k] == 0)
  {
    PadReachKeeps(word, half, tail, ins);
    PadReachKeeps(word, half, tail, ins + [i]);
    LineWrite(word, half, tail, ins, i);
    var s, p' := PadReach(word, half, tail, ins).sys, PadReach(word, half, tail, ins + [i]);
    if s.h.ctl.state.WRMEM2? && !p'.sys.h.ctl.state.WRMEM2? {
      FromTheFifth(p'.sys.log.cmd, p'.sys.log.old', p'.sys.log.driven, p'.masked);
      ShiftedIsSame(Pack(p'.sys.log.old'));
    }
  }
}
