/** All clocked blocks of the controller on one clock, and their runs from reset. */
module HyperRamChip {
  import opened HyperRam
  import opened HyperRamBlocks
  import opened HyperRamBursts
  import opened HyperRamPads
  import opened HyperRamRuns
  import opened Runs

  class Chip {
    const ctl: CtlBlock
    const rr: RdRegBlock
    const rm: RdMemBlock
    const wm: WrMemBlock

    ghost predicate Valid()
      reads this, ctl, rr, rm, wm, ctl.buffer, rr.out, rm.out, wm.out
    {
      ctl.Valid() && rr.Valid() && rm.Valid() && wm.Valid() && rr.out != rm.out && rr.out != wm.out && rm.out != wm.out
    }

    ghost function Value(): Hw
      reads this, ctl, rr, rm, wm, ctl.buffer, rr.out, rm.out, wm.out
      requires Valid()
    {
      Hw(ctl.Value(), rr.Value(), rm.Value(), wm.Value(), ctl.pins)
    }

    ghost function SideValue(): Side
      reads this, ctl, rr, rm, wm
    {
      Side(rr.clk, rm.clk, wm.clk, wm.mask, wm.maskOe, ctl.clk, ctl.mask, ctl.maskOe, ctl.s0Addr)
    }

    ghost function Repr(): set<object>
    {
      {ctl, rr, rm, wm, ctl.buffer, rr.out, rm.out, wm.out}
    }

    constructor ()
      ensures Valid() && fresh(Repr())
      ensures Value() == Reset(Word(0, 0), 0, NoLine()) && SideValue() == ResetSide()
    {
      ctl := new CtlBlock();
      rr := new RdRegBlock();
      rm := new RdMemBlock();
      wm := new WrMemBlock();
    }

    /** The registers of the controller and the outputs. */
    method ControllerEdge(i: In, r: RdReg, m: RdMem, w: WrMem, ghost h: Hw)
      requires Valid() && h == Value() && h.rr == r && h.rm == m && h.wm == w
      modifies ctl, ctl.buffer
      ensures Valid() && ctl.Value() == NextCtl(h, i) && ctl.pins == NextPins(h)
      ensures ctl.clk == PadClock(h.ctl.start, rr.clk, rm.clk, wm.clk)
      ensures ctl.mask == (h.ctl.start.wrmem && wm.mask) && ctl.maskOe == (h.ctl.start.wrmem && wm.maskOe)
      ensures ctl.s0Addr == if i.s0Read || i.s0Write then i.s0Address else old(ctl.s0Addr)
    {
      ctl.EnablesEdge(rr.clk, rm.clk, wm.clk, wm.mask, wm.maskOe);
      ctl.PinsEdge(r, m, w, h);
      ctl.Edge(i, r, m, w, h);
    }

    method EnginesEdge(start: Starts, ca: Command, valid: bool, line: Packed, i: In)
      requires Valid()
      modifies rr, rm, wm, rr.out, rm.out, wm.out
      ensures Valid() && rr.Value() == NextRdReg(old(rr.Value()), start.rdreg, ca, i)
      ensures rm.Value() == NextRdMem(old(rm.Value()), start.rdmem, ca, i)
      ensures wm.Value() == NextWrMem(old(wm.Value()), start.wrmem, ca, valid, line, i)
      ensures rr.clk == ReadClock(old(rr.phase), old(rr.counter), old(rr.clk), i.rwdsIn)
      ensures rm.clk == ReadClock(old(rm.phase), old(rm.counter), old(rm.clk), i.rwdsIn)
      ensures wm.clk == WriteClock(old(wm.phase), old(wm.counter), old(wm.clk), i.rwdsIn)
      ensures wm.mask == WriteMask(old(wm.phase), old(wm.counter), old(wm.mask))
      ensures wm.maskOe == WriteMaskOe(old(wm.phase), old(wm.counter), old(wm.maskOe))
    {
      rr.Edge(start.rdreg, ca, i.rwdsIn, i.dataout, i);
      rm.Edge(start.rdmem, ca, i.rwdsIn, i.dataout, i);
      wm.Edge(start.wrmem, ca, valid, line, i.rwdsIn, i);
    }

    /** Every block works on the values from before the edge. */
    method Edge(i: In)
      requires Valid()
      modifies ctl, rr, rm, wm, ctl.buffer, rr.out, rm.out, wm.out
      ensures Valid() && Value() == Clock(old(Value()), i)
      ensures SideValue() == NextSide(old(Value()), old(SideValue()), i)
    {
      var start, ca, valid, line := ctl.start, ctl.ca, ctl.inbufValid, ctl.wrLine;
      ghost var h := Value();
      var r := RdReg(rr.phase, rr.counter, rr.out[..], rr.stmEnd, rr.oe, rr.csn, rr.valid, rr.data);
      var m := RdMem(rm.phase, rm.counter, rm.out[..], rm.inner, rm.word, rm.wordvalid, rm.stmEnd, rm.oe, rm.csn);
      var w := WrMem(wm.phase, wm.counter, wm.out[..], wm.stmEnd, wm.oe, wm.csn);
      ControllerEdge(i, r, m, w, h);
      EnginesEdge(start, ca, valid, line, i);
    }

    /** The blocks through any sequence of cycles. */
    method Cycles(ins: seq<In>)
      requires Valid() && Value() == Reset(Word(0, 0), 0, NoLine()) && SideValue() == ResetSide()
      modifies ctl, rr, rm, wm, ctl.buffer, rr.out, rm.out, wm.out
      ensures Valid()
      ensures var p := PadReach(Word(0, 0), 0, NoLine(), ins); Value() == p.sys.h && SideValue() == p.side
    {
      for k := 0 to |ins|
        invariant Valid()
        invariant var p := PadReach(Word(0, 0), 0, NoLine(), ins[..k]); Value() == p.sys.h && SideValue() == p.side
      {
        assert ins[..k + 1] == ins[..k] + [ins[k]];
        RunOneMore(PadStep, PadInit(Word(0, 0), 0, NoLine()), ins[..k], ins[k]);
        Edge(ins[k]);
      }
      assert ins[..|ins|] == ins;
    }
  }

  /** Sixteen samples, word for word in the line buffer. */
  ghost predicate HoldsSamples(buffer: seq<Word>, samples: seq<Half>)
  {
    && |buffer| == 8 && |samples| == 16
    && forall k :: 0 <= k < 8 ==> buffer[k] == Word(samples[2 * k], samples[2 * k + 1])
  }

  /** What was shifted out is the command and the line buffer, one entry perhaps excepted. */
  ghost predicate Sent(buffer: seq<Word>, cmd: Command, shifted: seq<Half>)
  {
    |buffer| == 8 && exists sent: Line, k: nat :: ButOne(buffer, sent, k) && shifted == cmd.Halves() + Pack(sent)
  }

  lemma UnpackHoldsSamples(samples: seq<Half>)
    requires |samples| == 16
    ensures HoldsSamples(Unpack(samples), samples)
  {
  }

  lemma FillEnds(ins: seq<In>, i: In)
    ensures var s, s' := Reach(Word(0, 0), 0, NoLine(), ins), Reach(Word(0, 0), 0, NoLine(), ins + [i]);
            s.h.ctl.state.RDMEM2? && !s'.h.ctl.state.RDMEM2? ==> HoldsSamples(s'.h.ctl.line, s'.log.samples)
  {
    LineFill(Word(0, 0), 0, NoLine(), ins, i);
    var s' := Reach(Word(0, 0), 0, NoLine(), ins + [i]);
    if |s'.log.samples| == 16 { UnpackHoldsSamples(s'.log.samples); }
  }

  lemma SendEnds(ins: seq<In>, i: In)
    ensures var s, s' := Reach(Word(0, 0), 0, NoLine(), ins), Reach(Word(0, 0), 0, NoLine(), ins + [i]);
            s.h.ctl.state.WRMEM2? && !s'.h.ctl.state.WRMEM2? ==>
              Sent(s'.h.ctl.line, s'.log.cmd, s'.log.shifted)
  {
    LineWrite(Word(0, 0), 0, NoLine(), ins, i);
    BufferSent(Word(0, 0), 0, NoLine(), ins, i);
  }

  /**
   The blocks from reset through any sequence of cycles: they hold what the run of the clock function reaches. When
   the last cycle ends a read burst the array of the line buffer holds the halfwords sampled; when it ends a write
   burst that array, but for at most one entry, is what was shifted out after the command.
   */
  method RunFromReset(ins: seq<In>, i: In) returns (chip: Chip)
    ensures chip.Valid() && fresh(chip.Repr())
    ensures var p := PadReach(Word(0, 0), 0, NoLine(), ins + [i]);
            chip.Value() == p.sys.h && chip.SideValue() == p.side
    ensures var s, s' := Reach(Word(0, 0), 0, NoLine(), ins), Reach(Word(0, 0), 0, NoLine(), ins + [i]);
            && chip.Value() == s'.h
            && (s.h.ctl.state.RDMEM2? && chip.ctl.state != RDMEM2 ==> HoldsSamples(chip.ctl.buffer[..], s'.log.samples))
            && (s.h.ctl.state.WRMEM2? && chip.ctl.state != WRMEM2 ==>
                  Sent(chip.ctl.buffer[..], s'.log.cmd, s'.log.shifted))
  {
    chip := new Chip();
    chip.Cycles(ins + [i]);
    PadReachKeeps(Word(0, 0), 0, NoLine(), ins + [i]);
    FillEnds(ins, i);
    SendEnds(ins, i);
  }
}
