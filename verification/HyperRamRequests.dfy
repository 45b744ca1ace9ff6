/**
 Which request the idle controller takes, in terms of what the bus has presented, and what it remembers of requests:
 the captured addresses, the command of a register read, the row and page of the line buffer.
 */
module HyperRamRequests {
  import opened HyperRam
  import opened HyperRamBursts
  import opened HyperRamPads
  import opened HyperRamRuns
  import opened Runs

  function RequestsOf(i: In): Requests { Requests(i.csrRead, i.csrWrite, i.s0Read, i.s0Write) }

  lemma RequestsFollow(s: System, a: In, b: In)
    ensures Step(s, a).h.ctl.req == RequestsOf(a)
    ensures Step(s, b).h.ctl.prev == s.h.ctl.req
  {
  }

  lemma IdleMoves(h: Hw, c: In, a: In, b: In)
    requires h.ctl.state.IDLE? && h.ctl.req == RequestsOf(b) && h.ctl.prev == RequestsOf(a)
    ensures var hit, next := h.ctl.currRow == c.rowId && h.ctl.currPage == c.pageId, NextIdle(h.ctl, c);
            && next.state == (if b.csrRead && !a.csrRead then RDREG
                              else if b.csrWrite && !a.csrWrite then WRREG
                              else if b.s0Read && !a.s0Read then if hit then RDMEM1 else RDMEM2
                              else if b.s0Write && !a.s0Write then if hit then WRMEM1 else RDMEM2
                              else IDLE)
            && (next.state.RDMEM2? ==> next.row == (b.s0Read && !a.s0Read))
  {
  }

  /**
   What the idle controller does in a cycle depends on the two before, `a` and `b`, and on the row and page presented
   now: a request is one that `b` has and `a` has not; register requests go before memory requests, and of each kind
   reads before writes; a request for the line in the buffer is a hit, any other first fetches its line.
   */
  lemma IdleTakes(word: Word, half: Half, tail: Packed, ins: seq<In>, a: In, b: In, c: In)
    ensures var s := Reach(word, half, tail, ins + [a] + [b]).h.ctl;
            var s' := Reach(word, half, tail, ins + [a] + [b] + [c]).h.ctl;
            var hit := s.currRow == c.rowId && s.currPage == c.pageId;
            s.state.IDLE? ==>
              && s'.state == (if b.csrRead && !a.csrRead then RDREG
                              else if b.csrWrite && !a.csrWrite then WRREG
                              else if b.s0Read && !a.s0Read then if hit then RDMEM1 else RDMEM2
                              else if b.s0Write && !a.s0Write then if hit then WRMEM1 else RDMEM2
                              else IDLE)
              && (s'.state.RDMEM2? ==> s'.row == (b.s0Read && !a.s0Read))
  {
    ReachOneMore(word, half, tail, ins, a);
    ReachOneMore(word, half, tail, ins + [a], b);
    ReachOneMore(word, half, tail, ins + [a] + [b], c);
    RequestsFollow(Reach(word, half, tail, ins), a, b);
    RequestsFollow(Reach(word, half, tail, ins + [a]), b, b);
    var s := Reach(word, half, tail, ins + [a] + [b]);
    if s.h.ctl.state.IDLE? { IdleMoves(s.h, c, a, b); }
  }

  // ----------------------------------------------------------------------------------------------
  // Captured addresses
  // ----------------------------------------------------------------------------------------------

  predicate AsksRegister(i: In) { i.csrRead || i.csrWrite }

  predicate AsksMemory(i: In) { i.s0Read || i.s0Write }

  /** The last cycle of a run that satisfies `p` is cycle `m`. */
  ghost predicate LastIs(ins: seq<In>, p: In -> bool, m: nat)
  {
    m < |ins| && p(ins[m]) && forall n :: m < n < |ins| ==> !p(ins[n])
  }

  lemma LastIsMore(ins: seq<In>, p: In -> bool, m: nat)
    requires ins != [] && LastIs(ins, p, m)
    ensures var n := |ins| - 1; if p(ins[n]) then m == n else m < n && LastIs(ins[..n], p, m)
  {
  }

  lemma CapturesStep(p: Padded, i: In)
    ensures var p' := PadStep(p, i);
            && p'.sys.h.ctl.csrAddr == (if AsksRegister(i) then i.csrAddress else p.sys.h.ctl.csrAddr)
            && p'.side.s0Addr == (if AsksMemory(i) then i.s0Address else p.side.s0Addr)
  {
  }

  /** The captured addresses are those of the last cycle in which the bus asked for a register, and for memory. */
  lemma {:induction false} AddressesCaptured(word: Word, half: Half, tail: Packed, ins: seq<In>, m: nat)
    ensures var p := PadReach(word, half, tail, ins);
            && (LastIs(ins, AsksRegister, m) ==> p.sys.h.ctl.csrAddr == ins[m].csrAddress)
            && (LastIs(ins, AsksMemory, m) ==> p.side.s0Addr == ins[m].s0Address)
  {
    if ins != [] {
      var n := |ins| - 1;
      AddressesCaptured(word, half, tail, ins[..n], m);
      CapturesStep(PadReach(word, half, tail, ins[..n]), ins[n]);
      if LastIs(ins, AsksRegister, m) { LastIsMore(ins, AsksRegister, m); }
      if LastIs(ins, AsksMemory, m) { LastIsMore(ins, AsksMemory, m); }
    }
  }

  // ----------------------------------------------------------------------------------------------
  // The command of a register read
  // ----------------------------------------------------------------------------------------------

  /** Bits 47 to 45 of a command for a linear read of a register are 110; bits 15 to 3 are not used. */
  predicate ReadsRegister(c: Command) { 0xc000 <= c.top < 0xe000 && c.mid < 0x1_0000 && c.low < 8 }

  /** The word address in such a command: its low three bits come last. */
  function WordAddress(c: Command): int { ((c.top - 0xc000) * 0x1_0000 + c.mid) * 8 + c.low }

  /** There are four registers, two to a block of 0x800 words, one word apart. */
  predicate Addresses(c: Command, address: nat)
  {
    && ReadsRegister(c)
    && WordAddress(c) == if address == 4 then 1 else if address == 8 then 0x800 else if address == 12 then 0x801 else 0
  }

  lemma CommandOf(address: nat)
    ensures Addresses(RegCommand(address), address)
  {
  }

  lemma CommandStep(s: System, i: In)
    requires Inv(s) && s.h.ctl.state.RDREG?
    ensures var log := NextLog(s.h, i, s.log);
            log.cmd == if s.log.cycles == 0 then RegCommand(s.h.ctl.csrAddr) else s.log.cmd
  {
    if Time(s.log) < 22 { RgUnfold(s, i); } else { RgEndsKeeps(s, i); }
  }

  /** From before a cycle to after it, the command is kept, or taken for the address. */
  predicate CommandFits(cycles: nat, address: nat, cmd: Command, cmd': Command)
  {
    if cycles > 0 then cmd' == cmd else Addresses(cmd', address)
  }

  lemma CommandIsFit(cycles: nat, address: nat, cmd: Command, cmd': Command)
    requires cmd' == if cycles == 0 then RegCommand(address) else cmd
    ensures CommandFits(cycles, address, cmd, cmd')
  {
    CommandOf(address);
  }

  /**
   A register read sends a command that reads the register whose bus address was captured when it began: register 0 or 1
   of one of two blocks; any other address reads the first. The command stays for the rest of the burst.
   */
  lemma RegisterCommand(word: Word, half: Half, tail: Packed, ins: seq<In>, i: In)
    ensures var s, s' := Reach(word, half, tail, ins), Reach(word, half, tail, ins + [i]);
            s.h.ctl.state.RDREG? ==> CommandFits(s.log.cycles, s.h.ctl.csrAddr, s.log.cmd, s'.log.cmd)
  {
    var s := Reach(word, half, tail, ins);
    ReachOneMore(word, half, tail, ins, i);
    ReachKeeps(word, half, tail, ins);
    if s.h.ctl.state.RDREG? {
      CommandStep(s, i);
      CommandIsFit(s.log.cycles, s.h.ctl.csrAddr, s.log.cmd, NextLog(s.h, i, s.log).cmd);
    }
  }

  lemma LogFromInput(h: Hw, i: In, log: Log)
    ensures var log' := NextLog(h, i, log);
            && ((h.ctl.state.RDMEM2? || h.ctl.state.WRMEM2?) && Clock(h, i).ctl.state == h.ctl.state
                && log.cycles > 0 ==>
                  log'.cmd == if log.cycles == 1 then i.ca else log.cmd)
            && (|log'.samples| > |log.samples| ==> log'.samples == log.samples + [i.dataout])
  {
  }

  lemma ValidWhenDone(s: System)
    requires Inv(s)
    ensures s.h.rr.valid ==> s.h.rr.phase.EDone?
  {
  }

  lemma ValidData(e: RdReg, start: bool, ca: Command, i: In)
    requires e.valid ==> e.phase.EDone?
    ensures NextRdReg(e, start, ca, i).valid ==> NextRdReg(e, start, ca, i).data == i.dataout
  {
  }

  /**
   The command of a memory burst is the one presented in its second cycle, what is sampled is what the data bus carries
   in that cycle, and the data of a register read is valid in the cycle after it was on the bus.
   */
  lemma BurstsFollowTheBus(word: Word, half: Half, tail: Packed, ins: seq<In>, i: In)
    ensures var s, s' := Reach(word, half, tail, ins), Reach(word, half, tail, ins + [i]);
            && ((s.h.ctl.state.RDMEM2? || s.h.ctl.state.WRMEM2?) && s'.h.ctl.state == s.h.ctl.state
                && s.log.cycles > 0 ==>
                  s'.log.cmd == if s.log.cycles == 1 then i.ca else s.log.cmd)
            && (|s'.log.samples| > |s.log.samples| ==> s'.log.samples == s.log.samples + [i.dataout])
            && (s'.h.rr.valid ==> s'.h.rr.data == i.dataout)
  {
    var s := Reach(word, half, tail, ins);
    ReachOneMore(word, half, tail, ins, i);
    ReachKeeps(word, half, tail, ins);
    LogFromInput(s.h, i, s.log);
    ValidWhenDone(s);
    ValidData(s.h.rr, s.h.ctl.start.rdreg, s.h.ctl.ca, i);
  }

  lemma WriteRegStep(h: Hw, i: In)
    requires h.ctl.state.WRREG?
    ensures var c := NextCtl(h, i);
            c.start.wrreg == !i.wrregEnd && if i.wrregEnd then c.state.IDLE? else c.state.WRREG?
  {
  }

  /** A register write asks its engine to run, and ends, with the request taken back, when that reports its end. */
  lemma RegisterWrite(word: Word, half: Half, tail: Packed, ins: seq<In>, i: In)
    ensures var c, c' := Reach(word, half, tail, ins).h.ctl, Reach(word, half, tail, ins + [i]).h.ctl;
            c.state.WRREG? ==> c'.start.wrreg == !i.wrregEnd && if i.wrregEnd then c'.state.IDLE? else c'.state.WRREG?
  {
    ReachOneMore(word, half, tail, ins, i);
    if Reach(word, half, tail, ins).h.ctl.state.WRREG? { WriteRegStep(Reach(word, half, tail, ins).h, i); }
  }

  // ----------------------------------------------------------------------------------------------
  // The row and page of the line buffer
  // ----------------------------------------------------------------------------------------------

  /** The row and page of `c'` are those of `c`, or, if the buffer takes over a new line, those of the cycle. */
  predicate TagsFit(c: Ctl, c': Ctl, i: In)
  {
    if (c.state.RDMEM2? && c.row && !c'.state.RDMEM2?) || (c.state.WRMEM2? && !c'.state.WRMEM2?)
    then c'.currRow == i.rowId && c'.currPage == i.pageId
    else c'.currRow == c.currRow && c'.currPage == c.currPage
  }

  lemma IdleTags(c: Ctl, i: In)
    requires c.state.IDLE?
    ensures TagsFit(c, NextIdle(c, i), i)
  {
  }

  lemma FetchTags(c: Ctl, rm: RdMem, i: In)
    requires c.state.RDMEM2?
    ensures TagsFit(c, NextRdmem2(c, rm, i), i)
  {
  }

  lemma StoreTags(c: Ctl, i: In)
    requires c.state.WRMEM1?
    ensures TagsFit(c, NextWrmem1(c, i), i)
  {
  }

  lemma TagsMove(c: Ctl, rr: RdReg, rm: RdMem, wm: WrMem, i: In)
    ensures TagsFit(c, NextState(c, rr, rm, wm, i), i)
  {
    match c.state
    case IDLE => IdleTags(c, i);
    case RDMEM2 => FetchTags(c, rm, i);
    case WRMEM1 => StoreTags(c, i);
    case _ =>
  }

  /**
   The buffer is marked with the row and page presented in the cycle that ends the read burst of a read, or a write
   burst; nothing else changes the mark.
   */
  lemma TagsFollow(word: Word, half: Half, tail: Packed, ins: seq<In>, i: In)
    ensures var c, c' := Reach(word, half, tail, ins).h.ctl, Reach(word, half, tail, ins + [i]).h.ctl;
            if (c.state.RDMEM2? && c.row && !c'.state.RDMEM2?) || (c.state.WRMEM2? && !c'.state.WRMEM2?)
            then c'.currRow == i.rowId && c'.currPage == i.pageId
            else c'.currRow == c.currRow && c'.currPage == c.currPage
  {
    ReachOneMore(word, half, tail, ins, i);
    var h := Reach(word, half, tail, ins).h;
    TagsMove(h.ctl, h.rr, h.rm, h.wm, i);
  }
}
