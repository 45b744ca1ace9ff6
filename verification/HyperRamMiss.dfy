/**
 A run from reset in which a write misses: a word is written, what the write burst sends is the line without it, and
 what is on the pins while RWDS is driven is not even that.
 */
module HyperRamMiss {
  import opened HyperRam
  import opened HyperRamBursts
  import opened HyperRamPads
  import opened HyperRamRuns
  import opened Runs

  /** What every halfword of the memory reads as. */
  const OLD: Half := 5

  /** The bus writes the word (1, 1) to entry 0 of row 1; the memory is always ready. */
  function MissInput(): In
  {
    In(false, false, 0, false, true, Word(1, 1), true, OLD, false, Command(0, 0, 0), 1, 0, 0, 0)
  }

  ghost predicate AllOld(samples: seq<Half>)
  {
    forall k :: 0 <= k < |samples| ==> samples[k] == OLD
  }

  /** The burst that fetches the line: `n` cycles have passed, and the tag is still that of the row held before. */
  ghost predicate Fetching(s: System, n: nat)
  {
    && Inv(s) && s.h.ctl.state.RDMEM2? && !s.h.ctl.row && s.h.ctl.currRow == 0
    && s.log.waits == 0 && s.log.cycles == n && AllOld(s.log.samples)
  }

  lemma TagsKept(h: Hw, i: In)
    requires h.ctl.state.RDMEM2? && (h.rm.stmEnd ==> !h.ctl.row)
    ensures Clock(h, i).ctl.row == h.ctl.row && Clock(h, i).ctl.currRow == h.ctl.currRow
  {
  }

  /** The memory was ready and the halfword sampled, if any, was the old one. */
  lemma NoWaitNoData(h: Hw, log: Log, h': Hw, log': Log)
    requires BurstEdge(h, log, MissInput(), h', log') && log.waits == 0 && AllOld(log.samples)
    ensures log'.waits == 0 && log'.cycles == log.cycles + 1 && AllOld(log'.samples)
  {
  }

  lemma FetchStep(s: System, n: nat)
    requires Fetching(s, n) && n < 41
    ensures Fetching(Step(s, MissInput()), n + 1)
  {
    CycleKeeps(s, MissInput());
    TagsKept(s.h, MissInput());
    FetchLog(s, n);
  }

  lemma FetchLog(s: System, n: nat)
    requires Fetching(s, n) && n < 41
    ensures var log' := NextLog(s.h, MissInput(), s.log);
            && Clock(s.h, MissInput()).ctl.state.RDMEM2?
            && log'.waits == 0 && log'.cycles == n + 1 && AllOld(log'.samples)
  {
    RdUnfold(s, MissInput());
    NoWaitNoData(s.h, s.log, Clock(s.h, MissInput()), NextLog(s.h, MissInput(), s.log));
  }

  /** The request is seen in one cycle and taken in the next. */
  lemma Taken(s: System)
    requires Inv(s) && s.h == Reset(s.h.rm.word, s.h.rr.data, s.h.wm.out[3..])
    ensures Fetching(Step(Step(s, MissInput()), MissInput()), 0)
  {
    CycleKeeps(s, MissInput());
    CycleKeeps(Step(s, MissInput()), MissInput());
  }

  lemma OldLine(samples: seq<Half>)
    requires |samples| == 16 && AllOld(samples)
    ensures forall k :: 0 <= k < 8 ==> Unpack(samples)[k] == Word(OLD, OLD)
  {
  }

  /** Every word of a line is what the memory held. */
  ghost predicate Untouched(line: Line)
  {
    forall k :: 0 <= k < 8 ==> line[k] == Word(OLD, OLD)
  }

  /** The line has come in, and it is not the one the buffer is marked as holding. */
  ghost predicate Fetched(s: System)
  {
    Inv(s) && s.h.ctl.state.WRMEM1? && s.h.ctl.currRow == 0 && Untouched(s.h.ctl.line)
  }

  lemma FetchEnds(s: System)
    requires Fetching(s, 41)
    ensures Fetched(Step(s, MissInput()))
  {
    var s' := Step(s, MissInput());
    CycleKeeps(s, MissInput());
    RdEndsKeeps(s, MissInput());
    RdEndsLine(s, MissInput());
    TagsKept(s.h, MissInput());
    OldLine(s'.log.samples);
  }

  /** The write burst: the word is in the buffer, and not in the line that is being sent. */
  ghost predicate Sending(s: System, n: nat)
  {
    && Inv(s) && s.h.ctl.state.WRMEM2? && s.log.waits == 0 && s.log.cycles == n
    && s.h.ctl.line[0] == Word(1, 1) && Untouched(s.log.old')
  }

  lemma SendStarts(s: System)
    requires Fetched(s)
    ensures Sending(Step(s, MissInput()), 0)
  {
    CycleKeeps(s, MissInput());
    Wrmem1Writes(s.h, MissInput());
  }

  lemma SendLog(s: System, n: nat)
    requires Sending(s, n) && n < 38
    ensures var log' := NextLog(s.h, MissInput(), s.log);
            Clock(s.h, MissInput()).ctl.state.WRMEM2? && log'.waits == 0 && log'.cycles == n + 1
  {
    WrUnfold(s, MissInput());
  }

  lemma SendStep(s: System, n: nat)
    requires Sending(s, n) && n < 38
    ensures Sending(Step(s, MissInput()), n + 1)
  {
    CycleKeeps(s, MissInput());
    SendLog(s, n);
    SendGoesOn(s, MissInput());
  }

  /** Entry 0 of the buffer is the word that was written; the line sent is what the memory held. */
  ghost predicate SentOld(s: System)
  {
    && s.h.ctl.state.ACCDLY? && s.h.ctl.line[0] == Word(1, 1)
    && |s.log.shifted| == 19 && Untouched(s.log.old') && s.log.shifted[3..] == Pack(s.log.old')
  }

  lemma SendEnds(s: System)
    requires Sending(s, 38)
    ensures SentOld(Step(s, MissInput()))
  {
    WrEndsKeeps(s, MissInput());
    WrEndsLine(s, MissInput());
    SendGoesOn(s, MissInput());
    var log := Step(s, MissInput()).log;
    assert WriteHalves(log.cmd, log.old')[3..] == Pack(log.old');
  }

  // The run, piece by piece.

  function Cycles(n: nat): seq<In> { Repeated(MissInput(), n) }

  lemma FetchSteps()
    ensures forall t: System, k: nat, m: nat ::
              Fetching(t, k) && k < 41 && m == k + 1 ==> Fetching(Step(t, MissInput()), m)
  {
    forall t: System, k: nat, m: nat | Fetching(t, k) && k < 41 && m == k + 1
      ensures Fetching(Step(t, MissInput()), m)
    {
      FetchStep(t, k);
    }
  }

  lemma SendSteps()
    ensures forall t: System, k: nat, m: nat ::
              Sending(t, k) && k < 38 && m == k + 1 ==> Sending(Step(t, MissInput()), m)
  {
    forall t: System, k: nat, m: nat | Sending(t, k) && k < 38 && m == k + 1
      ensures Sending(Step(t, MissInput()), m)
    {
      SendStep(t, k);
    }
  }

  lemma FetchCycles(s: System, acts: seq<In>)
    requires Fetching(Run(Step, s, acts), 0)
    ensures Fetching(Run(Step, s, acts + Cycles(41)), 41)
  {
    FetchSteps();
    RunRepeated(Step, s, acts, MissInput(), Fetching, 41, 41);
  }

  lemma SendCycles(s: System, acts: seq<In>)
    requires Sending(Run(Step, s, acts), 0)
    ensures Sending(Run(Step, s, acts + Cycles(38)), 38)
  {
    SendSteps();
    RunRepeated(Step, s, acts, MissInput(), Sending, 38, 38);
  }

  lemma Fetches(s: System, acts: seq<In>)
    requires Fetching(Run(Step, s, acts), 0)
    ensures Fetched(Run(Step, s, acts + Cycles(41) + [MissInput()]))
  {
    FetchCycles(s, acts);
    RunOneMore(Step, s, acts + Cycles(41), MissInput());
    FetchEnds(Run(Step, s, acts + Cycles(41)));
  }

  lemma SendsFirst(s: System, acts: seq<In>)
    requires Fetched(Run(Step, s, acts))
    ensures Sending(Run(Step, s, acts + [MissInput()]), 0)
  {
    RunOneMore(Step, s, acts, MissInput());
    SendStarts(Run(Step, s, acts));
  }

  /** The request is seen and taken. */
  lemma Takes(word: Word, half: Half, tail: Packed)
    ensures Fetching(Reach(word, half, tail, [MissInput(), MissInput()]), 0)
  {
    var i, s := MissInput(), Init(word, half, tail);
    InitInv(word, half, tail);
    RunOneMore(Step, s, [], i);
    RunOneMore(Step, s, [i], i);
    assert [] + [i] == [i] && [i] + [i] == [i, i];
    Taken(s);
  }

  /** Two cycles for the request, 42 to fetch the line, one to put the word in it, 38 of the 39 to send it. */
  function MostOfRun(): seq<In>
  {
    [MissInput(), MissInput()] + Cycles(41) + [MissInput()] + [MissInput()] + Cycles(38)
  }

  lemma MostOfRunSends(word: Word, half: Half, tail: Packed)
    ensures Sending(Reach(word, half, tail, MostOfRun()), 38)
  {
    var i, s := MissInput(), Init(word, half, tail);
    Takes(word, half, tail);
    Fetches(s, [i, i]);
    SendsFirst(s, [i, i] + Cycles(41) + [i]);
    SendCycles(s, [i, i] + Cycles(41) + [i] + [i]);
  }

  /**
   From reset, whatever the registers reset does not set may hold: after this run the word written is in the buffer,
   and the write burst sent what the memory held in its place.
   */
  lemma MissSendsTheOldWord(word: Word, half: Half, tail: Packed)
    ensures SentOld(Reach(word, half, tail, MostOfRun() + [MissInput()]))
  {
    MostOfRunSends(word, half, tail);
    RunOneMore(Step, Init(word, half, tail), MostOfRun(), MissInput());
    SendEnds(Reach(word, half, tail, MostOfRun()));
  }

  lemma UntouchedIsNotZero(line: Line)
    requires Untouched(line)
    ensures Pack(line)[0] == OLD != 0
  {
  }

  /** In the same run the halfwords on the pins while RWDS was driven are not the line that was sent. */
  lemma MissMasksAnotherLine(word: Word, half: Half, tail: Packed)
    ensures var p := PadReach(word, half, tail, MostOfRun() + [MissInput()]);
            SentOld(p.sys) && p.masked != p.sys.log.shifted[3..]
  {
    var acts, i := MostOfRun(), MissInput();
    MostOfRunSends(word, half, tail);
    MissSendsTheOldWord(word, half, tail);
    PadReachKeeps(word, half, tail, acts);
    PadReachKeeps(word, half, tail, acts + [i]);
    MaskedLine(word, half, tail, acts, i);
    UntouchedIsNotZero(PadReach(word, half, tail, acts + [i]).sys.log.old');
  }
}
