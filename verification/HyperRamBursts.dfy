/**
 Each burst engine by itself. During a burst everything an engine holds is determined by how many cycles
 the burst has taken, not counting the cycles spent waiting for RWDS.
 */
module HyperRamBursts {
  import opened HyperRam

  function Clamp(x: int, hi: nat): nat
  {
    if x < 0 then 0 else if x > hi then hi else x
  }

  /** The next burst time: it stands still only while the engine waits for RWDS, which happens at time `w`. */
  function Later(t: nat, w: nat, i: In): nat
  {
    if t == w && !i.rwdsIn then t else t + 1
  }

  /** What a shift register that was loaded with `all` holds after `n` shifts. */
  function Tail(all: seq<Half>, n: nat): (s: seq<Half>)
    requires n <= |all|
    ensures |s| == |all|
  {
    all[n..] + seq(n, _ => 0)
  }

  lemma TailShift(all: seq<Half>, n: nat)
    requires n < |all|
    ensures Tail(all, n)[1..] + [0] == Tail(all, n + 1)
    ensures Tail(all, n)[0] == all[n]
  {
  }

  /** One more element of a prefix. */
  lemma PrefixMore(all: seq<Half>, n: nat)
    requires n < |all|
    ensures all[..n] + [all[n]] == all[..n + 1]
  {
  }

  /** What has left a shift register after one shift more. */
  lemma ShiftMore(all: seq<Half>, n: nat, out: seq<Half>, shifted: seq<Half>)
    requires n < |all| && out == Tail(all, n) && shifted == all[..n]
    ensures shifted + [out[0]] == all[..n + 1]
  {
  }

  /** What has been on the wires of a trace after one driven halfword more. */
  lemma DrivenMore(trace: seq<Half>, n: nat, x: Half, driven: seq<Half>)
    requires n < |trace| && x == trace[n] && driven == trace[..n]
    ensures driven + [x] == trace[..n + 1]
  {
  }

  /** The last `n` entries of the buffer are the first `n` words sampled. */
  ghost predicate HoldsWords(line: Line, samples: seq<Half>, n: nat)
  {
    n <= 8 && 2 * n <= |samples| &&
    forall k :: 0 <= k < n ==> line[8 - n + k] == Word(samples[2 * k], samples[2 * k + 1])
  }

  lemma WordEnters(line: Line, samples: seq<Half>, n: nat, word: Word)
    requires HoldsWords(line, samples, n) && n < 8 && 2 * n + 2 <= |samples|
    requires word == Word(samples[2 * n], samples[2 * n + 1])
    ensures HoldsWords(line[1..] + [word], samples, n + 1)
  {
    var line' := line[1..] + [word];
    forall k | 0 <= k < n + 1 ensures line'[8 - (n + 1) + k] == Word(samples[2 * k], samples[2 * k + 1]) {
      if k < n { assert line'[8 - (n + 1) + k] == line[8 - n + k]; }
    }
  }

  lemma MoreSamples(line: Line, samples: seq<Half>, n: nat, x: Half)
    requires HoldsWords(line, samples, n)
    ensures HoldsWords(line, samples + [x], n)
  {
  }

  /** The eight words that sixteen halfwords in arrival order make up. */
  function Unpack(p: seq<Half>): Line
    requires |p| == 16
  {
    seq(8, k requires 0 <= k < 8 => Word(p[2 * k], p[2 * k + 1]))
  }

  /** Reading back the halfwords of a packed line gives the line. */
  lemma UnpackPack(line: Line)
    ensures Unpack(Pack(line)) == line
  {
  }

  // ----------------------------------------------------------------------------------------------
  // The memory-read engine
  // ----------------------------------------------------------------------------------------------

  /** Halfwords shifted out by time `t`. */
  function ReadShifts(t: nat): nat { Clamp(t - 4, 3) }

  /** The engine at time `t` of a burst with command `cmd` that has sampled `samples`. */
  ghost predicate RdAt(e: RdMem, t: nat, cmd: Command, samples: seq<Half>)
  {
    && t <= 41
    && e.phase == (if t <= 2 then EIdle else if t <= 7 then ECa else if t <= 40 then ERun else EDone)
    && (t >= 3 ==> e.counter == if t <= 7 then t - 3 else if t <= 40 then t - 8 else 0)
    && e.stmEnd == (t == 41)
    && e.oe == (4 <= t <= 7)
    && e.csn == !(3 <= t <= 40)
    && (t >= 3 ==> e.out == Tail(cmd.Halves(), ReadShifts(t)))
    && |samples| == Clamp(t - 24, 16)
    && e.inner == (25 <= t <= 40 && t % 2 == 1)
    && e.wordvalid == (26 <= t <= 40 && t % 2 == 0)
    && (e.inner ==> e.word.lo == samples[|samples| - 1])
    && (e.wordvalid ==> e.word == Word(samples[|samples| - 2], samples[|samples| - 1]))
  }

  /** Whether the engine takes a halfword off the bus at this edge. */
  predicate RdSamples(e: RdMem)
  {
    e.phase.ERun? && 16 <= e.counter < 32
  }

  lemma RdStep(e: RdMem, t: nat, cmd: Command, samples: seq<Half>, start: bool, ca: Command, i: In)
    requires RdAt(e, t, cmd, samples) && t < 41
    requires start == (t >= 2) && (t == 2 ==> ca == cmd)
    ensures RdAt(NextRdMem(e, start, ca, i), Later(t, 3, i), cmd,
                 if RdSamples(e) then samples + [i.dataout] else samples)
    ensures RdSamples(e) <==> 24 <= t < 40
  {
    if 4 <= t < 7 {
      TailShift(cmd.Halves(), t - 4);
    }
  }

  // ----------------------------------------------------------------------------------------------
  // The memory-write engine
  // ----------------------------------------------------------------------------------------------

  /** Halfwords shifted out by time `t`: three in the command phase, sixteen in the data phase. */
  function WriteShifts(t: nat): nat
  {
    if t <= 21 then Clamp(t - 4, 3) else Clamp(t - 18, 19)
  }

  /** The engine at time `t` of a burst that sends `all`: a command and a packed line. */
  ghost predicate WrAt(e: WrMem, t: nat, all: seq<Half>)
    requires |all| == 19
  {
    && t <= 38
    && e.phase == (if t <= 2 then EIdle else if t <= 7 then ECa else if t <= 37 then ERun else EDone)
    && (t >= 3 ==> e.counter == if t <= 7 then t - 3 else if t <= 37 then t - 8 else 0)
    && e.stmEnd == (t == 38)
    && e.oe == (4 <= t <= 7 || 22 <= t <= 37)
    && e.csn == !(3 <= t <= 37)
    && (1 <= t <= 2 ==> e.out[3..] == all[3..])
    && (t >= 3 ==> e.out == Tail(all, WriteShifts(t)))
  }

  /** Whether the engine shifts its output register at this edge. */
  predicate WrShifts(e: WrMem)
  {
    (e.phase.ECa? && 1 <= e.counter < 4) || (e.phase.ERun? && 13 <= e.counter < 29)
  }

  lemma WrStep(e: WrMem, t: nat, all: seq<Half>, start: bool, ca: Command, valid: bool, line: Packed, i: In)
    requires |all| == 19 && WrAt(e, t, all) && t < 38
    requires start == (t >= 2) && (t == 2 ==> ca.Halves() == all[..3])
    requires valid == (t == 0) && (t == 0 ==> line == all[3..])
    ensures WrAt(NextWrMem(e, start, ca, valid, line, i), Later(t, 3, i), all)
    ensures WrShifts(e) ==> WriteShifts(t) < 19 && e.out[0] == all[WriteShifts(t)]
    ensures WriteShifts(Later(t, 3, i)) == WriteShifts(t) + if WrShifts(e) then 1 else 0
  {
    if WrShifts(e) {
      TailShift(all, WriteShifts(t));
    }
    if t == 2 {
      assert all == all[..3] + all[3..];
      assert Tail(all, 0) == all;
    }
  }

  // ----------------------------------------------------------------------------------------------
  // The register-read engine
  // ----------------------------------------------------------------------------------------------

  /** The engine at time `t` of a burst with command `cmd`. */
  ghost predicate RgAt(e: RdReg, t: nat, cmd: Command)
  {
    && t <= 22
    && e.phase == (if t <= 1 then EIdle else if t <= 6 then ECa else if t <= 21 then ERun else EDone)
    && (2 <= t <= 21 ==> e.counter == if t <= 6 then t - 2 else t - 7)
    && e.stmEnd == (t == 22)
    && e.valid == (t == 22)
    && e.oe == (3 <= t <= 6)
    && e.csn == !(2 <= t <= 21)
    && (t >= 2 ==> e.out == Tail(cmd.Halves(), Clamp(t - 3, 3)))
  }

  lemma RgStep(e: RdReg, t: nat, cmd: Command, start: bool, ca: Command, i: In)
    requires RgAt(e, t, cmd) && t < 22
    requires start == (t >= 1) && (t == 1 ==> ca == cmd)
    ensures RgAt(NextRdReg(e, start, ca, i), Later(t, 2, i), cmd)
    ensures t == 21 ==> NextRdReg(e, start, ca, i).data == i.dataout
  {
    if 3 <= t < 6 {
      TailShift(cmd.Halves(), t - 3);
    }
  }
}
