/**
 The clocked blocks as classes, one method per block and edge. Within a block a later assignment overrides an
 earlier one; what a block reads of the others are their values before the edge, which `HyperRamChip` hands it.
 */
module HyperRamBlocks {
  import opened HyperRam
  import opened HyperRamPads

  /** A buffer that is shifted towards its first element. */
  method ShiftIn<T>(buffer: array<T>, last: T)
    requires buffer.Length > 0
    modifies buffer
    ensures buffer[..] == old(buffer[..])[1..] + [last]
  {
    ghost var was := buffer[..];
    for i := 0 to buffer.Length - 1
      invariant forall k :: 0 <= k < i ==> buffer[k] == was[k + 1]
      invariant forall k :: i <= k < buffer.Length ==> buffer[k] == was[k]
    {
      buffer[i] := buffer[i + 1];
    }
    buffer[buffer.Length - 1] := last;
  }

  /** The command goes into the first three halfwords of an output buffer. */
  method LoadCommand(buffer: array<Half>, ca: Command)
    requires buffer.Length >= 3
    modifies buffer
    ensures buffer[..] == ca.Halves() + old(buffer[..])[3..]
  {
    buffer[0], buffer[1], buffer[2] := ca.top, ca.mid, ca.low;
  }

  class RdRegBlock {
    var phase: Phase
    var counter: nat
    const out: array<Half>
    var stmEnd: bool
    var oe: bool
    var csn: bool
    var valid: bool
    var data: Half
    var clk: bool

    ghost predicate Valid()
      reads this, out
    {
      out.Length == 3
    }

    ghost function Value(): RdReg
      reads this, out
      requires Valid()
    {
      RdReg(phase, counter, out[..], stmEnd, oe, csn, valid, data)
    }

    constructor ()
      ensures Valid() && fresh(out) && Value() == RdReg(EIdle, 0, [0, 0, 0], false, false, true, false, 0) && !clk
    {
      phase, counter, stmEnd, oe, csn, valid, data, clk := EIdle, 0, false, false, true, false, 0, false;
      out := new Half[3](_ => 0);
    }

    method Edge(start: bool, ca: Command, rwdsIn: bool, dataout: Half, ghost i: In)
      requires Valid() && i.rwdsIn == rwdsIn && i.dataout == dataout
      modifies this, out
      ensures Valid() && Value() == NextRdReg(old(Value()), start, ca, i)
      ensures clk == ReadClock(old(phase), old(counter), old(clk), rwdsIn)
    {
      var was := counter;
      match phase
      case EIdle =>
        counter, stmEnd, csn, valid := 0, false, true, false;
        LoadCommand(out, ca);
        if start {
          phase, csn := ECa, false;
        }
      case ECa =>
        if was == 4 {
          phase, counter, oe := ERun, 0, false;
        } else if was > 0 && was < 4 {
          counter := was + 1;
          ShiftIn(out, 0);
          clk := true;
        } else if rwdsIn {
          oe, clk, counter := true, false, 1;
        }
      case ERun =>
        if was == 14 {
          phase, stmEnd, counter, csn := EDone, true, 0, true;
          data, valid := dataout, true;
        }
        counter := was + 1;
      case EDone =>
        phase, clk, valid := EIdle, false, false;
    }
  }

  class RdMemBlock {
    var phase: Phase
    var counter: nat
    const out: array<Half>
    var inner: bool
    var word: Word
    var wordvalid: bool
    var stmEnd: bool
    var oe: bool
    var csn: bool
    var clk: bool

    ghost predicate Valid()
      reads this, out
    {
      out.Length == 3
    }

    ghost function Value(): RdMem
      reads this, out
      requires Valid()
    {
      RdMem(phase, counter, out[..], inner, word, wordvalid, stmEnd, oe, csn)
    }

    constructor ()
      ensures Valid() && fresh(out)
      ensures Value() == RdMem(EIdle, 0, [0, 0, 0], false, Word(0, 0), false, false, false, true) && !clk
    {
      phase, counter, inner, word := EIdle, 0, false, Word(0, 0);
      wordvalid, stmEnd, oe, csn, clk := false, false, false, true, false;
      out := new Half[3](_ => 0);
    }

    /** A halfword comes in: the first of a word, or the second, which makes the word valid. */
    method Sample(dataout: Half)
      modifies `counter, `inner, `word, `wordvalid
      ensures word == Word(if old(inner) then old(word).lo else old(word).hi, dataout)
      ensures inner == !old(inner) && wordvalid == old(inner) && counter == old(counter) + 1
    {
      if inner {
        word := Word(word.lo, dataout);
        inner, wordvalid := false, true;
      } else {
        word := word.(lo := dataout);
        inner, wordvalid := true, false;
      }
      counter := counter + 1;
    }

    method RunEdge(dataout: Half, ghost start: bool, ghost ca: Command, ghost i: In)
      requires Valid() && phase == ERun && i.dataout == dataout
      modifies `phase, `stmEnd, `counter, `csn, `inner, `word, `wordvalid
      ensures Valid() && Value() == NextRdMem(old(Value()), start, ca, i)
    {
      if counter == 32 {
        phase, stmEnd, counter, csn, wordvalid := EDone, true, 0, true, false;
      } else if counter > 15 {
        Sample(dataout);
      } else {
        counter := counter + 1;
      }
    }

    method Edge(start: bool, ca: Command, rwdsIn: bool, dataout: Half, ghost i: In)
      requires Valid() && i.rwdsIn == rwdsIn && i.dataout == dataout
      modifies this, out
      ensures Valid() && Value() == NextRdMem(old(Value()), start, ca, i)
      ensures clk == ReadClock(old(phase), old(counter), old(clk), rwdsIn)
    {
      match phase
      case EIdle =>
        counter, stmEnd, csn, wordvalid := 0, false, true, false;
        LoadCommand(out, ca);
        if start {
          phase, csn := ECa, false;
        }
      case ECa =>
        if counter == 4 {
          phase, counter, oe := ERun, 0, false;
        } else if counter > 0 && counter < 4 {
          counter := counter + 1;
          ShiftIn(out, 0);
          clk := true;
        } else if rwdsIn {
          oe, clk, counter := true, false, 1;
        }
      case ERun =>
        RunEdge(dataout, start, ca, i);
      case EDone =>
        phase, clk, wordvalid := EIdle, false, false;
    }
  }

  class WrMemBlock {
    var phase: Phase
    var counter: nat
    const out: array<Half>
    var stmEnd: bool
    var oe: bool
    var csn: bool
    var clk: bool
    var mask: bool
    var maskOe: bool

    ghost predicate Valid()
      reads this, out
    {
      out.Length == 19
    }

    ghost function Value(): WrMem
      reads this, out
      requires Valid()
    {
      WrMem(phase, counter, out[..], stmEnd, oe, csn)
    }

    constructor ()
      ensures Valid() && fresh(out) && Value() == WrMem(EIdle, 0, [0, 0, 0] + seq(16, _ => 0), false, false, true)
      ensures !clk && !mask && !maskOe
    {
      phase, counter, stmEnd, oe, csn, clk, mask, maskOe := EIdle, 0, false, false, true, false, false, false;
      out := new Half[19](_ => 0);
      new;
      assert out[..] == [0, 0, 0] + seq(16, _ => 0);
    }

    /** The command always, the line when there is one. */
    method Load(ca: Command, valid: bool, line: Packed)
      requires Valid()
      modifies out
      ensures out[..] == ca.Halves() + if valid then line else old(out[..])[3..]
    {
      ghost var was := out[..];
      LoadCommand(out, ca);
      if valid {
        for k := 0 to 16
          invariant out[..3] == ca.Halves() && forall j :: 0 <= j < k ==> out[3 + j] == line[j]
        {
          out[3 + k] := line[k];
        }
        assert out[3..] == line;
      } else {
        assert out[3..] == was[3..];
      }
      assert out[..] == out[..3] + out[3..];
    }

    method Edge(start: bool, ca: Command, valid: bool, line: Packed, rwdsIn: bool, ghost i: In)
      requires Valid() && i.rwdsIn == rwdsIn
      modifies this, out
      ensures Valid() && Value() == NextWrMem(old(Value()), start, ca, valid, line, i)
      ensures clk == WriteClock(old(phase), old(counter), old(clk), rwdsIn)
      ensures mask == WriteMask(old(phase), old(counter), old(mask))
      ensures maskOe == WriteMaskOe(old(phase), old(counter), old(maskOe))
    {
      match phase
      case EIdle =>
        counter, stmEnd, csn := 0, false, true;
        Load(ca, valid, line);
        if start {
          phase, csn := ECa, false;
        }
      case ECa =>
        if counter == 4 {
          phase, counter, oe := ERun, 0, false;
        } else if counter > 0 && counter < 4 {
          ShiftIn(out, 0);
          oe, clk, counter := true, true, counter + 1;
        } else if rwdsIn {
          oe, clk, counter := true, false, 1;
        }
      case ERun =>
        if counter == 29 {
          phase, counter, stmEnd, csn, oe := EDone, 0, true, true, false;
          clk, maskOe := false, false;
        } else if counter > 12 {
          ShiftIn(out, 0);
          counter, oe, clk, mask, maskOe := counter + 1, true, true, false, true;
        } else {
          counter := counter + 1;
        }
      case EDone =>
        phase, clk := EIdle, false;
    }
  }

  /** The controller and its output registers. */
  class CtlBlock {
    var state: TopState
    var req: Requests
    var prev: Requests
    var ca: Command
    var rdTmp: bool
    var wrTmp: bool
    var acc: nat
    var readdata: Word
    var readdatavalid: bool
    var row: bool
    var currRow: nat
    var currPage: nat
    const buffer: array<Word>
    var inbufValid: bool
    var wrLine: Packed
    var start: Starts
    var csrAddr: nat
    var s0Addr: nat
    var pins: Pins
    var clk: bool
    var mask: bool
    var maskOe: bool

    ghost predicate Valid()
      reads this, buffer
    {
      buffer.Length == 8
    }

    ghost function Value(): Ctl
      reads this, buffer
      requires Valid()
    {
      Ctl(state, req, prev, ca, rdTmp, wrTmp, acc, readdata, readdatavalid, row, currRow, currPage, buffer[..],
          inbufValid, wrLine, start, csrAddr)
    }

    constructor ()
      ensures Valid() && fresh(buffer)
      ensures Value() == Reset(Word(0, 0), 0, NoLine()).ctl && pins == Pins(0, false, true)
      ensures s0Addr == 0 && !clk && !mask && !maskOe
    {
      state, ca, rdTmp, wrTmp, acc := IDLE, Command(0, 0, 0), false, false, 0;
      req, prev := Requests(false, false, false, false), Requests(false, false, false, false);
      readdata, readdatavalid, row, currRow, currPage := Word(0, 0), false, false, 0, 0;
      inbufValid, wrLine, start, csrAddr := false, NoLine(), Starts(false, false, false, false), 0;
      s0Addr, pins, clk, mask, maskOe := 0, Pins(0, false, true), false, false, false;
      buffer := new Word[8](_ => Word(0, 0));
      new;
      assert buffer[..] == seq(8, _ => Word(0, 0));
    }

    /** What the idle state clears in every cycle. */
    method Clear()
      modifies `ca, `rdTmp, `wrTmp, `wrLine, `readdatavalid, `acc, `inbufValid
      ensures ca == Command(0, 0, 0) && !rdTmp && !wrTmp && wrLine == NoLine()
      ensures !readdatavalid && acc == 8 && !inbufValid
    {
      ca, rdTmp, wrTmp, wrLine := Command(0, 0, 0), false, false, NoLine();
      readdatavalid, acc, inbufValid := false, 8, false;
    }

    /** A request is taken when it was not there one cycle before. */
    method Take(hit: bool, ghost i: In)
      requires Valid() && state == IDLE && hit == BufferHit(Value(), i)
      modifies `state, `row
      ensures var c := NextIdle(old(Value()), i); state == c.state && row == c.row
    {
      if req.regr && !prev.regr {
        state := RDREG;
      } else if req.regw && !prev.regw {
        state := WRREG;
      } else if req.memr && !prev.memr {
        row := true;
        if hit { state := RDMEM1; } else { state := RDMEM2; }
      } else if req.memw && !prev.memw {
        row := false;
        if hit { state := WRMEM1; } else { state := RDMEM2; }
      }
    }

    method IdleEdge(hit: bool, ghost i: In)
      requires Valid() && state == IDLE && hit == BufferHit(Value(), i)
      modifies `state, `row, `ca, `rdTmp, `wrTmp, `wrLine, `readdatavalid, `acc, `inbufValid
      ensures Valid() && Value() == NextIdle(old(Value()), i)
    {
      Take(hit, i);
      Clear();
    }

    method RdregEdge(end: bool)
      requires Valid()
      modifies `state, `start, `ca
      ensures ca == RegCommand(csrAddr) && start == old(start).(rdreg := !end)
      ensures state == if end then IDLE else old(state)
    {
      if end {
        state, start := IDLE, start.(rdreg := false);
      } else {
        start := start.(rdreg := true);
      }
      match csrAddr
      case 0x0 => ca := Command(0xc000, 0x0000, 0x0000);
      case 0x4 => ca := Command(0xc000, 0x0000, 0x0001);
      case 0x8 => ca := Command(0xc000, 0x0100, 0x0000);
      case 0xc => ca := Command(0xc000, 0x0100, 0x0001);
      case _ => ca := Command(0xc000, 0x0000, 0x0000);
    }

    /** The entry at a byte offset, zero for an offset that is none. */
    method Select(bufAddr: nat) returns (word: Word)
      requires Valid()
      ensures word == if Entry(bufAddr) < 0 then Word(0, 0) else buffer[Entry(bufAddr)]
    {
      match bufAddr
      case 0x00 => word := buffer[0];
      case 0x04 => word := buffer[1];
      case 0x08 => word := buffer[2];
      case 0x0c => word := buffer[3];
      case 0x10 => word := buffer[4];
      case 0x14 => word := buffer[5];
      case 0x18 => word := buffer[6];
      case 0x1c => word := buffer[7];
      case _ => word := Word(0, 0);
    }

    method Rdmem1Edge(bufAddr: nat)
      requires Valid()
      modifies `state, `readdata, `readdatavalid
      ensures readdata == if Entry(bufAddr) < 0 then Word(0, 0) else buffer[Entry(bufAddr)]
      ensures readdatavalid && state == IDLE
    {
      readdata := Select(bufAddr);
      readdatavalid, state := true, IDLE;
    }

    /** A write at a byte offset; at an offset that is none it clears entry 0. */
    method Store(bufAddr: nat, data: Word)
      requires Valid()
      modifies buffer
      ensures Entry(bufAddr) >= 0 ==> buffer[..] == old(buffer[..])[Entry(bufAddr) := data]
      ensures Entry(bufAddr) < 0 ==> buffer[..] == old(buffer[..])[0 := Word(0, 0)]
    {
      match bufAddr
      case 0x00 => buffer[0] := data;
      case 0x04 => buffer[1] := data;
      case 0x08 => buffer[2] := data;
      case 0x0c => buffer[3] := data;
      case 0x10 => buffer[4] := data;
      case 0x14 => buffer[5] := data;
      case 0x18 => buffer[6] := data;
      case 0x1c => buffer[7] := data;
      case _ => buffer[0] := Word(0, 0);
    }

    /** The eight words side by side. */
    method Concatenated() returns (packed: Packed)
      requires Valid()
      ensures packed == Pack(buffer[..])
    {
      packed := [buffer[0].hi, buffer[0].lo, buffer[1].hi, buffer[1].lo, buffer[2].hi, buffer[2].lo,
                 buffer[3].hi, buffer[3].lo, buffer[4].hi, buffer[4].lo, buffer[5].hi, buffer[5].lo,
                 buffer[6].hi, buffer[6].lo, buffer[7].hi, buffer[7].lo];
    }

    /** The line is taken as it was before the edge. */
    method Wrmem1Edge(bufAddr: nat, data: Word, hit: bool, ghost i: In)
      requires Valid() && hit == BufferHit(Value(), i) && i.bufAddr == bufAddr && i.s0Writedata == data
      modifies `state, `inbufValid, `wrLine, buffer
      ensures Valid() && Value() == NextWrmem1(old(Value()), i)
    {
      var packed := Concatenated();
      Store(bufAddr, data);
      if hit {
        state := IDLE;
      } else {
        state, inbufValid, wrLine := WRMEM2, true, packed;
      }
    }

    /** Where a read burst leads; the line buffer apart. */
    method MovesEdge(end: bool, caIn: Command, rowId: nat, pageId: nat)
      requires Valid()
      modifies `state, `currRow, `currPage, `inbufValid, `start, `rdTmp, `ca
      ensures start == old(start).(rdmem := !end && old(rdTmp))
      ensures end ==> rdTmp == old(rdTmp) && ca == old(ca) && state == if row then RDMEM1 else WRMEM1
      ensures end && row ==> currRow == rowId && currPage == pageId && inbufValid == old(inbufValid)
      ensures end && !row ==> currRow == old(currRow) && currPage == old(currPage) && !inbufValid
      ensures !end ==> rdTmp && ca == caIn && state == old(state) && inbufValid == old(inbufValid)
      ensures !end ==> currRow == old(currRow) && currPage == old(currPage)
    {
      if end {
        if row {
          state, currRow, currPage := RDMEM1, rowId, pageId;
        } else {
          state, inbufValid := WRMEM1, false;
        }
        start := start.(rdmem := false);
      } else {
        start := start.(rdmem := rdTmp);
        rdTmp, ca := true, caIn;
      }
    }

    method Rdmem2Edge(end: bool, wordvalid: bool, word: Word, i: In, ghost rm: RdMem)
      requires Valid() && rm.stmEnd == end && rm.wordvalid == wordvalid && rm.word == word
      modifies `state, `currRow, `currPage, `inbufValid, `start, `rdTmp, `ca, buffer
      ensures Valid() && Value() == NextRdmem2(old(Value()), rm, i)
    {
      MovesEdge(end, i.ca, i.rowId, i.pageId);
      if wordvalid { ShiftIn(buffer, word); }
    }

    method Wrmem2Edge(end: bool, caIn: Command, rowId: nat, pageId: nat)
      requires Valid()
      modifies `state, `currRow, `currPage, `inbufValid, `start, `wrTmp, `ca
      ensures !inbufValid && start == old(start).(wrmem := !end && old(wrTmp))
      ensures end ==> state == ACCDLY && currRow == rowId && currPage == pageId
      ensures end ==> wrTmp == old(wrTmp) && ca == old(ca)
      ensures !end ==> state == old(state) && currRow == old(currRow) && currPage == old(currPage)
      ensures !end ==> wrTmp && ca == caIn
    {
      inbufValid := false;
      if end {
        state, currRow, currPage := ACCDLY, rowId, pageId;
        start := start.(wrmem := false);
      } else {
        start := start.(wrmem := wrTmp);
        wrTmp, ca := true, caIn;
      }
    }

    /** The states between bursts. */
    method PauseEdge(i: In, ghost rr: RdReg, ghost rm: RdMem, ghost wm: WrMem)
      requires Valid() && (state.IDLE? || state.RDMEM1? || state.WRMEM1? || state.ACCDLY?)
      modifies `state, `row, `ca, `rdTmp, `wrTmp, `wrLine, `readdata, `readdatavalid, `acc, `inbufValid, buffer
      ensures Valid() && Value() == NextState(old(Value()), rr, rm, wm, i)
    {
      var hit := currRow == i.rowId && currPage == i.pageId;
      if state == IDLE {
        IdleEdge(hit, i);
      } else if state == RDMEM1 {
        Rdmem1Edge(i.bufAddr);
      } else if state == WRMEM1 {
        Wrmem1Edge(i.bufAddr, i.s0Writedata, hit, i);
      } else if acc == 0 {
        state := IDLE;
      } else {
        acc := acc - 1;
      }
    }

    /** A register burst. */
    method RegEdge(i: In, rr: RdReg, ghost rm: RdMem, ghost wm: WrMem)
      requires Valid() && (state.RDREG? || state.WRREG?)
      modifies `state, `start, `ca
      ensures Valid() && Value() == NextState(old(Value()), rr, rm, wm, i)
    {
      if state == RDREG {
        RdregEdge(rr.stmEnd);
      } else if i.wrregEnd {
        state, start := IDLE, start.(wrreg := false);
      } else {
        start := start.(wrreg := true);
      }
    }

    /** A memory burst. */
    method MemEdge(i: In, ghost rr: RdReg, rm: RdMem, wm: WrMem)
      requires Valid() && (state.RDMEM2? || state.WRMEM2?)
      modifies `state, `start, `ca, `rdTmp, `wrTmp, `currRow, `currPage, `inbufValid, buffer
      ensures Valid() && Value() == NextState(old(Value()), rr, rm, wm, i)
    {
      if state == RDMEM2 {
        Rdmem2Edge(rm.stmEnd, rm.wordvalid, rm.word, i, rm);
      } else {
        Wrmem2Edge(wm.stmEnd, i.ca, i.rowId, i.pageId);
      }
    }

    method StateEdge(i: In, rr: RdReg, rm: RdMem, wm: WrMem)
      requires Valid()
      modifies `state, `start, `row, `ca, `rdTmp, `wrTmp, `wrLine, `readdata, `readdatavalid, `acc, `currRow
      modifies `currPage, `inbufValid, buffer
      ensures Valid() && Value() == NextState(old(Value()), rr, rm, wm, i)
    {
      if state == IDLE || state == RDMEM1 || state == WRMEM1 || state == ACCDLY {
        PauseEdge(i, rr, rm, wm);
      } else if state == RDREG || state == WRREG {
        RegEdge(i, rr, rm, wm);
      } else {
        MemEdge(i, rr, rm, wm);
      }
    }

    /** The registers that follow the bus. */
    method BusEdge(i: In, was: Requests)
      requires Valid()
      modifies `req, `prev, `csrAddr, `s0Addr
      ensures Value() == old(Value()).(
                           req := Requests(i.csrRead, i.csrWrite, i.s0Read, i.s0Write), prev := was,
                           csrAddr := if i.csrRead || i.csrWrite then i.csrAddress else old(csrAddr))
      ensures s0Addr == if i.s0Read || i.s0Write then i.s0Address else old(s0Addr)
    {
      req, prev := Requests(i.csrRead, i.csrWrite, i.s0Read, i.s0Write), was;
      if i.s0Read || i.s0Write { s0Addr := i.s0Address; }
      if i.csrRead || i.csrWrite { csrAddr := i.csrAddress; }
    }

    /** The data pins, their enable and chip select: those of the engine that is started, or idle. */
    method PinsEdge(rr: RdReg, rm: RdMem, wm: WrMem, ghost h: Hw)
      requires Valid() && h == Hw(Value(), rr, rm, wm, pins)
      modifies `pins
      ensures pins == NextPins(h)
    {
      var datain := if start.rdreg then rr.out[0] else if start.wrreg then 0 else if start.rdmem then rm.out[0]
                    else if start.wrmem then wm.out[0] else 0;
      var oe := if start.rdreg then rr.oe else if start.wrreg then false else if start.rdmem then rm.oe
                else if start.wrmem then wm.oe else false;
      var csn := if start.rdreg then rr.csn else if start.wrreg then true else if start.rdmem then rm.csn
                 else if start.wrmem then wm.csn else true;
      pins := Pins(datain, oe, csn);
    }

    /** The clock enable, and RWDS with its enable. */
    method EnablesEdge(rrClk: bool, rmClk: bool, wmClk: bool, wmMask: bool, wmMaskOe: bool)
      modifies `clk, `mask, `maskOe
      ensures clk == PadClock(start, rrClk, rmClk, wmClk)
      ensures mask == (start.wrmem && wmMask) && maskOe == (start.wrmem && wmMaskOe)
    {
      mask := if start.wrmem then wmMask else false;
      maskOe := if start.wrmem then wmMaskOe else false;
      clk := if start.rdreg then rrClk else if start.wrreg then false else if start.rdmem then rmClk
             else if start.wrmem then wmClk else false;
    }

    /** One edge of the controller's registers; the outputs apart. */
    method Edge(i: In, rr: RdReg, rm: RdMem, wm: WrMem, ghost h: Hw)
      requires Valid() && h.ctl == Value() && h.rr == rr && h.rm == rm && h.wm == wm
      modifies `state, `start, `row, `ca, `rdTmp, `wrTmp, `wrLine, `readdata, `readdatavalid, `acc, `currRow
      modifies `currPage, `inbufValid, buffer, `req, `prev, `csrAddr, `s0Addr
      ensures Valid() && Value() == NextCtl(h, i)
      ensures s0Addr == if i.s0Read || i.s0Write then i.s0Address else old(s0Addr)
    {
      var was := req;
      StateEdge(i, rr, rm, wm);
      BusEdge(i, was);
    }
  }
}
