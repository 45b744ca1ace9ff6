/**
 The HyperRAM controller, one step per clock: the top state machine composed with the three burst
 engines through registered handshakes. Every clocked block assigns all its registers from the values
 before the edge, so a block is a function from the old registers and the inputs to the new registers.

 A 32-bit word is kept as its two halfwords, the 48-bit command and the 256-bit line as halfwords too:
 the design only ever cuts them at 16-bit boundaries and only moves halfwords, never computes with them, so
 a halfword is just a number. The outputs of the address decoder are inputs here.
 */
module HyperRam {
  type Half = nat

  datatype Word = Word(hi: Half, lo: Half)

  /** Command-address bits 47..32, 31..16 and 15..0. */
  datatype Command = Command(top: Half, mid: Half, low: Half)
  {
    function Halves(): seq<Half> { [top, mid, low] }
  }

  type Line = l: seq<Word> | |l| == 8 witness seq(8, _ => Word(0, 0))
  type Packed = p: seq<Half> | |p| == 16 witness seq(16, _ => 0)
  function NoLine(): Packed { seq(16, _ => 0) }

  type OutBuffer = b: seq<Half> | |b| == 19 witness seq(19, _ => 0)
  type CaBuffer = b: seq<Half> | |b| == 3 witness seq(3, _ => 0)

  datatype TopState = IDLE | RDREG | WRREG | RDMEM1 | WRMEM1 | RDMEM2 | WRMEM2 | ACCDLY
  datatype Phase = EIdle | ECa | ERun | EDone

  /** What the environment presents in one clock cycle. */
  datatype In = In(csrRead: bool, csrWrite: bool, csrAddress: nat, s0Read: bool, s0Write: bool, s0Writedata: Word,
                   rwdsIn: bool, dataout: Half, wrregEnd: bool,
                   ca: Command, rowId: nat, pageId: nat, bufAddr: nat, s0Address: nat)

  /** The register-read engine. */
  datatype RdReg = RdReg(phase: Phase, counter: nat, out: CaBuffer, stmEnd: bool, oe: bool, csn: bool,
                         valid: bool, data: Half)

  /** The memory-read engine. */
  datatype RdMem = RdMem(phase: Phase, counter: nat, out: CaBuffer, inner: bool, word: Word, wordvalid: bool,
                         stmEnd: bool, oe: bool, csn: bool)

  /** The memory-write engine. */
  datatype WrMem = WrMem(phase: Phase, counter: nat, out: OutBuffer, stmEnd: bool, oe: bool, csn: bool)

  datatype Starts = Starts(rdreg: bool, wrreg: bool, rdmem: bool, wrmem: bool)

  datatype Requests = Requests(regr: bool, regw: bool, memr: bool, memw: bool)

  /** The registers of the controller itself. */
  datatype Ctl = Ctl(state: TopState, req: Requests, prev: Requests, ca: Command, rdTmp: bool, wrTmp: bool,
                     acc: nat, readdata: Word, readdatavalid: bool, row: bool, currRow: nat, currPage: nat,
                     line: Line, inbufValid: bool, wrLine: Packed, start: Starts, csrAddr: nat)

  /** The registered outputs towards the pads. */
  datatype Pins = Pins(datain: Half, oe: bool, csn: bool)

  datatype Hw = Hw(ctl: Ctl, rr: RdReg, rm: RdMem, wm: WrMem, pins: Pins)

  // ----------------------------------------------------------------------------------------------
  // The burst engines
  // ----------------------------------------------------------------------------------------------

  function NextRdReg(e: RdReg, start: bool, ca: Command, i: In): RdReg
  {
    match e.phase
    case EIdle =>
      e.(counter := 0, stmEnd := false, out := ca.Halves(), csn := !start, valid := false,
         phase := if start then ECa else EIdle)
    case ECa =>
      if e.counter == 4 then e.(phase := ERun, counter := 0, oe := false)
      else if e.counter > 0 && e.counter < 4 then e.(counter := e.counter + 1, out := e.out[1..] + [0])
      else if i.rwdsIn then e.(oe := true, counter := 1)
      else e
    case ERun =>
      if e.counter == 14
      then e.(phase := EDone, stmEnd := true, csn := true, data := i.dataout, valid := true, counter := 15)
      else e.(counter := e.counter + 1)
    case EDone => e.(phase := EIdle, valid := false)
  }

  function NextRdMem(e: RdMem, start: bool, ca: Command, i: In): RdMem
  {
    match e.phase
    case EIdle =>
      e.(counter := 0, stmEnd := false, out := ca.Halves(), csn := !start, wordvalid := false,
         phase := if start then ECa else EIdle)
    case ECa =>
      if e.counter == 4 then e.(phase := ERun, counter := 0, oe := false)
      else if e.counter > 0 && e.counter < 4 then e.(counter := e.counter + 1, out := e.out[1..] + [0])
      else if i.rwdsIn then e.(oe := true, counter := 1)
      else e
    case ERun =>
      if e.counter == 32 then e.(phase := EDone, stmEnd := true, counter := 0, csn := true, wordvalid := false)
      else if e.counter > 15 then
        if e.inner
        then e.(word := Word(e.word.lo, i.dataout), inner := false, wordvalid := true, counter := e.counter + 1)
        else e.(word := Word(e.word.hi, i.dataout), inner := true, wordvalid := false, counter := e.counter + 1)
      else e.(counter := e.counter + 1)
    case EDone => e.(phase := EIdle, wordvalid := false)
  }

  function NextWrMem(e: WrMem, start: bool, ca: Command, valid: bool, line: Packed, i: In): WrMem
  {
    match e.phase
    case EIdle =>
      e.(counter := 0, stmEnd := false, out := ca.Halves() + (if valid then line else e.out[3..]), csn := !start,
         phase := if start then ECa else EIdle)
    case ECa =>
      if e.counter == 4 then e.(phase := ERun, counter := 0, oe := false)
      else if e.counter > 0 && e.counter < 4 then
        e.(out := e.out[1..] + [0], oe := true, counter := e.counter + 1)
      else if i.rwdsIn then e.(oe := true, counter := 1)
      else e
    case ERun =>
      if e.counter == 29 then e.(phase := EDone, counter := 0, stmEnd := true, csn := true, oe := false)
      else if e.counter > 12 then e.(out := e.out[1..] + [0], counter := e.counter + 1, oe := true)
      else e.(counter := e.counter + 1)
    case EDone => e.(phase := EIdle)
  }

  // ----------------------------------------------------------------------------------------------
  // The controller
  // ----------------------------------------------------------------------------------------------

  /** {buffer[0], ..., buffer[7]} cut into halfwords, most significant first. */
  function Pack(line: Line): Packed
  {
    seq(16, k requires 0 <= k < 16 => if k % 2 == 0 then line[k / 2].hi else line[k / 2].lo)
  }

  /** The command of a register read. */
  function RegCommand(address: nat): Command
  {
    match address
    case 0x4 => Command(0xc000, 0, 1)
    case 0x8 => Command(0xc000, 0x0100, 0)
    case 0xc => Command(0xc000, 0x0100, 1)
    case _ => Command(0xc000, 0, 0)
  }

  predicate BufferHit(c: Ctl, i: In)
  {
    c.currRow == i.rowId && c.currPage == i.pageId
  }

  /** The buffer entry a byte offset selects; -1 for an offset that is not a word of the line. */
  function Entry(bufAddr: nat): (k: int)
    ensures -1 <= k < 8
  {
    if bufAddr % 4 == 0 && bufAddr < 32 then bufAddr / 4 else -1
  }

  function Cleared(c: Ctl): Ctl
  {
    c.(ca := Command(0, 0, 0), rdTmp := false, wrTmp := false, wrLine := NoLine(),
       readdatavalid := false, acc := 8, inbufValid := false)
  }

  function NextIdle(c: Ctl, i: In): Ctl
  {
    var d := Cleared(c);
    if c.req.regr && !c.prev.regr then d.(state := RDREG)
    else if c.req.regw && !c.prev.regw then d.(state := WRREG)
    else if c.req.memr && !c.prev.memr then d.(row := true, state := if BufferHit(c, i) then RDMEM1 else RDMEM2)
    else if c.req.memw && !c.prev.memw then d.(row := false, state := if BufferHit(c, i) then WRMEM1 else RDMEM2)
    else d
  }

  /** A word that is ready enters the line buffer. */
  function Shifted(c: Ctl, rm: RdMem): Ctl
  {
    if rm.wordvalid then c.(line := c.line[1..] + [rm.word]) else c
  }

  function Rdmem2Moves(c: Ctl, end: bool, i: In): Ctl
  {
    if end then
      if c.row
      then c.(state := RDMEM1, currRow := i.rowId, currPage := i.pageId, start := c.start.(rdmem := false))
      else c.(state := WRMEM1, inbufValid := false, start := c.start.(rdmem := false))
    else c.(start := c.start.(rdmem := c.rdTmp), rdTmp := true, ca := i.ca)
  }

  function NextRdmem2(c: Ctl, rm: RdMem, i: In): Ctl
  {
    Rdmem2Moves(Shifted(c, rm), rm.stmEnd, i)
  }

  function NextWrmem1(c: Ctl, i: In): Ctl
  {
    var k := Entry(i.bufAddr);
    var d := c.(line := if k < 0 then c.line[0 := Word(0, 0)] else c.line[k := i.s0Writedata]);
    if BufferHit(c, i) then d.(state := IDLE)
    else d.(state := WRMEM2, inbufValid := true, wrLine := Pack(c.line))
  }

  function NextState(c: Ctl, rr: RdReg, rm: RdMem, wm: WrMem, i: In): Ctl
  {
    match c.state
    case IDLE => NextIdle(c, i)
    case RDREG =>
      if rr.stmEnd then c.(state := IDLE, start := c.start.(rdreg := false), ca := RegCommand(c.csrAddr))
      else c.(start := c.start.(rdreg := true), ca := RegCommand(c.csrAddr))
    case WRREG =>
      if i.wrregEnd then c.(state := IDLE, start := c.start.(wrreg := false))
      else c.(start := c.start.(wrreg := true))
    case RDMEM1 =>
      var k := Entry(i.bufAddr);
      c.(readdata := if k < 0 then Word(0, 0) else c.line[k], readdatavalid := true, state := IDLE)
    case WRMEM1 => NextWrmem1(c, i)
    case RDMEM2 => NextRdmem2(c, rm, i)
    case WRMEM2 =>
      if wm.stmEnd
      then c.(inbufValid := false, state := ACCDLY, currRow := i.rowId, currPage := i.pageId,
              start := c.start.(wrmem := false))
      else c.(inbufValid := false, start := c.start.(wrmem := c.wrTmp), wrTmp := true, ca := i.ca)
    case ACCDLY => if c.acc == 0 then c.(state := IDLE) else c.(acc := c.acc - 1)
  }

  function NextCtl(h: Hw, i: In): Ctl
  {
    var c := NextState(h.ctl, h.rr, h.rm, h.wm, i);
    c.(req := Requests(i.csrRead, i.csrWrite, i.s0Read, i.s0Write), prev := h.ctl.req,
       csrAddr := if i.csrRead || i.csrWrite then i.csrAddress else h.ctl.csrAddr)
  }

  function NextPins(h: Hw): Pins
  {
    var s := h.ctl.start;
    if s.rdreg then Pins(h.rr.out[0], h.rr.oe, h.rr.csn)
    else if s.wrreg then Pins(0, false, true)
    else if s.rdmem then Pins(h.rm.out[0], h.rm.oe, h.rm.csn)
    else if s.wrmem then Pins(h.wm.out[0], h.wm.oe, h.wm.csn)
    else Pins(0, false, true)
  }

  /** One clock edge. */
  function Clock(h: Hw, i: In): Hw
  {
    Hw(NextCtl(h, i),
       NextRdReg(h.rr, h.ctl.start.rdreg, h.ctl.ca, i),
       NextRdMem(h.rm, h.ctl.start.rdmem, h.ctl.ca, i),
       NextWrMem(h.wm, h.ctl.start.wrmem, h.ctl.ca, h.ctl.inbufValid, h.ctl.wrLine, i),
       NextPins(h))
  }

  /** After reset; `word`, `half` and `tail` stand for the registers reset does not set. */
  function Reset(word: Word, half: Half, tail: Packed): Hw
  {
    var none := Requests(false, false, false, false);
    Hw(Ctl(IDLE, none, none, Command(0, 0, 0), false, false, 0, Word(0, 0), false, false, 0, 0,
           seq(8, _ => Word(0, 0)), false, NoLine(), Starts(false, false, false, false), 0),
       RdReg(EIdle, 0, [0, 0, 0], false, false, true, false, half),
       RdMem(EIdle, 0, [0, 0, 0], false, word, false, false, false, true),
       WrMem(EIdle, 0, [0, 0, 0] + tail, false, false, true),
       Pins(0, false, true))
  }
}
