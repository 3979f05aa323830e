/** The semi-join accelerator: it first loads the qualifying-key bitmap line by line into a
    register file, then probes it with 32 foreign keys per cache line. */
module JoinAfu {
  import opened Wrappers
  import opened Bits
  import opened Filters
  import opened ScanAfu

  // ---------------------------------------------------------------------------------------
  // The lookup unit (lineorder_date)

  const MAP_BITS := 2560
  const KEY_BITS := 16
  const KEYS_PER_LINE := 32

  type BitMap = b: Bits | |b| == MAP_BITS witness seq(2560, _ => false)

  datatype Lookup = Lookup(bitMap: BitMap, result: Line)

  /** `bit_map[cls * 512 +: 512] <= line`: bits outside the register file are not written. */
  function StoreLine(b: BitMap, cls: nat, line: Line): BitMap {
    var lo := LINE_BITS * cls;
    seq(MAP_BITS, k requires 0 <= k < MAP_BITS => if lo <= k < lo + LINE_BITS then line[k - lo] else b[k])
  }

  function Key(line: Line, i: nat): nat
    requires i < KEYS_PER_LINE
  {
    Val(Field(line, i, KEY_BITS))
  }

  /** `bit_result[i] <= bit_map[key]`; a select outside the register file has no defined value,
      so it reads whatever `floating` says. */
  function ProbeLine(b: BitMap, line: Line, was: Line, floating: bool): (r: Line)
  {
    seq(KEYS_PER_LINE, i requires 0 <= i < KEYS_PER_LINE =>
      if Key(line, i) < MAP_BITS then b[Key(line, i)] else floating) + was[KEYS_PER_LINE..]
  }

  /** Bit `i` answers for key `i` where the key is a bitmap position; bits 32 and up are zero. */
  ghost predicate Answers(b: BitMap, line: Line, r: Line) {
    && r[KEYS_PER_LINE..] == Zeros(LINE_BITS - KEYS_PER_LINE)
    && forall i :: 0 <= i < KEYS_PER_LINE && Key(line, i) < MAP_BITS ==> r[i] == b[Key(line, i)]
  }

  lemma ProbeAnswers(b: BitMap, line: Line, was: Line, floating: bool)
    requires was[KEYS_PER_LINE..] == Zeros(LINE_BITS - KEYS_PER_LINE)
    ensures Answers(b, line, ProbeLine(b, line, was, floating))
  {
    var r := ProbeLine(b, line, was, floating);
    assert r[KEYS_PER_LINE..] == was[KEYS_PER_LINE..];
  }

  function NextLookup(l: Lookup, reset: bool, load: bool, probe: bool, cls: nat, line: Line, floating: bool): Lookup {
    Lookup(if load then StoreLine(l.bitMap, cls, line) else l.bitMap,
           if reset then Zeros(LINE_BITS)
           else if probe then ProbeLine(l.bitMap, line, l.result, floating) else l.result)
  }

  // ---------------------------------------------------------------------------------------
  // The registers of join_afu, grouped by clocked block

  datatype Csrs = Csrs(
    readingBitmap: bool, bitmapReady: bool, newPartition: bool, clAddress: nat, resultAddress: nat, clsToProcess: nat)

  /** `state`, `partition_processed`, `cl_req_allowed`, `cl_processed`, `cls_processed`. */
  datatype Control = Control(state: Fsm, done: bool, reqAllowed: bool, clProcessed: bool, clsDone: nat)

  datatype JoinRegs = JoinRegs(csr: Csrs, ctl: Control, rd: ReadPort, rx: Receiver, look: Lookup, wr: WritePort)

  function NextCsrs(c: Csrs, i: Inputs): Csrs {
    if !i.active then c
    else if i.wr.NoPulse? then c.(newPartition := false)
    else match i.wr.idx
      case 0 => c.(newPartition := false, clsToProcess := i.wr.data % 128)
      case 4 => c.(newPartition := true, clAddress := ClAddr(i.wr.data))
      case 5 => c.(newPartition := false, resultAddress := ClAddr(i.wr.data))
      case 6 => c.(newPartition := false, readingBitmap := i.wr.data % 2 == 1, bitmapReady := i.wr.data == 0)
      case _ => c.(newPartition := false)
  }

  function NextControl(r: JoinRegs, reset: bool): Control {
    if reset then r.ctl.(state := WAITING) else
    match r.ctl.state
    case WAITING =>
      if r.csr.newPartition then r.ctl.(state := IDLE, done := false, reqAllowed := true, clsDone := 0) else r.ctl
    case IDLE =>
      if r.ctl.done then r.ctl.(state := WAITING)
      else if r.ctl.reqAllowed then r.ctl.(state := REQ, reqAllowed := false) else r.ctl
    case REQ => if r.rd.issued then r.ctl.(state := RSP) else r.ctl
    case RSP => if r.rx.received then r.ctl.(state := PROCESSING) else r.ctl
    case PROCESSING =>
      if !r.ctl.clProcessed then r.ctl.(clProcessed := true)
      else var n := r.ctl.clsDone + 1; Control(IDLE, n == r.csr.clsToProcess, n < r.csr.clsToProcess, false, n)
  }

  function NextRequest(r: JoinRegs, reset: bool, full: bool): ReadPort {
    if reset then r.rd.(valid := false)
    else if r.ctl.state == REQ then
      ReadPort(!full && !r.rd.issued, !full && !r.rd.issued, LineAddr(r.csr.clAddress, r.ctl.clsDone))
    else if r.ctl.state == RSP then r.rd.(issued := false)
    else r.rd
  }

  function NextResponse(r: JoinRegs, rsp: Option<Line>): Receiver {
    if r.ctl.state == RSP then
      (match rsp case Some(line) => Receiver(true, line) case None => r.rx.(received := false))
    else if r.ctl.state == PROCESSING then r.rx.(received := false)
    else r.rx
  }

  /** First of the two ticks in PROCESSING: the lookup unit loads or probes. */
  predicate Working(r: JoinRegs) { r.ctl.state == PROCESSING && !r.ctl.clProcessed }

  /** Second tick: the line completes, and in the probing phase its result goes to the port. */
  predicate LineCompletes(r: JoinRegs) { r.ctl.state == PROCESSING && r.ctl.clProcessed }
  predicate Emitting(r: JoinRegs) { LineCompletes(r) && r.csr.bitmapReady }

  function NextEmit(r: JoinRegs, reset: bool, full: bool): WritePort {
    if reset || !Emitting(r) then r.wr.(valid := false)
    else WritePort(!full, LineAddr(r.csr.resultAddress, r.ctl.clsDone), r.look.result)
  }

  function JoinStep(r: JoinRegs, i: Inputs, floating: bool): JoinRegs {
    JoinRegs(NextCsrs(r.csr, i), NextControl(r, i.reset), NextRequest(r, i.reset, i.c0Full), NextResponse(r, i.rsp),
             NextLookup(r.look, i.reset, Working(r) && r.csr.readingBitmap, Working(r) && r.csr.bitmapReady,
                        r.ctl.clsDone, r.rx.data, floating),
             NextEmit(r, i.reset, i.c1Full))
  }

  /** After reset with the unit selected: the done flag and the bitmap may hold anything. */
  ghost predicate JoinPostReset(r: JoinRegs) {
    && r.ctl.state == WAITING && !r.csr.newPartition && !r.ctl.clProcessed
    && !r.rd.issued && !r.rd.valid && !r.rx.received && r.look.result == Zeros(LINE_BITS)
  }

  /** A reset tick leads to it from any registers, except that `cl_req_issued`, `cl_received` and
      `cl_processed` are not cleared, and CSR writes not kept out. */
  lemma ResetLeadsToStart(r: JoinRegs, i: Inputs, floating: bool)
    requires i.reset && i.active
    ensures var r' := JoinStep(r, i, floating);
      && r'.ctl == r.ctl.(state := WAITING) && !r'.rd.valid && !r'.wr.valid && r'.look.result == Zeros(LINE_BITS)
      && (JoinPostReset(r') <==>
            && !r.rd.issued && !r.ctl.clProcessed && !(i.wr.Pulse? && i.wr.idx == 4)
            && !(if r.ctl.state == RSP then i.rsp.Some? else r.ctl.state != PROCESSING && r.rx.received))
  {
    hide ProbeLine, StoreLine, ClAddr, LineAddr;
  }

  /** The module itself; `Tick` is the clock edge. */
  class JoinUnit {
    var csr: Csrs
    var ctl: Control
    var rd: ReadPort
    var rx: Receiver
    var look: Lookup
    var wr: WritePort

    function Snapshot(): JoinRegs
      reads this
    {
      JoinRegs(csr, ctl, rd, rx, look, wr)
    }

    constructor (stale: bool, bits: BitMap)
      ensures JoinPostReset(Snapshot()) && ctl.done == stale && look.bitMap == bits
    {
      csr, ctl := Csrs(false, false, false, 0, 0, 0), Control(WAITING, stale, true, false, 0);
      rd, rx := ReadPort(false, false, 0), Receiver(false, Zeros(LINE_BITS));
      look, wr := Lookup(bits, Zeros(LINE_BITS)), WritePort(false, 0, Zeros(LINE_BITS));
    }

    method Sequence(reset: bool) returns (c: Control)
      ensures c == NextControl(Snapshot(), reset)
    {
      c := ctl;
      if reset {
        c := c.(state := WAITING);
      } else {
        match ctl.state {
          case WAITING =>
            if csr.newPartition {
              c := c.(state := IDLE);
              c := c.(done := false, reqAllowed := true, clsDone := 0);
            }
          case IDLE =>
            if ctl.done {
              c := c.(state := WAITING);
            } else if ctl.reqAllowed {
              c := c.(state := REQ, reqAllowed := false);
            }
          case REQ => if rd.issued { c := c.(state := RSP); }
          case RSP => if rx.received { c := c.(state := PROCESSING); }
          case PROCESSING =>
            if ctl.clProcessed {
              c := c.(state := IDLE, clProcessed := false, clsDone := ctl.clsDone + 1);
              c := c.(reqAllowed := ctl.clsDone + 1 < csr.clsToProcess, done := ctl.clsDone + 1 == csr.clsToProcess);
            } else {
              c := c.(clProcessed := true);
            }
        }
      }
    }

    method Emit(reset: bool, full: bool) returns (p: WritePort)
      ensures p == NextEmit(Snapshot(), reset, full)
    {
      p := wr;
      if reset {
        p := p.(valid := false);
      } else if csr.bitmapReady && ctl.clProcessed && ctl.state == PROCESSING {
        p := WritePort(!full, LineAddr(csr.resultAddress, ctl.clsDone), look.result);
      } else {
        p := p.(valid := false);
      }
    }

    method Tick(i: Inputs, floating: bool)
      modifies this
      ensures Snapshot() == JoinStep(old(Snapshot()), i, floating)
    {
      var csr' := NextCsrs(csr, i);
      var ctl' := Sequence(i.reset);
      var rd' := NextRequest(Snapshot(), i.reset, i.c0Full);
      var rx' := NextResponse(Snapshot(), i.rsp);
      var look' := NextLookup(look, i.reset, Working(Snapshot()) && csr.readingBitmap,
                              Working(Snapshot()) && csr.bitmapReady, ctl.clsDone, rx.data, floating);
      var wr' := Emit(i.reset, i.c1Full);
      csr, ctl, rd, rx, look, wr := csr', ctl', rd', rx', look', wr';
    }
  }
}
