/** The scan accelerator, one clock tick at a time. Two designs share the request/response
    state machine: `Ssb` (three whole-line filters, selected by `scan_column`) and `Cascade`
    (eight 16-way stages enabled one after the other). All registers change simultaneously on
    a tick; the memory behind the accelerator answers after one cycle or more. */
module ScanAfu {
  import opened Wrappers
  import opened Bits
  import opened Filters

  datatype Design = Ssb | Cascade
  datatype Fsm = WAITING | IDLE | REQ | RSP | PROCESSING

  /** Cache-line addresses are 42 bits wide and wrap. */
  const CL_ADDRESSES := 0x400_0000_0000

  function LineAddr(base: nat, j: nat): nat { (base + j) % CL_ADDRESSES }

  /** `byteAddrToClAddr`. */
  function ClAddr(byteAddr: nat): nat { (byteAddr / 64) % CL_ADDRESSES }

  /** The place of byte `o` of a buffer in the 2^48 bytes of address space. */
  function ByteOf(buff: nat, o: nat): (b: nat)
    ensures b < 0x1_0000_0000_0000
  {
    (buff + o) % 0x1_0000_0000_0000
  }

  /** Line `a` being bytes `64 * a` to `64 * a + 63`, what the accelerator makes of a byte address is
      right: in a line-aligned buffer, byte `o` is byte `o % 64` of line `o / 64`. */
  lemma LineOfByte(buff: nat, o: nat)
    requires buff % 64 == 0
    ensures ByteOf(buff, o) == 64 * LineAddr(ClAddr(buff), o / 64) + o % 64
  {
    var q, n := buff / 64 + o / 64, CL_ADDRESSES;
    ModUnique(buff + o, 64 * n, q / n, 64 * (q % n) + o % 64);
    var b := buff / 64;
    ModUnique(b % n + o / 64, n, q / n - b / n, q % n);
  }

  /** `total_cls_processed` is an `int` in one design and six bits wide in the other. */
  function CounterRange(d: Design): nat { if d.Ssb? then 0x8000_0000 else 64 }

  /** CSR-mapped parameter registers (lines 35-103). */
  datatype Params = Params(
    newPartition: bool, readBuff: nat, writeBuff: nat, totalCls: nat, filterPred: nat, scanColumn: nat)

  /** `cl_req_allowed`, `total_cls_processed`, `partition_processed` (lines 200-231). */
  datatype Progress = Progress(reqAllowed: bool, clsDone: nat, partitionDone: bool)

  /** `cl_req_issued` and the read request port (lines 237-264). */
  datatype ReadPort = ReadPort(issued: bool, valid: bool, addr: nat)

  /** `cl_received`, `rsp_data` (lines 272-297). */
  datatype Receiver = Receiver(received: bool, data: Line)

  /** The write request port (lines 357-387). */
  datatype WritePort = WritePort(valid: bool, addr: nat, data: Line)

  /** All registers, grouped by the clocked block that owns them. */
  datatype Regs = Regs(
    csr: Params, state: Fsm, prog: Progress, rd: ReadPort, rx: Receiver, units: seq<Unit>, wr: WritePort)

  /** A CSR write pulse: `en` of exactly one CSR, with its data. */
  datatype Pulse = NoPulse | Pulse(idx: nat, data: nat)

  datatype Inputs = Inputs(reset: bool, active: bool, wr: Pulse, c0Full: bool, c1Full: bool, rsp: Option<Line>)

  // ---------------------------------------------------------------------------------------
  // The comparison units

  function UnitCount(d: Design): nat { if d.Ssb? then 3 else 8 }
  function UnitBits(d: Design): nat { if d.Ssb? then LINE_BITS else 16 }

  predicate UnitsTyped(d: Design, units: seq<Unit>) {
    |units| == UnitCount(d) && forall u :: 0 <= u < |units| ==> |units[u].result| == UnitBits(d)
  }

  function ClearUnits(d: Design): seq<Unit> { seq(UnitCount(d), _ => Clear(UnitBits(d))) }

  /** `cl_processed`: any of three flags, or all of eight. */
  predicate LineDone(d: Design, units: seq<Unit>) {
    if d.Ssb? then exists u :: 0 <= u < |units| && units[u].done
    else forall u :: 0 <= u < |units| ==> units[u].done
  }

  /** The predicate and code width that unit `u` evaluates. */
  function UnitPred(d: Design, c: Params, u: nat): (Pred, nat) {
    if d.Cascade? then (AtLeast(c.filterPred % 16), 4)
    else if u == 0 then (Equals(c.filterPred % 16), 4)
    else if u == 1 then (Between(c.filterPred % 16, c.filterPred / 16), 4)
    else (AtMost(c.filterPred), 8)
  }

  predicate UnitEnabled(d: Design, r: Regs, u: nat)
    requires u < |r.units|
  {
    r.state == PROCESSING
    && if d.Ssb? then r.csr.scanColumn == u else forall v :: 0 <= v < u ==> r.units[v].done
  }

  function NextUnit(d: Design, r: Regs, u: nat): Unit
    requires UnitsTyped(d, r.units) && u < UnitCount(d)
  {
    var (p, w) := UnitPred(d, r.csr, u);
    if d.Ssb? then WideUnitNext(r.units[u], r.state == IDLE, UnitEnabled(d, r, u), p, w, r.rx.data)
    else P16Next(r.units[u], r.state == IDLE, UnitEnabled(d, r, u), p, r.rx.data[64 * u..64 * u + 64])
  }

  function NextUnits(d: Design, r: Regs): (units': seq<Unit>)
    requires UnitsTyped(d, r.units)
    ensures UnitsTyped(d, units')
  {
    seq(UnitCount(d), u requires 0 <= u < UnitCount(d) => NextUnit(d, r, u))
  }

  /** The line on the write port: the OR of three result lines, or the concatenated slices. */
  function Result(d: Design, units: seq<Unit>): Line
    requires UnitsTyped(d, units)
  {
    if d.Ssb? then Or(Or(units[0].result, units[1].result), units[2].result)
    else units[0].result + units[1].result + units[2].result + units[3].result
         + units[4].result + units[5].result + units[6].result + units[7].result + Zeros(384)
  }

  // ---------------------------------------------------------------------------------------
  // One clock tick

  function NextParams(c: Params, i: Inputs): Params {
    if !i.active then c
    else if i.wr.NoPulse? then c.(newPartition := false)
    else match i.wr.idx
      case 0 => c.(newPartition := false, totalCls := i.wr.data % 128)
      case 1 => c.(newPartition := false, filterPred := i.wr.data % 256)
      case 2 => c.(newPartition := false, scanColumn := i.wr.data % 4)
      case 4 => c.(newPartition := true, readBuff := ClAddr(i.wr.data))
      case 5 => c.(newPartition := false, writeBuff := ClAddr(i.wr.data))
      case _ => c.(newPartition := false)
  }

  function NextState(d: Design, r: Regs, reset: bool): Fsm {
    if reset then WAITING else
    match r.state
    case WAITING => if r.csr.newPartition then IDLE else WAITING
    case IDLE => if r.prog.reqAllowed then REQ else if r.prog.partitionDone then WAITING else IDLE
    case REQ => if r.rd.issued then RSP else REQ
    case RSP => if r.rx.received then PROCESSING else RSP
    case PROCESSING => if LineDone(d, r.units) then IDLE else PROCESSING
  }

  /** The tick on which a line completes. */
  predicate Completing(d: Design, r: Regs) { r.state == PROCESSING && LineDone(d, r.units) }

  function NextProgress(d: Design, r: Regs, reset: bool): Progress {
    if reset || r.csr.newPartition then Progress(true, 0, false)
    else if Completing(d, r) then
      var n := r.prog.clsDone + 1;
      Progress(n < r.csr.totalCls, n % CounterRange(d), n == r.csr.totalCls)
    else if r.state == WAITING then r.prog.(clsDone := 0)
    else r.prog
  }

  function NextRead(r: Regs, reset: bool, full: bool): ReadPort {
    if reset then r.rd.(valid := false)
    else if r.state == REQ then
      ReadPort(!full && !r.rd.issued, !full && !r.rd.issued, LineAddr(r.csr.readBuff, r.prog.clsDone))
    else if r.state == RSP then r.rd.(issued := false)
    else r.rd
  }

  function NextReceiver(r: Regs, rsp: Option<Line>): Receiver {
    if r.state == RSP then
      (match rsp case Some(line) => Receiver(true, line) case None => r.rx.(received := false))
    else if r.state == PROCESSING then r.rx.(received := false)
    else r.rx
  }

  function NextWrite(d: Design, r: Regs, reset: bool, full: bool): WritePort
    requires UnitsTyped(d, r.units)
  {
    if reset then r.wr.(valid := false)
    else WritePort(Completing(d, r) && !full, LineAddr(r.csr.writeBuff, r.prog.clsDone), Result(d, r.units))
  }

  /** All blocks fire on the registers as they are before the tick. */
  function Step(d: Design, r: Regs, i: Inputs): Regs
    requires UnitsTyped(d, r.units)
  {
    Regs(NextParams(r.csr, i), NextState(d, r, i.reset), NextProgress(d, r, i.reset),
         NextRead(r, i.reset, i.c0Full), NextReceiver(r, i.rsp), NextUnits(d, r),
         NextWrite(d, r, i.reset, i.c1Full))
  }

  /** The module itself: each clocked block computes its next values from the registers as they
      are, and the parallel assignment in `Tick` is the clock edge. */
  class ScanUnit {
    const design: Design
    var csr: Params
    var state: Fsm
    var prog: Progress
    var rd: ReadPort
    var rx: Receiver
    var units: seq<Unit>
    var wr: WritePort

    function Snapshot(): Regs
      reads this
    {
      Regs(csr, state, prog, rd, rx, units, wr)
    }

    constructor (design: Design)
      ensures this.design == design && PostReset(design, Snapshot())
    {
      this.design := design;
      csr := Params(false, 0, 0, 0, 0, 0);
      state, prog := WAITING, Progress(true, 0, false);
      rd, rx := ReadPort(false, false, 0), Receiver(false, Zeros(LINE_BITS));
      units, wr := ClearUnits(design), WritePort(false, 0, Zeros(LINE_BITS));
    }

    method LatchCsrs(i: Inputs) returns (c: Params)
      ensures c == NextParams(csr, i)
    {
      c := csr;
      if i.active {
        c := c.(newPartition := i.wr.Pulse? && i.wr.idx == 4);
        if i.wr.Pulse? {
          if i.wr.idx == 0 { c := c.(totalCls := i.wr.data % 128); }
          if i.wr.idx == 1 { c := c.(filterPred := i.wr.data % 256); }
          if i.wr.idx == 2 { c := c.(scanColumn := i.wr.data % 4); }
          if i.wr.idx == 4 { c := c.(readBuff := ClAddr(i.wr.data)); }
          if i.wr.idx == 5 { c := c.(writeBuff := ClAddr(i.wr.data)); }
        }
      }
    }

    method CountLines(reset: bool) returns (p: Progress)
      ensures p == NextProgress(design, Snapshot(), reset)
    {
      p := prog;
      if reset || csr.newPartition {
        p := Progress(true, 0, false);
      } else if state == PROCESSING && LineDone(design, units) {
        p := p.(reqAllowed := prog.clsDone + 1 < csr.totalCls, partitionDone := prog.clsDone + 1 == csr.totalCls);
        p := p.(clsDone := (prog.clsDone + 1) % CounterRange(design));
      } else if state == WAITING {
        p := p.(clsDone := 0);
      }
    }

    method Request(reset: bool, full: bool) returns (p: ReadPort)
      ensures p == NextRead(Snapshot(), reset, full)
    {
      p := rd;
      if reset {
        p := p.(valid := false);
      } else if state == REQ {
        p := p.(valid := !full && !rd.issued, addr := LineAddr(csr.readBuff, prog.clsDone));
        p := p.(issued := !full && !rd.issued);
      } else if state == RSP {
        p := p.(issued := false);
      }
    }

    method Receive(rsp: Option<Line>) returns (p: Receiver)
      ensures p == NextReceiver(Snapshot(), rsp)
    {
      p := rx;
      if state == RSP {
        p := p.(received := rsp.Some?);
        if rsp.Some? { p := p.(data := rsp.value); }
      } else if state == PROCESSING {
        p := p.(received := false);
      }
    }

    method Tick(i: Inputs)
      requires UnitsTyped(design, units)
      modifies this
      ensures Snapshot() == Step(design, old(Snapshot()), i) && UnitsTyped(design, units)
    {
      var csr' := LatchCsrs(i);
      var state' := NextState(design, Snapshot(), i.reset);
      var prog' := CountLines(i.reset);
      var rd' := Request(i.reset, i.c0Full);
      var rx' := Receive(i.rsp);
      var units' := NextUnits(design, Snapshot());
      var wr' := NextWrite(design, Snapshot(), i.reset, i.c1Full);
      csr, state, prog, rd, rx, units, wr := csr', state', prog', rd', rx', units', wr';
    }
  }

  /** After reset with the unit selected: waiting, no request outstanding. */
  ghost predicate PostReset(d: Design, r: Regs) {
    && UnitsTyped(d, r.units) && r.state == WAITING && !r.csr.newPartition
    && !r.rd.issued && !r.rd.valid && !r.rx.received && !r.prog.partitionDone
  }

  /** A reset tick leads to it from any registers, except that it clears neither `cl_req_issued` nor
      `cl_received`, nor keeps CSR writes out: exactly when no request has just been issued, no
      response received, and no partition is announced in that very tick. */
  lemma ResetLeadsToStart(d: Design, r: Regs, i: Inputs)
    requires UnitsTyped(d, r.units) && i.reset && i.active
    ensures var r' := Step(d, r, i);
      && r'.state == WAITING && !r'.rd.valid && !r'.wr.valid && r'.prog == Progress(true, 0, false)
      && (PostReset(d, r') <==>
            && !r.rd.issued && !(i.wr.Pulse? && i.wr.idx == 4)
            && !(if r.state == RSP then i.rsp.Some? else r.state != PROCESSING && r.rx.received))
  {
    hide NextUnits, Result, ClAddr, LineAddr;
  }

  /** The exception is real: after a reset in the tick that follows a request, the next partition
      passes through REQ without requesting its first line, and waits for it in RSP. */
  lemma ResetMidRequest(d: Design, r: Regs, buff: nat, line: Option<Line>) returns (rs: seq<Regs>)
    requires UnitsTyped(d, r.units) && r.state == REQ && r.rd.issued
    ensures |rs| == 6 && rs[0] == r && forall k :: 0 <= k < 6 ==> UnitsTyped(d, rs[k].units)
    ensures var quiet := Inputs(false, true, NoPulse, false, false, None);
      && rs[1] == Step(d, rs[0], quiet.(reset := true, rsp := line))
      && rs[2] == Step(d, rs[1], quiet.(wr := Pulse(4, buff)))
      && forall k :: 2 <= k < 5 ==> rs[k + 1] == Step(d, rs[k], quiet)
    ensures rs[2].csr.newPartition && rs[5].state == RSP && forall k :: 1 <= k < 6 ==> !rs[k].rd.valid
  {
    hide NextUnits, NextWrite, ClAddr, LineAddr;
    var quiet := Inputs(false, true, NoPulse, false, false, None);
    var r1 := Step(d, r, quiet.(reset := true, rsp := line));
    var r2 := Step(d, r1, quiet.(wr := Pulse(4, buff)));
    var r3 := Step(d, r2, quiet);
    var r4 := Step(d, r3, quiet);
    rs := [r, r1, r2, r3, r4, Step(d, r4, quiet)];
  }
}
