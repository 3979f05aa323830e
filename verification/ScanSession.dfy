/** The scan accelerator against its memory: what one accepted partition makes it read and
    write, for any read latency of at least one cycle and any back-pressure. */
module ScanSession {
  import opened Wrappers
  import opened Bits
  import opened Filters
  import opened ScanAfu

  type Memory = nat -> Line

  /** What the environment does on a tick: CSR pulse, back-pressure, and whether it answers one
      of the outstanding reads (by its index). */
  datatype Env = Env(wr: Pulse, c0Full: bool, c1Full: bool, answer: Option<nat>)

  /** A completed line: what was put on the write port, and whether it was put there at all. */
  datatype Attempt = Attempt(addr: nat, data: Line, issued: bool)
  datatype Write = Write(addr: nat, data: Line)

  /** The accelerator, the reads outstanding in the memory system, and the traffic so far:
      every cycle of `c0.valid`, every completed line (both grouped by accepted partition), and
      every cycle of `c1.valid`. */
  datatype World = World(
    r: Regs, pending: seq<nat>, fetched: seq<seq<nat>>, attempts: seq<seq<Attempt>>, writes: seq<Write>)

  function AppendLast<T>(groups: seq<seq<T>>, x: T): seq<seq<T>> {
    if groups == [] then [[x]] else groups[|groups| - 1 := groups[|groups| - 1] + [x]]
  }

  function Last<T>(groups: seq<seq<T>>): seq<T> { if groups == [] then [] else groups[|groups| - 1] }

  function Answered(pending: seq<nat>, answer: Option<nat>): seq<nat> {
    if answer.Some? && answer.value < |pending| then pending[..answer.value] + pending[answer.value + 1..] else pending
  }

  function Response(mem: Memory, pending: seq<nat>, answer: Option<nat>): Option<Line> {
    if answer.Some? && answer.value < |pending| then Some(mem(pending[answer.value])) else None
  }

  function TickInputs(mem: Memory, w: World, e: Env): Inputs {
    Inputs(false, true, e.wr, e.c0Full, e.c1Full, Response(mem, w.pending, e.answer))
  }

  /** One cycle: a request visible on the port during the cycle is outstanding from the next
      cycle on, so the earliest answer comes one cycle after the request. */
  function Cycle(d: Design, mem: Memory, w: World, e: Env): World
    requires UnitsTyped(d, w.r.units)
  {
    var r' := Step(d, w.r, TickInputs(mem, w, e));
    var fetched := if w.r.csr.newPartition then w.fetched + [[]] else w.fetched;
    var attempts := if w.r.csr.newPartition then w.attempts + [[]] else w.attempts;
    World(r',
          Answered(w.pending, e.answer) + (if w.r.rd.valid then [w.r.rd.addr] else []),
          if r'.rd.valid then AppendLast(fetched, r'.rd.addr) else fetched,
          if Completing(d, w.r) then AppendLast(attempts, Attempt(r'.wr.addr, r'.wr.data, r'.wr.valid)) else attempts,
          if r'.wr.valid then w.writes + [Write(r'.wr.addr, r'.wr.data)] else w.writes)
  }

  // ---------------------------------------------------------------------------------------
  // One partition

  /** The parameters of an accepted partition. */
  datatype Job = Job(base: nat, dest: nat, total: nat, p: Pred, w: nat)

  /** The filter the parameter registers select; `scan_column` 3 selects none. */
  function Selected(d: Design, c: Params): Option<(Pred, nat)> {
    if d.Ssb? && c.scanColumn > 2 then None
    else Some(UnitPred(d, c, if d.Ssb? then c.scanColumn else 0))
  }

  function Answer(mem: Memory, job: Job, j: nat): Line
    requires Width(job.w)
  {
    WideFilter(job.p, job.w, mem(LineAddr(job.base, j)))
  }

  ghost predicate JobIs(d: Design, c: Params, job: Job) {
    && !c.newPartition && c.readBuff == job.base && c.totalCls == job.total
    && Selected(d, c) == Some((job.p, job.w)) && Width(job.w)
    && 1 <= job.total <= CounterRange(d)
  }

  /** Which stages have finished, and with what: a prefix of the cascade, or the selected
      filter; a finished unit holds its part of the whole-line comparison, others are clear. */
  ghost predicate UnitsOk(d: Design, c: Params, units: seq<Unit>, full: Line) {
    && UnitsTyped(d, units)
    && if d.Ssb? then
         forall u :: 0 <= u < 3 ==> units[u] == Clear(LINE_BITS) || (u == c.scanColumn && units[u] == Unit(true, full))
       else exists k :: 0 <= k <= 8 && CascadeAt(units, full, k)
  }

  /** `cl_processed == 2^k - 1`, and the first `k` slices are those of the wide comparison. */
  ghost predicate CascadeAt(units: seq<Unit>, full: Line, k: nat) {
    |units| == 8 && forall u :: 0 <= u < 8 ==>
      units[u] == if u < k then Unit(true, full[16 * u..16 * u + 16]) else Clear(16)
  }

  /** What is outstanding while line `m` is being fetched and filtered. */
  ghost predicate PhaseInv(d: Design, mem: Memory, w: World, job: Job, m: nat)
    requires Width(job.w)
  {
    var r, a := w.r, LineAddr(job.base, m);
    match r.state
    case WAITING => false
    case IDLE => !r.rd.issued && !r.rd.valid && !r.rx.received && w.pending == [] && |Last(w.fetched)| == m
    case REQ =>
      && r.units == ClearUnits(d) && !r.rx.received && w.pending == []
      && r.rd.valid == r.rd.issued && (r.rd.issued ==> r.rd.addr == a)
      && |Last(w.fetched)| == if r.rd.issued then m + 1 else m
    case RSP =>
      && r.units == ClearUnits(d) && !r.rd.issued && !r.rd.valid && |Last(w.fetched)| == m + 1
      && (if r.rx.received then w.pending == [] && r.rx.data == mem(a) else w.pending == [a])
    case PROCESSING =>
      && !r.rd.issued && !r.rd.valid && !r.rx.received && w.pending == [] && |Last(w.fetched)| == m + 1
      && r.rx.data == mem(a) && UnitsOk(d, r.csr, r.units, Answer(mem, job, m))
  }

  ghost predicate RunningInv(d: Design, mem: Memory, w: World, job: Job) {
    var m := |Last(w.attempts)|;
    && JobIs(d, w.r.csr, job) && UnitsTyped(d, w.r.units)
    && m < job.total && w.r.prog == Progress(true, m, false)
    && PhaseInv(d, mem, w, job, m)
  }

  ghost predicate FinishedInv(d: Design, mem: Memory, w: World, job: Job) {
    && JobIs(d, w.r.csr, job) && UnitsTyped(d, w.r.units)
    && |Last(w.attempts)| == job.total && |Last(w.fetched)| == job.total
    && !w.r.prog.reqAllowed && w.r.prog.partitionDone
    && w.r.state in {IDLE, WAITING} && w.pending == []
    && !w.r.rd.issued && !w.r.rd.valid && !w.r.rx.received
  }

  /** The reads of the current partition so far are lines 0, 1, ... of its buffer; its
      completed lines went to lines 0, 1, ... of its result buffer, each carrying the
      comparison of the line it read. */
  ghost predicate TrafficInv(mem: Memory, w: World, job: Job) {
    && Width(job.w) && w.fetched != [] && w.attempts != []
    && (forall j :: 0 <= j < |Last(w.fetched)| ==> Last(w.fetched)[j] == LineAddr(job.base, j))
    && (forall j :: 0 <= j < |Last(w.attempts)| ==>
          Last(w.attempts)[j].addr == LineAddr(job.dest, j) && Last(w.attempts)[j].data == Answer(mem, job, j))
  }

  ghost predicate SessionInv(d: Design, mem: Memory, w: World, job: Job) {
    TrafficInv(mem, w, job) && (RunningInv(d, mem, w, job) || FinishedInv(d, mem, w, job))
  }

  // ---------------------------------------------------------------------------------------
  // The comparison units, tick by tick

  lemma IdleClearsUnits(d: Design, r: Regs)
    requires UnitsTyped(d, r.units) && r.state == IDLE
    ensures NextUnits(d, r) == ClearUnits(d)
  {
  }

  lemma UnitsWait(d: Design, r: Regs)
    requires UnitsTyped(d, r.units) && (r.state == REQ || r.state == RSP)
    ensures NextUnits(d, r) == r.units
  {
  }

  lemma ClearIsOk(d: Design, c: Params, full: Line)
    ensures UnitsOk(d, c, ClearUnits(d), full) && !LineDone(d, ClearUnits(d))
  {
    if d.Cascade? {
      assert CascadeAt(ClearUnits(d), full, 0);
      assert !ClearUnits(d)[0].done;
    }
  }

  /** Processing a stable line keeps the finished parts right and finishes one more. */
  lemma UnitsAdvance(d: Design, r: Regs, p: Pred, w: nat)
    requires Selected(d, r.csr) == Some((p, w)) && Width(w)
    requires r.state == PROCESSING && UnitsOk(d, r.csr, r.units, WideFilter(p, w, r.rx.data))
    ensures UnitsOk(d, r.csr, NextUnits(d, r), WideFilter(p, w, r.rx.data))
  {
    var full := WideFilter(p, w, r.rx.data);
    if d.Ssb? {
      WideUnitResult(Clear(LINE_BITS), p, w, r.rx.data);
      WideUnitStable(p, w, r.rx.data);
    } else {
      var k :| 0 <= k <= 8 && CascadeAt(r.units, full, k);
      CascadeAdvance(r, p, full, k);
    }
  }

  lemma CascadeDone(units: seq<Unit>, full: Line, k: nat)
    requires k <= 8 && CascadeAt(units, full, k)
    ensures LineDone(Cascade, units) <==> k == 8
    ensures k < 8 ==> !units[k].done
  {
    if k < 8 {
      assert !units[k].done;
    }
  }

  lemma CascadeAdvance(r: Regs, p: Pred, full: Line, k: nat)
    requires UnitPred(Cascade, r.csr, 0) == (p, 4) && full == WideFilter(p, 4, r.rx.data)
    requires r.state == PROCESSING && k <= 8 && CascadeAt(r.units, full, k) && UnitsTyped(Cascade, r.units)
    ensures CascadeAt(NextUnits(Cascade, r), full, if k < 8 then k + 1 else 8)
  {
    forall u | 0 <= u < 8
      ensures NextUnit(Cascade, r, u) == if u < k + 1 then Unit(true, full[16 * u..16 * u + 16]) else Clear(16)
    {
      P16IsSlice(r.units[u], p, r.rx.data, u);
      if u > k { assert !r.units[k].done; }
    }
  }

  /** When the line is done, the write port carries exactly the whole-line comparison. */
  lemma ResultIsFilter(d: Design, c: Params, units: seq<Unit>, p: Pred, w: nat, line: Line)
    requires Selected(d, c) == Some((p, w)) && Width(w)
    requires UnitsOk(d, c, units, WideFilter(p, w, line)) && LineDone(d, units)
    ensures Result(d, units) == WideFilter(p, w, line)
  {
    var full := WideFilter(p, w, line);
    if d.Ssb? {
      assert Or(Or(units[0].result, units[1].result), units[2].result) == full;
    } else {
      var k :| 0 <= k <= 8 && CascadeAt(units, full, k);
      CascadeDone(units, full, k);
      assert full[128..] == Zeros(384);
      hide WideFilter, Lane, UnitPred;
      SlicesMakeLine(full);
    }
  }

  lemma SlicesMakeLine(full: Line)
    ensures full[0..16] + full[16..32] + full[32..48] + full[48..64]
            + full[64..80] + full[80..96] + full[96..112] + full[112..128] + full[128..] == full
  {
  }

  // ---------------------------------------------------------------------------------------
  // One cycle of a running partition

  /** No parameter changes and no new partition. */
  predicate Quiet(wr: Pulse) { wr.Pulse? ==> wr.idx !in {0, 1, 2, 4} }

  lemma QuietKeepsJob(d: Design, c: Params, i: Inputs, job: Job)
    requires JobIs(d, c, job) && i.active && Quiet(i.wr)
    ensures JobIs(d, NextParams(c, i), job)
  {
  }

  lemma LastAppended<T>(groups: seq<seq<T>>, x: T)
    requires groups != []
    ensures AppendLast(groups, x) != [] && Last(AppendLast(groups, x)) == Last(groups) + [x]
  {
  }

  lemma IdleCycle(d: Design, mem: Memory, w: World, job: Job, e: Env)
    requires TrafficInv(mem, w, job) && RunningInv(d, mem, w, job) && w.r.state == IDLE && Quiet(e.wr)
    ensures TrafficInv(mem, Cycle(d, mem, w, e), job) && RunningInv(d, mem, Cycle(d, mem, w, e), job)
  {
    IdleClearsUnits(d, w.r);
    QuietKeepsJob(d, w.r.csr, TickInputs(mem, w, e), job);
  }

  lemma ReqCycle(d: Design, mem: Memory, w: World, job: Job, e: Env)
    requires TrafficInv(mem, w, job) && RunningInv(d, mem, w, job) && w.r.state == REQ && Quiet(e.wr)
    ensures TrafficInv(mem, Cycle(d, mem, w, e), job) && RunningInv(d, mem, Cycle(d, mem, w, e), job)
  {
    hide NextUnits, NextWrite, WideFilter, UnitsOk, Answer;
    UnitsWait(d, w.r);
    QuietKeepsJob(d, w.r.csr, TickInputs(mem, w, e), job);
    LastAppended(w.fetched, LineAddr(job.base, w.r.prog.clsDone));
  }

  lemma RspCycle(d: Design, mem: Memory, w: World, job: Job, e: Env)
    requires TrafficInv(mem, w, job) && RunningInv(d, mem, w, job) && w.r.state == RSP && Quiet(e.wr)
    ensures TrafficInv(mem, Cycle(d, mem, w, e), job) && RunningInv(d, mem, Cycle(d, mem, w, e), job)
  {
    hide NextUnits, NextWrite, WideFilter, UnitsOk, Answer, LineAddr;
    UnitsWait(d, w.r);
    QuietKeepsJob(d, w.r.csr, TickInputs(mem, w, e), job);
    ClearIsOk(d, NextParams(w.r.csr, TickInputs(mem, w, e)), Answer(mem, job, |Last(w.attempts)|));
  }

  lemma SameFilterUnits(d: Design, c: Params, c': Params, units: seq<Unit>, full: Line)
    requires UnitsOk(d, c, units, full) && c.scanColumn == c'.scanColumn
    ensures UnitsOk(d, c', units, full)
  {
  }

  /** Filtering adds nothing to the traffic. */
  lemma NoTraffic(d: Design, mem: Memory, w: World, job: Job, e: Env)
    requires UnitsTyped(d, w.r.units) && w.r.state == PROCESSING && !LineDone(d, w.r.units)
    requires TrafficInv(mem, w, job) && !w.r.rd.valid && !w.r.csr.newPartition
    ensures var w' := Cycle(d, mem, w, e);
      TrafficInv(mem, w', job) && w'.fetched == w.fetched && w'.attempts == w.attempts
  {
    hide NextUnits, NextWrite, NextParams, NextReceiver, Answer;
  }

  lemma FilterCycle(d: Design, mem: Memory, w: World, job: Job, e: Env)
    requires TrafficInv(mem, w, job) && RunningInv(d, mem, w, job) && Quiet(e.wr)
    requires w.r.state == PROCESSING && !LineDone(d, w.r.units)
    ensures TrafficInv(mem, Cycle(d, mem, w, e), job) && RunningInv(d, mem, Cycle(d, mem, w, e), job)
  {
    hide TrafficInv, NextUnits, NextWrite, WideFilter;
    NoTraffic(d, mem, w, job, e);
    QuietKeepsJob(d, w.r.csr, TickInputs(mem, w, e), job);
    UnitsAdvance(d, w.r, job.p, job.w);
    SameFilterUnits(d, w.r.csr, NextParams(w.r.csr, TickInputs(mem, w, e)), NextUnits(d, w.r),
                    Answer(mem, job, |Last(w.attempts)|));
  }

  /** What the write port and the log of completed lines hold after the completing cycle: the
      line goes to wherever the result address register points by then. */
  lemma LineCompleted(d: Design, mem: Memory, w: World, job: Job, e: Env)
    requires TrafficInv(mem, w, job) && RunningInv(d, mem, w, job) && Completing(d, w.r)
    ensures var (m, dest, w') := (|Last(w.attempts)|, w.r.csr.writeBuff, Cycle(d, mem, w, e));
      && w'.attempts != []
      && Last(w'.attempts) == Last(w.attempts) + [Attempt(LineAddr(dest, m), Answer(mem, job, m), !e.c1Full)]
      && w'.fetched == w.fetched
  {
    ResultIsFilter(d, w.r.csr, w.r.units, job.p, job.w, w.r.rx.data);
    var r' := Step(d, w.r, TickInputs(mem, w, e));
    LastAppended(w.attempts, Attempt(r'.wr.addr, r'.wr.data, r'.wr.valid));
  }

  /** The completing cycle writes the line's comparison to its place in the result buffer,
      unless the write channel is almost full: then the line is lost, there is no retry. */
  lemma CompletingCycle(d: Design, mem: Memory, w: World, job: Job, e: Env)
    requires TrafficInv(mem, w, job) && RunningInv(d, mem, w, job) && Quiet(e.wr)
    requires Completing(d, w.r) && w.r.csr.writeBuff == job.dest
    ensures var w' := Cycle(d, mem, w, e); var m := |Last(w.attempts)|;
      && TrafficInv(mem, w', job)
      && (if m + 1 < job.total then RunningInv(d, mem, w', job) else FinishedInv(d, mem, w', job))
      && Last(w'.attempts) == Last(w.attempts) + [Attempt(LineAddr(job.dest, m), Answer(mem, job, m), !e.c1Full)]
      && w'.r.state == IDLE && w'.r.prog.partitionDone == (m + 1 == job.total)
  {
    hide Answer, UnitsOk, Result, NextUnits, LineDone;
    QuietKeepsJob(d, w.r.csr, TickInputs(mem, w, e), job);
    LineCompleted(d, mem, w, job, e);
  }

  lemma FinishedCycle(d: Design, mem: Memory, w: World, job: Job, e: Env)
    requires TrafficInv(mem, w, job) && FinishedInv(d, mem, w, job) && Quiet(e.wr)
    ensures TrafficInv(mem, Cycle(d, mem, w, e), job) && FinishedInv(d, mem, Cycle(d, mem, w, e), job)
    ensures Cycle(d, mem, w, e).r.state == WAITING
  {
    QuietKeepsJob(d, w.r.csr, TickInputs(mem, w, e), job);
  }

  /** An accepted partition starts a fresh group of traffic at line 0. */
  lemma AcceptCycle(d: Design, mem: Memory, w: World, job: Job, e: Env)
    requires JobIs(d, w.r.csr.(newPartition := false), job) && w.r.csr.newPartition
    requires Idle(d, w) && Quiet(e.wr)
    ensures var w' := Cycle(d, mem, w, e);
      && TrafficInv(mem, w', job) && RunningInv(d, mem, w', job) && w'.r.state == IDLE
      && w'.attempts == w.attempts + [[]] && w'.fetched == w.fetched + [[]]
  {
  }

  /** Waiting for a partition with nothing in flight. */
  ghost predicate Idle(d: Design, w: World) {
    && UnitsTyped(d, w.r.units) && w.r.state == WAITING && w.pending == []
    && !w.r.rd.issued && !w.r.rd.valid && !w.r.rx.received
  }

  /** Every cycle keeps the session invariant, whatever the memory and the host's other CSR
      writes do, provided the result address is in place when a line completes. */
  lemma SessionCycle(d: Design, mem: Memory, w: World, job: Job, e: Env)
    requires SessionInv(d, mem, w, job) && Quiet(e.wr)
    requires Completing(d, w.r) ==> w.r.csr.writeBuff == job.dest
    ensures SessionInv(d, mem, Cycle(d, mem, w, e), job)
  {
    if FinishedInv(d, mem, w, job) {
      FinishedCycle(d, mem, w, job, e);
    } else {
      match w.r.state {
        case IDLE => IdleCycle(d, mem, w, job, e);
        case REQ => ReqCycle(d, mem, w, job, e);
        case RSP => RspCycle(d, mem, w, job, e);
        case PROCESSING =>
          if LineDone(d, w.r.units) { CompletingCycle(d, mem, w, job, e); } else { FilterCycle(d, mem, w, job, e); }
        case WAITING => assert false;
      }
    }
  }

  // ---------------------------------------------------------------------------------------
  // Writes that reach the write channel

  function Issued(lines: seq<Attempt>): seq<Write> {
    if lines == [] then [] else
    Issued(lines[..|lines| - 1])
    + var a := lines[|lines| - 1]; if a.issued then [Write(a.addr, a.data)] else []
  }

  function AllIssued(groups: seq<seq<Attempt>>): seq<Write> {
    if groups == [] then [] else AllIssued(groups[..|groups| - 1]) + Issued(groups[|groups| - 1])
  }

  /** The cycles of `c1.valid` are exactly the completed lines that were not blocked. */
  lemma WritesAreIssuedLines(d: Design, mem: Memory, w: World, e: Env)
    requires UnitsTyped(d, w.r.units) && w.writes == AllIssued(w.attempts)
    ensures Cycle(d, mem, w, e).writes == AllIssued(Cycle(d, mem, w, e).attempts)
  {
    var w' := Cycle(d, mem, w, e);
    var groups := if w.r.csr.newPartition then w.attempts + [[]] else w.attempts;
    if w.r.csr.newPartition {
      assert groups[..|groups| - 1] == w.attempts;
      assert AllIssued(groups) == w.writes + [];
    }
    if Completing(d, w.r) {
      var a := Attempt(w'.r.wr.addr, w'.r.wr.data, w'.r.wr.valid);
      IssuedAppend(groups, a);
    }
  }

  lemma IssuedSnoc(lines: seq<Attempt>, a: Attempt)
    ensures Issued(lines + [a]) == Issued(lines) + if a.issued then [Write(a.addr, a.data)] else []
  {
    assert (lines + [a])[..|lines|] == lines;
  }

  lemma FirstIssued(a: Attempt)
    ensures AllIssued([]) == [] && AllIssued([[a]]) == if a.issued then [Write(a.addr, a.data)] else []
  {
    assert Issued([a]) == Issued([]) + if a.issued then [Write(a.addr, a.data)] else [];
    assert AllIssued([[a]]) == AllIssued([]) + Issued([a]);
  }

  lemma IssuedAppend(groups: seq<seq<Attempt>>, a: Attempt)
    ensures AllIssued(AppendLast(groups, a))
            == AllIssued(groups) + if a.issued then [Write(a.addr, a.data)] else []
  {
    hide Issued, AllIssued;
    var z := if a.issued then [Write(a.addr, a.data)] else [];
    if groups == [] {
      FirstIssued(a);
    } else {
      var n := |groups| - 1;
      var front, last := groups[..n], groups[n];
      IssuedSnoc(last, a);
      AllIssuedSnoc(front, last);
      AllIssuedSnoc(front, last + [a]);
      assert groups == front + [last];
      assert AppendLast(groups, a) == front + [last + [a]];
      assert AllIssued(front) + (Issued(last) + z) == (AllIssued(front) + Issued(last)) + z;
    }
  }

  lemma AllIssuedSnoc(groups: seq<seq<Attempt>>, group: seq<Attempt>)
    ensures AllIssued(groups + [group]) == AllIssued(groups) + Issued(group)
  {
    assert (groups + [group])[..|groups|] == groups;
  }

  /** For each completed line, in order, whether it was issued. */
  function Outcomes(groups: seq<seq<Attempt>>): seq<bool> {
    if groups == [] then [] else Outcomes(groups[..|groups| - 1]) + Flags(groups[|groups| - 1])
  }

  function Flags(lines: seq<Attempt>): (flags: seq<bool>)
    ensures |flags| == |lines|
  {
    seq(|lines|, i requires 0 <= i < |lines| => lines[i].issued)
  }

  lemma OutcomesSnoc(groups: seq<seq<Attempt>>, group: seq<Attempt>)
    ensures Outcomes(groups + [group]) == Outcomes(groups) + Flags(group)
  {
    assert (groups + [group])[..|groups|] == groups;
  }

  lemma OutcomesAppend(groups: seq<seq<Attempt>>, a: Attempt)
    ensures Outcomes(AppendLast(groups, a)) == Outcomes(groups) + [a.issued]
  {
    hide Outcomes;
    if groups == [] {
      OutcomesSnoc([], [a]);
      NoOutcomes();
      assert AppendLast(groups, a) == [] + [[a]];
      assert Flags([a]) == [a.issued];
    } else {
      var n := |groups| - 1;
      OutcomesSnoc(groups[..n], groups[n]);
      OutcomesSnoc(groups[..n], groups[n] + [a]);
      assert groups == groups[..n] + [groups[n]];
      assert AppendLast(groups, a) == groups[..n] + [groups[n] + [a]];
      assert Flags(groups[n] + [a]) == Flags(groups[n]) + [a.issued];
    }
  }

  lemma NoOutcomes()
    ensures Outcomes([]) == []
  {
  }

  /** A line is issued exactly if the write channel is not almost full in the cycle in which it
      completes. */
  lemma OutcomeIsOpening(d: Design, mem: Memory, w: World, e: Env)
    requires UnitsTyped(d, w.r.units)
    ensures Outcomes(Cycle(d, mem, w, e).attempts)
            == Outcomes(w.attempts) + if Completing(d, w.r) then [!e.c1Full] else []
  {
    hide Outcomes, NextUnits, NextParams, NextReceiver, NextRead;
    var w' := Cycle(d, mem, w, e);
    var groups := if w.r.csr.newPartition then w.attempts + [[]] else w.attempts;
    OutcomesSnoc(w.attempts, []);
    assert Outcomes(groups) == Outcomes(w.attempts);
    if Completing(d, w.r) { OutcomesAppend(groups, Attempt(w'.r.wr.addr, w'.r.wr.data, w'.r.wr.valid)); }
  }

  /** Line `j` of the group after `k` groups of `total` lines and, before these, `skip` empty ones. */
  lemma {:induction false} OutcomeAt(groups: seq<seq<Attempt>>, skip: nat, total: nat, k: nat, j: nat)
    requires skip + k < |groups| && j < |groups[skip + k]|
    requires forall g :: 0 <= g < skip + k ==> |groups[g]| == if g < skip then 0 else total
    ensures k * total + j < |Outcomes(groups)| && Outcomes(groups)[k * total + j] == groups[skip + k][j].issued
  {
    var n := |groups| - 1;
    if skip + k < n {
      OutcomeAt(groups[..n], skip, total, k, j);
    } else {
      OutcomeCount(groups[..n], skip, total);
    }
  }

  lemma {:induction false} OutcomeCount(groups: seq<seq<Attempt>>, skip: nat, total: nat)
    requires skip <= |groups|
    requires forall g :: 0 <= g < |groups| ==> |groups[g]| == if g < skip then 0 else total
    ensures |Outcomes(groups)| == (|groups| - skip) * total
  {
    if |groups| > skip {
      OutcomeCount(groups[..|groups| - 1], skip, total);
      OneGroupMore(|groups| - skip, total);
    } else if groups != [] {
      OutcomeCount(groups[..|groups| - 1], skip - 1, total);
    }
  }

  lemma OneGroupMore(groups: int, total: nat)
    ensures groups * total == (groups - 1) * total + total
  {
  }

  // ---------------------------------------------------------------------------------------
  // Progress

  /** Cycles spent filtering a line, and on that many lines altogether, when the environment
      never stalls. */
  function FilterCycles(d: Design): nat { if d.Ssb? then 2 else 9 }
  function LinesCost(d: Design, lines: int): int { if d.Ssb? then 7 * lines else 14 * lines }

  function FinishedUnits(units: seq<Unit>): nat {
    if units == [] || !units[0].done then 0 else 1 + FinishedUnits(units[1..])
  }

  /** Unstalled cycles left for the line in hand. */
  function PhaseLeft(d: Design, r: Regs): int {
    match r.state
    case IDLE => FilterCycles(d) + 5
    case REQ => if r.rd.issued then FilterCycles(d) + 3 else FilterCycles(d) + 4
    case RSP => if r.rx.received then FilterCycles(d) + 1 else FilterCycles(d) + 2
    case PROCESSING =>
      if d.Ssb? then (if LineDone(d, r.units) then 1 else 2) else 9 - FinishedUnits(r.units)
    case WAITING => 0
  }

  /** Unstalled cycles left until the partition is done. */
  function CyclesLeft(d: Design, w: World, job: Job): int {
    if w.r.prog.partitionDone then 0
    else LinesCost(d, job.total - |Last(w.attempts)| - 1) + PhaseLeft(d, w.r)
  }

  /** The environment holds the accelerator up: back-pressure on a request, or no answer yet. */
  predicate Stalled(mem: Memory, w: World, e: Env) {
    || (w.r.state == REQ && !w.r.rd.issued && e.c0Full)
    || (w.r.state == RSP && !w.r.rx.received && Response(mem, w.pending, e.answer).None?)
  }

  lemma {:induction false} FinishedUnitsIs(units: seq<Unit>, k: nat)
    requires k <= |units| && (forall u :: 0 <= u < k ==> units[u].done) && (k < |units| ==> !units[k].done)
    ensures FinishedUnits(units) == k
  {
    if k > 0 { FinishedUnitsIs(units[1..], k - 1); }
  }

  lemma FilterProgress(d: Design, r: Regs, p: Pred, w: nat)
    requires Selected(d, r.csr) == Some((p, w)) && Width(w)
    requires r.state == PROCESSING && UnitsOk(d, r.csr, r.units, WideFilter(p, w, r.rx.data))
    ensures PhaseLeft(d, r) >= 1
    ensures LineDone(d, r.units) ==> PhaseLeft(d, r) == 1
    ensures !LineDone(d, r.units) ==>
              PhaseLeft(d, r.(units := NextUnits(d, r))) == PhaseLeft(d, r) - 1
  {
    var full := WideFilter(p, w, r.rx.data);
    if d.Ssb? {
      WideUnitResult(Clear(LINE_BITS), p, w, r.rx.data);
      assert NextUnits(d, r)[r.csr.scanColumn].done;
    } else {
      var k :| 0 <= k <= 8 && CascadeAt(r.units, full, k);
      FinishedUnitsIs(r.units, k);
      CascadeDone(r.units, full, k);
      CascadeAdvance(r, p, full, k);
      FinishedUnitsIs(NextUnits(d, r), if k < 8 then k + 1 else 8);
    }
  }

  lemma FetchProgress(d: Design, mem: Memory, w: World, job: Job, e: Env)
    requires TrafficInv(mem, w, job) && RunningInv(d, mem, w, job) && w.r.state != PROCESSING
    ensures var w' := Cycle(d, mem, w, e);
      && w'.attempts == w.attempts && w'.r.prog == w.r.prog
      && PhaseLeft(d, w.r) >= 1
      && PhaseLeft(d, w'.r) == PhaseLeft(d, w.r) - if Stalled(mem, w, e) then 0 else 1
  {
    if w.r.state == RSP {
      UnitsWait(d, w.r);
      assert ClearUnits(d)[0] == Clear(UnitBits(d));
    }
  }

  /** Every unstalled cycle of an unfinished partition brings completion exactly one cycle
      nearer; a stalled one changes nothing. */
  lemma CycleProgress(d: Design, mem: Memory, w: World, job: Job, e: Env)
    requires TrafficInv(mem, w, job) && RunningInv(d, mem, w, job) && Quiet(e.wr)
    requires Completing(d, w.r) ==> w.r.csr.writeBuff == job.dest
    ensures CyclesLeft(d, w, job) >= 1
    ensures CyclesLeft(d, Cycle(d, mem, w, e), job)
            == CyclesLeft(d, w, job) - if Stalled(mem, w, e) then 0 else 1
  {
    if w.r.state != PROCESSING {
      FetchProgress(d, mem, w, job, e);
    } else if LineDone(d, w.r.units) {
      CompletingProgress(d, mem, w, job, e);
    } else {
      FilteringProgress(d, mem, w, job, e);
    }
  }

  lemma CompletingProgress(d: Design, mem: Memory, w: World, job: Job, e: Env)
    requires TrafficInv(mem, w, job) && RunningInv(d, mem, w, job) && Quiet(e.wr)
    requires Completing(d, w.r) && w.r.csr.writeBuff == job.dest
    ensures CyclesLeft(d, w, job) >= 1
    ensures CyclesLeft(d, Cycle(d, mem, w, e), job) == CyclesLeft(d, w, job) - 1
  {
    FilterProgress(d, w.r, job.p, job.w);
    CompletingCycle(d, mem, w, job, e);
    NextLineLeft(d, mem, w, Cycle(d, mem, w, e), job);
  }

  lemma NextLineLeft(d: Design, mem: Memory, w: World, w': World, job: Job)
    requires RunningInv(d, mem, w, job) && PhaseLeft(d, w.r) == 1 && w'.r.state == IDLE
    requires |Last(w'.attempts)| == |Last(w.attempts)| + 1
    requires w'.r.prog.partitionDone == (|Last(w'.attempts)| == job.total)
    ensures CyclesLeft(d, w', job) == CyclesLeft(d, w, job) - 1
  {
  }

  lemma FilteringProgress(d: Design, mem: Memory, w: World, job: Job, e: Env)
    requires TrafficInv(mem, w, job) && RunningInv(d, mem, w, job)
    requires w.r.state == PROCESSING && !LineDone(d, w.r.units)
    ensures var w' := Cycle(d, mem, w, e);
      && w'.attempts == w.attempts && w'.r.prog == w.r.prog && !Stalled(mem, w, e)
      && PhaseLeft(d, w.r) >= 1 && PhaseLeft(d, w'.r) == PhaseLeft(d, w.r) - 1
  {
    FilterProgress(d, w.r, job.p, job.w);
    var r' := Step(d, w.r, TickInputs(mem, w, e));
    assert PhaseLeft(d, r') == PhaseLeft(d, w.r.(units := NextUnits(d, w.r)));
  }

  // ---------------------------------------------------------------------------------------
  // Whole runs of one partition

  /** The job the parameter registers describe, if they describe one that can finish. */
  predicate CanFinish(d: Design, c: Params) { Selected(d, c).Some? && 1 <= c.totalCls <= CounterRange(d) }

  function JobOf(d: Design, c: Params, dest: nat): Job
    requires Selected(d, c).Some?
  {
    var (p, w) := Selected(d, c).value;
    Job(c.readBuff, dest, c.totalCls, p, w)
  }

  /** A run that starts with a partition being accepted by the idle accelerator; its parameters
      stay, and its result address is `dest` whenever a line completes. */
  ghost predicate PartitionRun(d: Design, mem: Memory, ws: seq<World>, es: seq<Env>, dest: nat) {
    && |ws| == |es| + 1
    && Idle(d, ws[0]) && ws[0].r.csr.newPartition
    && (forall i :: 0 <= i < |ws| ==> UnitsTyped(d, ws[i].r.units))
    && (forall i :: 0 <= i < |es| ==>
          && Quiet(es[i].wr) && ws[i + 1] == Cycle(d, mem, ws[i], es[i])
          && (Completing(d, ws[i].r) ==> ws[i].r.csr.writeBuff == dest))
  }

  lemma {:induction false} RunSession(d: Design, mem: Memory, ws: seq<World>, es: seq<Env>, dest: nat, i: nat)
    requires PartitionRun(d, mem, ws, es, dest) && CanFinish(d, ws[0].r.csr) && 1 <= i < |ws|
    ensures SessionInv(d, mem, ws[i], JobOf(d, ws[0].r.csr, dest))
  {
    var job := JobOf(d, ws[0].r.csr, dest);
    if i == 1 {
      AcceptCycle(d, mem, ws[0], job, es[0]);
    } else {
      RunSession(d, mem, ws, es, dest, i - 1);
      SessionCycle(d, mem, ws[i - 1], job, es[i - 1]);
    }
  }

  /** In every reachable state of a partition: the read requests so far are lines 0, 1, ... of
      the buffer, one cycle each and never two outstanding; the completed lines so far are
      lines 0, 1, ..., each carrying the comparison of the line it read; and the done flag is
      up exactly when all lines have been read and completed. */
  lemma PartitionTraffic(d: Design, mem: Memory, ws: seq<World>, es: seq<Env>, dest: nat, i: nat)
    requires PartitionRun(d, mem, ws, es, dest) && CanFinish(d, ws[0].r.csr) && 1 <= i < |ws|
    ensures var w := ws[i]; var job := JobOf(d, ws[0].r.csr, dest); var lines := Last(w.attempts);
      && |w.pending| + (if w.r.rd.valid then 1 else 0) <= 1
      && |lines| <= |Last(w.fetched)| <= job.total
      && (forall j :: 0 <= j < |Last(w.fetched)| ==> Last(w.fetched)[j] == LineAddr(job.base, j))
      && (forall j :: 0 <= j < |lines| ==>
            lines[j].addr == LineAddr(dest, j) && lines[j].data == Answer(mem, job, j))
      && (w.r.prog.partitionDone <==> |lines| == job.total)
      && (w.r.prog.partitionDone ==> |Last(w.fetched)| == job.total)
  {
    RunSession(d, mem, ws, es, dest, i);
  }

  /** For each line completed before state `i`, in order, whether the write channel was not
      almost full in the cycle in which it completed. */
  ghost function Openings(d: Design, ws: seq<World>, es: seq<Env>, i: nat): seq<bool>
    requires i < |ws| && i <= |es|
  {
    if i == 0 then []
    else Openings(d, ws, es, i - 1) + if Completing(d, ws[i - 1].r) then [!es[i - 1].c1Full] else []
  }

  /** Over the whole run, the cycles of `c1.valid` are exactly the completed lines that found the
      write channel open when they completed: none is written twice, none is retried. */
  lemma {:induction false} RunWrites(d: Design, mem: Memory, ws: seq<World>, es: seq<Env>, dest: nat, i: nat)
    requires PartitionRun(d, mem, ws, es, dest) && i < |ws| && ws[0].writes == AllIssued(ws[0].attempts)
    ensures ws[i].writes == AllIssued(ws[i].attempts)
    ensures Outcomes(ws[i].attempts) == Outcomes(ws[0].attempts) + Openings(d, ws, es, i)
  {
    hide Cycle, Outcomes, AllIssued;
    if i > 0 {
      RunWrites(d, mem, ws, es, dest, i - 1);
      WritesAreIssuedLines(d, mem, ws[i - 1], es[i - 1]);
      OutcomeIsOpening(d, mem, ws[i - 1], es[i - 1]);
    }
  }

  /** The cascade refines the whole-line filter in every state of a run: the line in hand is
      stable while it is processed, the finished stages are the first `k` and hold the first `k`
      slices of its comparison, and all stages are clear again before the next line. */
  lemma CascadeRefinesFilter(mem: Memory, ws: seq<World>, es: seq<Env>, dest: nat, i: nat)
    requires PartitionRun(Cascade, mem, ws, es, dest) && CanFinish(Cascade, ws[0].r.csr) && 1 <= i < |ws|
    ensures var r := ws[i].r; var line := mem(LineAddr(ws[0].r.csr.readBuff, r.prog.clsDone));
      && (r.state == PROCESSING ==>
            && r.rx.data == line
            && exists k :: 0 <= k <= 8
                 && CascadeAt(r.units, WideFilter(AtLeast(ws[0].r.csr.filterPred % 16), 4, line), k))
      && (r.state == REQ || r.state == RSP ==> r.units == ClearUnits(Cascade))
  {
    RunSession(Cascade, mem, ws, es, dest, i);
  }

  /** Which cycles of the run were stalled. */
  ghost function Stalls(mem: Memory, ws: seq<World>, es: seq<Env>): (flags: seq<bool>)
    requires |es| <= |ws|
    ensures |flags| == |es|
  {
    seq(|es|, i requires 0 <= i < |es| => Stalled(mem, ws[i], es[i]))
  }

  /** How many of the cycles from the one after acceptance up to cycle `i` were not stalled. */
  ghost function Unstalled(stalls: seq<bool>, i: nat): nat
    requires i <= |stalls|
  {
    if i <= 1 then 0 else Unstalled(stalls, i - 1) + if stalls[i - 1] then 0 else 1
  }

  /** One entry of a count that goes down to zero, pausing on stalled cycles. */
  ghost predicate CountsDown(before: int, after: int, stalled: bool) {
    before >= 0 && after == if before == 0 || stalled then before else before - 1
  }

  lemma {:induction false} CountDown(left: seq<int>, stalls: seq<bool>, budget: int, i: nat)
    requires 1 <= i < |left| <= |stalls| + 1 && left[1] == budget >= 0
    requires forall j, k :: 1 <= j < k <= i && k == j + 1 ==> CountsDown(left[j], left[k], stalls[j])
    ensures left[i] == if Unstalled(stalls, i) < budget then budget - Unstalled(stalls, i) else 0
  {
    if i > 1 {
      CountDown(left, stalls, budget, i - 1);
      assert CountsDown(left[i - 1], left[i], stalls[i - 1]);
    }
  }

  lemma RunTiming(d: Design, mem: Memory, ws: seq<World>, es: seq<Env>, job: Job, i: nat)
    requires PartitionRun(d, mem, ws, es, job.dest) && CanFinish(d, ws[0].r.csr) && 1 <= i <= |es|
    requires job == JobOf(d, ws[0].r.csr, job.dest)
    ensures var budget, n := LinesCost(d, job.total), Unstalled(Stalls(mem, ws, es), i);
            CyclesLeft(d, ws[i], job) == if n < budget then budget - n else 0
  {
    assert |ws| == |es| + 1 && LinesCost(d, job.total) >= 0;
    hide PartitionRun, CanFinish, JobOf, CyclesLeft, Stalled, CountsDown, Unstalled, LinesCost;
    var left := seq(|ws|, k requires 0 <= k < |ws| => CyclesLeft(d, ws[k], job));
    RunTimingStep(d, mem, ws, es, job, 1);
    forall j, k | 1 <= j < k <= i && k == j + 1 ensures CountsDown(left[j], left[k], Stalls(mem, ws, es)[j]) {
      RunTimingStep(d, mem, ws, es, job, k);
    }
    CountDown(left, Stalls(mem, ws, es), LinesCost(d, job.total), i);
  }

  lemma RunTimingStep(d: Design, mem: Memory, ws: seq<World>, es: seq<Env>, job: Job, i: nat)
    requires PartitionRun(d, mem, ws, es, job.dest) && CanFinish(d, ws[0].r.csr) && 1 <= i <= |es|
    requires job == JobOf(d, ws[0].r.csr, job.dest)
    ensures if i == 1 then CyclesLeft(d, ws[1], job) == LinesCost(d, job.total)
            else CountsDown(CyclesLeft(d, ws[i - 1], job), CyclesLeft(d, ws[i], job),
                            Stalled(mem, ws[i - 1], es[i - 1]))
  {
    hide CyclesLeft, SessionInv, CountsDown, Stalled;
    var w, e := ws[i - 1], es[i - 1];
    assert ws[i] == Cycle(d, mem, w, e);
    if i == 1 {
      TimingStart(d, mem, w, job, e);
    } else {
      RunSession(d, mem, ws, es, job.dest, i - 1);
      TimingStep(d, mem, w, job, e);
    }
  }

  lemma TimingStart(d: Design, mem: Memory, w: World, job: Job, e: Env)
    requires JobIs(d, w.r.csr.(newPartition := false), job) && w.r.csr.newPartition && Idle(d, w) && Quiet(e.wr)
    ensures CyclesLeft(d, Cycle(d, mem, w, e), job) == LinesCost(d, job.total)
  {
    AcceptCycle(d, mem, w, job, e);
  }

  lemma TimingStep(d: Design, mem: Memory, w: World, job: Job, e: Env)
    requires SessionInv(d, mem, w, job) && Quiet(e.wr)
    requires Completing(d, w.r) ==> w.r.csr.writeBuff == job.dest
    ensures CountsDown(CyclesLeft(d, w, job), CyclesLeft(d, Cycle(d, mem, w, e), job), Stalled(mem, w, e))
  {
    if FinishedInv(d, mem, w, job) {
      FinishedCycle(d, mem, w, job, e);
    } else {
      CycleProgress(d, mem, w, job, e);
    }
  }

  /** The first line cannot complete before six (cascade: thirteen) unstalled cycles have passed:
      so long the host has to deliver the result address after the partition was accepted. */
  lemma FirstCompletion(d: Design, mem: Memory, ws: seq<World>, es: seq<Env>, dest: nat, i: nat)
    requires PartitionRun(d, mem, ws, es, dest) && CanFinish(d, ws[0].r.csr) && 1 <= i <= |es|
    requires Completing(d, ws[i].r)
    ensures Unstalled(Stalls(mem, ws, es), i) >= LinesCost(d, 1) - 1
  {
    var job := JobOf(d, ws[0].r.csr, dest);
    hide Cycle;
    RunTiming(d, mem, ws, es, job, i);
    RunSession(d, mem, ws, es, dest, i);
    FilterProgress(d, ws[i].r, job.p, job.w);
  }

  lemma RunningLeft(d: Design, mem: Memory, w: World, job: Job)
    requires SessionInv(d, mem, w, job)
    ensures w.r.prog.partitionDone <==> CyclesLeft(d, w, job) <= 0
  {
    if !w.r.prog.partitionDone && w.r.state == PROCESSING { FilterProgress(d, w.r, job.p, job.w); }
  }

  /** Parameters with which no partition ever finishes: no line to read, more lines than the
      line counter can tell apart, or a column code without a filter. */
  ghost predicate Stuck(d: Design, r: Regs) {
    && !CanFinish(d, r.csr) && !r.csr.newPartition && !r.prog.partitionDone
    && r.prog.clsDone < CounterRange(d) && r.state != WAITING && UnitsTyped(d, r.units)
    && (Selected(d, r.csr).None? ==> r.state == IDLE || forall u :: 0 <= u < |r.units| ==> !r.units[u].done)
  }

  lemma StuckStays(d: Design, r: Regs, i: Inputs)
    requires Stuck(d, r) && !i.reset && i.active && Quiet(i.wr)
    ensures Stuck(d, Step(d, r, i))
  {
  }

  lemma {:induction false} RunStuck(d: Design, mem: Memory, ws: seq<World>, es: seq<Env>, dest: nat, i: nat)
    requires PartitionRun(d, mem, ws, es, dest) && !CanFinish(d, ws[0].r.csr) && 1 <= i < |ws|
    ensures Stuck(d, ws[i].r)
  {
    if i > 1 {
      RunStuck(d, mem, ws, es, dest, i - 1);
      StuckStays(d, ws[i - 1].r, TickInputs(mem, ws[i - 1], es[i - 1]));
    }
  }

  /** When exactly an accepted partition is done: its parameters name a filter and between 1
      and the counter's range of lines, and the environment has left the accelerator unstalled
      for a fixed number of cycles per line (7 in one design, 14 in the other). In particular
      it finishes whenever back-pressure ends and every read is answered. */
  lemma DoneExactlyWhen(d: Design, mem: Memory, ws: seq<World>, es: seq<Env>, dest: nat, i: nat)
    requires PartitionRun(d, mem, ws, es, dest) && 1 <= i <= |es|
    ensures var (total, unstalled) := (ws[0].r.csr.totalCls, Unstalled(Stalls(mem, ws, es), i));
      ws[i].r.prog.partitionDone <==>
        if d.Ssb? then ws[0].r.csr.scanColumn <= 2 && 1 <= total <= 0x8000_0000 && unstalled >= 7 * total
        else 1 <= total <= 64 && unstalled >= 14 * total
  {
    if CanFinish(d, ws[0].r.csr) {
      var job := JobOf(d, ws[0].r.csr, dest);
      RunTiming(d, mem, ws, es, job, i);
      RunSession(d, mem, ws, es, dest, i);
      RunningLeft(d, mem, ws[i], job);
    } else {
      RunStuck(d, mem, ws, es, dest, i);
    }
  }

  /** A partition that is done is given up at once: the accelerator waits again in the next
      cycle, and keeps waiting with its flag up until the next partition. */
  lemma ReturnsToWaiting(d: Design, mem: Memory, ws: seq<World>, es: seq<Env>, dest: nat, i: nat)
    requires PartitionRun(d, mem, ws, es, dest) && CanFinish(d, ws[0].r.csr) && 1 <= i < |es|
    requires ws[i].r.prog.partitionDone
    ensures ws[i + 1].r.state == WAITING && ws[i + 1].r.prog.partitionDone
    ensures ws[i + 1].fetched == ws[i].fetched && ws[i + 1].writes == ws[i].writes
  {
    RunSession(d, mem, ws, es, dest, i);
    FinishedCycle(d, mem, ws[i], JobOf(d, ws[0].r.csr, dest), es[i]);
    assert ws[i + 1] == Cycle(d, mem, ws[i], es[i]);
  }
}
