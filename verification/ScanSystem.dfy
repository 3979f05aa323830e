/** Host, CSR manager and scan accelerator together: the host sends the query parameters, then
    for every page writes the two buffer addresses and polls the done flag. All CSR traffic
    passes the CSR manager's registers, which cost a cycle each. */
module ScanSystem {
  import opened Wrappers
  import opened ScanAfu
  import opened ScanSession

  /** Byte addresses of a page's input and result buffers. */
  datatype Page = Page(readBuff: nat, writeBuff: nat)

  datatype Config = Config(total: nat, pred: nat, column: nat, pages: seq<Page>)

  ghost predicate ValidConfig(cfg: Config) { 1 <= cfg.total < 128 && cfg.column <= 2 }

  /** Where the host program is: the operation it issues next. */
  datatype Host = SendTotal | SendPred | SendColumn | SendPage(k: nat) | SendResult(k: nat) | Poll(k: nat) | Finished

  /** MMIO operations as the CSR manager registers them; application CSRs start at index 32. */
  datatype Mmio = NoOp | WriteCsr(csrIdx: nat, data: nat) | ReadCsr(csrIdx: nat)

  const USER_CSR_BASE := 32
  const NUM_APP_CSRS := 8

  /** The one-cycle `en` pulse the CSR manager raises for a write. */
  function PulseOf(op: Mmio): Pulse {
    if op.WriteCsr? && USER_CSR_BASE <= op.csrIdx < USER_CSR_BASE + NUM_APP_CSRS
    then Pulse(op.csrIdx - USER_CSR_BASE, op.data) else NoPulse
  }

  /** A write to one of the eight application CSRs, from index 32 on, and no other, pulses it. */
  lemma PulseExactlyWhen(op: Mmio, idx: nat, data: nat)
    ensures PulseOf(op) == Pulse(idx, data) <==> idx < 8 && op == WriteCsr(32 + idx, data)
  {
  }

  /** The value the CSR manager samples for a read: CSR 1 is `partition_processed`. */
  function Sample(r: Regs, csrIdx: nat): bool { csrIdx == USER_CSR_BASE + 1 && r.prog.partitionDone }

  /** The host program; page addresses come from `cfg`. */
  function HostOp(cfg: Config, h: Host): Mmio {
    match h
    case SendTotal => WriteCsr(USER_CSR_BASE + 0, cfg.total)
    case SendPred => WriteCsr(USER_CSR_BASE + 1, cfg.pred)
    case SendColumn => WriteCsr(USER_CSR_BASE + 2, cfg.column)
    case SendPage(k) => if k < |cfg.pages| then WriteCsr(USER_CSR_BASE + 4, cfg.pages[k].readBuff) else NoOp
    case SendResult(k) => if k < |cfg.pages| then WriteCsr(USER_CSR_BASE + 5, cfg.pages[k].writeBuff) else NoOp
    case Poll(_) => ReadCsr(USER_CSR_BASE + 1)
    case Finished => NoOp
  }

  function NextPage(cfg: Config, k: nat): Host { if k < |cfg.pages| then SendPage(k) else Finished }

  function HostNext(cfg: Config, h: Host, sampled: bool): Host {
    match h
    case SendTotal => SendPred
    case SendPred => SendColumn
    case SendColumn => NextPage(cfg, 0)
    case SendPage(k) => SendResult(k)
    case SendResult(k) => Poll(k)
    case Poll(k) => if sampled then NextPage(cfg, k + 1) else h
    case Finished => Finished
  }

  datatype Sys = Sys(w: World, wr: Pulse, host: Host)

  /** Per tick: whether the host's next operation has reached the CSR manager, back-pressure,
      and memory answers. */
  datatype SysEnv = SysEnv(arrives: bool, c0Full: bool, c1Full: bool, answer: Option<nat>)

  function EnvOf(s: Sys, e: SysEnv): Env { Env(s.wr, e.c0Full, e.c1Full, e.answer) }

  function Tick(cfg: Config, mem: Memory, s: Sys, e: SysEnv): Sys
    requires UnitsTyped(Ssb, s.w.r.units)
  {
    var op := if e.arrives then HostOp(cfg, s.host) else NoOp;
    Sys(Cycle(Ssb, mem, s.w, EnvOf(s, e)),
        PulseOf(op),
        if e.arrives then HostNext(cfg, s.host, op.ReadCsr? && Sample(s.w.r, op.csrIdx)) else s.host)
  }

  /** The CSR 4 pulse is still on its way into the accelerator's flags. */
  predicate InTransit(s: Sys) { (s.wr.Pulse? && s.wr.idx == 4) || s.w.r.csr.newPartition }

  /** A scan about to begin, with nothing logged for it yet: the accelerator waits, after a reset
      or after an earlier scan. Nothing lowers the done flag in between, so it may be up. */
  ghost predicate InitSys(s: Sys) {
    && Idle(Ssb, s.w) && !InTransit(s) && s.host.SendTotal?
    && s.w.fetched == [] && s.w.attempts == [] && s.w.writes == []
  }

  /** What the hardware leaves to timing: a poll is sampled no earlier than two cycles after the
      CSR 4 enable pulse, and the CSR 5 pulse is consumed before the page's first line completes. */
  predicate Disciplined(s: Sys, e: SysEnv) {
    && (e.arrives && s.host.Poll? ==> !InTransit(s))
    && (Completing(Ssb, s.w.r) ==> !s.host.SendResult? && !(s.wr.Pulse? && s.wr.idx == 5))
  }

  // ---------------------------------------------------------------------------------------
  // The inductive invariant

  function JobFor(cfg: Config, k: nat): Job
    requires k < |cfg.pages|
  {
    var (p, w) := UnitPred(Ssb, Params(false, 0, 0, cfg.total, cfg.pred % 256, cfg.column), cfg.column);
    Job(ClAddr(cfg.pages[k].readBuff), ClAddr(cfg.pages[k].writeBuff), cfg.total, p, w)
  }

  /** The parameter registers once the pulse in flight has landed. */
  function Effective(s: Sys): Params { NextParams(s.w.r.csr, Inputs(false, true, s.wr, false, false, None)) }

  ghost predicate QueryLanded(cfg: Config, c: Params) {
    c.totalCls == cfg.total && c.filterPred == cfg.pred % 256 && c.scanColumn == cfg.column
  }

  /** What the host has sent so far is, or is about to be, in the registers. */
  ghost predicate ParamsInv(cfg: Config, s: Sys) {
    var c := Effective(s);
    && (s.host.SendTotal? || c.totalCls == cfg.total)
    && (s.host.SendTotal? || s.host.SendPred? || c.filterPred == cfg.pred % 256)
    && (s.host.SendTotal? || s.host.SendPred? || s.host.SendColumn? || c.scanColumn == cfg.column)
    && ((s.host.SendResult? || s.host.Poll?) && s.host.k < |cfg.pages| ==>
          c.readBuff == ClAddr(cfg.pages[s.host.k].readBuff))
    && (s.host.Poll? && s.host.k < |cfg.pages| ==> c.writeBuff == ClAddr(cfg.pages[s.host.k].writeBuff))
    && ((s.host.SendPage? || s.host.SendResult?) && 0 < s.host.k <= |cfg.pages| ==>
          c.writeBuff == ClAddr(cfg.pages[s.host.k - 1].writeBuff))
  }

  /** The traffic of page `k` is complete: every line read once, in order, and every line's
      comparison offered once to the page's result buffer, in order. */
  ghost predicate PageDone(cfg: Config, mem: Memory, w: World, k: nat)
    requires k < |cfg.pages| && ValidConfig(cfg)
  {
    var job := JobFor(cfg, k);
    && k < |w.fetched| && k < |w.attempts|
    && |w.fetched[k]| == cfg.total && |w.attempts[k]| == cfg.total
    && (forall j :: 0 <= j < cfg.total ==> w.fetched[k][j] == LineAddr(job.base, j))
    && forall j :: 0 <= j < cfg.total ==>
         w.attempts[k][j].addr == LineAddr(job.dest, j) && w.attempts[k][j].data == Answer(mem, job, j)
  }

  ghost predicate PagesDone(cfg: Config, mem: Memory, w: World, n: nat)
    requires ValidConfig(cfg)
  {
    n <= |cfg.pages| && forall k :: 0 <= k < n ==> PageDone(cfg, mem, w, k)
  }

  /** The accelerator waits; `n` pages have been handled, and if any, the flag still says so. */
  ghost predicate Resting(s: Sys, n: nat) {
    && Idle(Ssb, s.w) && !s.w.r.csr.newPartition
    && |s.w.fetched| == n && |s.w.attempts| == n && (n > 0 ==> s.w.r.prog.partitionDone)
  }

  /** The address has been written but the partition is not accepted yet. */
  ghost predicate Arriving(cfg: Config, s: Sys, k: nat) {
    && k < |cfg.pages| && Idle(Ssb, s.w) && QueryLanded(cfg, s.w.r.csr)
    && |s.w.fetched| == k && |s.w.attempts| == k && (k > 0 ==> s.w.r.prog.partitionDone)
    && if s.w.r.csr.newPartition then Quiet(s.wr) else s.wr == Pulse(4, cfg.pages[k].readBuff)
  }

  ghost predicate Processing(cfg: Config, mem: Memory, s: Sys, k: nat) {
    && k < |cfg.pages| && Quiet(s.wr)
    && SessionInv(Ssb, mem, s.w, JobFor(cfg, k))
    && |s.w.fetched| == k + 1 && |s.w.attempts| == k + 1
  }

  ghost predicate StageInv(cfg: Config, mem: Memory, s: Sys)
    requires ValidConfig(cfg)
  {
    match s.host
    case SendPage(k) => k < |cfg.pages| && PagesDone(cfg, mem, s.w, k) && Resting(s, k) && !InTransit(s)
    case SendResult(k) =>
      PagesDone(cfg, mem, s.w, k) && (Arriving(cfg, s, k) || Processing(cfg, mem, s, k))
      && !(s.wr.Pulse? && s.wr.idx == 5)
    case Poll(k) => PagesDone(cfg, mem, s.w, k) && (Arriving(cfg, s, k) || Processing(cfg, mem, s, k))
    case Finished => PagesDone(cfg, mem, s.w, |cfg.pages|) && Resting(s, |cfg.pages|) && !InTransit(s)
    case _ => Resting(s, 0) && !InTransit(s)
  }

  ghost predicate SysInv(cfg: Config, mem: Memory, s: Sys)
    requires ValidConfig(cfg)
  {
    && UnitsTyped(Ssb, s.w.r.units)
    && s.w.writes == AllIssued(s.w.attempts)
    && ParamsInv(cfg, s) && StageInv(cfg, mem, s)
  }

  lemma InitInv(cfg: Config, mem: Memory, s: Sys)
    requires ValidConfig(cfg) && InitSys(s)
    ensures SysInv(cfg, mem, s)
  {
  }

  lemma ParamsKept(cfg: Config, mem: Memory, s: Sys, e: SysEnv)
    requires ValidConfig(cfg) && UnitsTyped(Ssb, s.w.r.units) && ParamsInv(cfg, s)
    ensures ParamsInv(cfg, Tick(cfg, mem, s, e))
  {
    assert Tick(cfg, mem, s, e).w.r.csr == Effective(s);
  }

  lemma PulseLands(cfg: Config, mem: Memory, s: Sys, e: SysEnv)
    requires UnitsTyped(Ssb, s.w.r.units)
    ensures Tick(cfg, mem, s, e).w.r.csr == Effective(s)
  {
  }

  /** A waiting accelerator with no partition announced stays as it is. */
  lemma RestCycle(mem: Memory, w: World, e: Env)
    requires Idle(Ssb, w) && !w.r.csr.newPartition
    ensures var w' := Cycle(Ssb, mem, w, e);
      && Idle(Ssb, w') && w'.fetched == w.fetched && w'.attempts == w.attempts
      && w'.r.prog.partitionDone == w.r.prog.partitionDone
      && w'.r.csr.newPartition == (e.wr.Pulse? && e.wr.idx == 4)
  {
  }

  lemma GroupsKept(mem: Memory, w: World, e: Env)
    requires UnitsTyped(Ssb, w.r.units) && !w.r.csr.newPartition && w.fetched != [] && w.attempts != []
    ensures var w' := Cycle(Ssb, mem, w, e);
      && |w'.fetched| == |w.fetched| && |w'.attempts| == |w.attempts|
      && (forall p :: 0 <= p < |w.fetched| - 1 ==> w'.fetched[p] == w.fetched[p])
      && (forall p :: 0 <= p < |w.attempts| - 1 ==> w'.attempts[p] == w.attempts[p])
  {
  }

  lemma SamePagesDone(cfg: Config, mem: Memory, w: World, w': World, n: nat)
    requires ValidConfig(cfg) && PagesDone(cfg, mem, w, n) && n <= |w'.fetched| && n <= |w'.attempts|
    requires n <= |w.fetched| && n <= |w.attempts|
    requires forall p :: 0 <= p < n ==> w'.fetched[p] == w.fetched[p] && w'.attempts[p] == w.attempts[p]
    ensures PagesDone(cfg, mem, w', n)
  {
    forall k | 0 <= k < n ensures PageDone(cfg, mem, w', k) {
      assert PageDone(cfg, mem, w, k);
    }
  }

  lemma QuietStage(cfg: Config, mem: Memory, s: Sys, e: SysEnv)
    requires ValidConfig(cfg) && SysInv(cfg, mem, s) && !s.host.SendResult? && !s.host.Poll?
    ensures StageInv(cfg, mem, Tick(cfg, mem, s, e))
  {
    hide PageDone, Cycle;
    RestCycle(mem, s.w, EnvOf(s, e));
    PulseLands(cfg, mem, s, e);
    var s' := Tick(cfg, mem, s, e);
    match s.host {
      case SendPage(k) => SamePagesDone(cfg, mem, s.w, s'.w, k);
      case Finished => SamePagesDone(cfg, mem, s.w, s'.w, |cfg.pages|);
      case _ =>
    }
  }

  lemma ArrivingStage(cfg: Config, mem: Memory, s: Sys, e: SysEnv, k: nat)
    requires ValidConfig(cfg) && SysInv(cfg, mem, s) && Disciplined(s, e)
    requires (s.host == SendResult(k) || s.host == Poll(k)) && k < |cfg.pages| && Arriving(cfg, s, k)
    ensures StageInv(cfg, mem, Tick(cfg, mem, s, e))
  {
    hide PageDone, Cycle, TrafficInv, RunningInv;
    var s' := Tick(cfg, mem, s, e);
    PulseLands(cfg, mem, s, e);
    if s.w.r.csr.newPartition {
      AcceptCycle(Ssb, mem, s.w, JobFor(cfg, k), EnvOf(s, e));
    } else {
      RestCycle(mem, s.w, EnvOf(s, e));
    }
    SamePagesDone(cfg, mem, s.w, s'.w, k);
  }

  lemma ProcessingCycle(cfg: Config, mem: Memory, s: Sys, e: SysEnv, k: nat)
    requires ValidConfig(cfg) && SysInv(cfg, mem, s) && Disciplined(s, e)
    requires (s.host == SendResult(k) || s.host == Poll(k)) && k < |cfg.pages| && Processing(cfg, mem, s, k)
    ensures var w' := Tick(cfg, mem, s, e).w;
      && SessionInv(Ssb, mem, w', JobFor(cfg, k)) && |w'.fetched| == k + 1 && |w'.attempts| == k + 1
      && PagesDone(cfg, mem, w', k)
  {
    assert Completing(Ssb, s.w.r) ==> s.w.r.csr.writeBuff == Effective(s).writeBuff;
    SessionCycle(Ssb, mem, s.w, JobFor(cfg, k), EnvOf(s, e));
    GroupsKept(mem, s.w, EnvOf(s, e));
    SamePagesDone(cfg, mem, s.w, Tick(cfg, mem, s, e).w, k);
  }

  lemma ProcessingStage(cfg: Config, mem: Memory, s: Sys, e: SysEnv, k: nat)
    requires ValidConfig(cfg) && SysInv(cfg, mem, s) && Disciplined(s, e)
    requires (s.host == SendResult(k) || s.host == Poll(k)) && k < |cfg.pages| && Processing(cfg, mem, s, k)
    ensures StageInv(cfg, mem, Tick(cfg, mem, s, e))
  {
    hide Cycle, TrafficInv, PageDone;
    ProcessingCycle(cfg, mem, s, e, k);
    if s.host.Poll? && e.arrives && s.w.r.prog.partitionDone {
      PageFinished(cfg, mem, s, e, k);
    }
  }

  /** Reading the done flag up means the page's traffic is complete. */
  lemma PageFinished(cfg: Config, mem: Memory, s: Sys, e: SysEnv, k: nat)
    requires ValidConfig(cfg) && SysInv(cfg, mem, s) && s.host == Poll(k) && e.arrives
    requires k < |cfg.pages| && Processing(cfg, mem, s, k) && s.w.r.prog.partitionDone
    requires PagesDone(cfg, mem, Tick(cfg, mem, s, e).w, k)
    ensures PageDone(cfg, mem, s.w, k)
    ensures PagesDone(cfg, mem, Tick(cfg, mem, s, e).w, k + 1)
    ensures Resting(Tick(cfg, mem, s, e), k + 1) && Tick(cfg, mem, s, e).wr.NoPulse?
  {
    hide Answer, RunningInv, Cycle, ParamsInv;
    DoneIsFinished(mem, s.w, JobFor(cfg, k));
    FinishedCycle(Ssb, mem, s.w, JobFor(cfg, k), EnvOf(s, e));
    NothingMore(mem, s.w, JobFor(cfg, k), EnvOf(s, e));
    var w' := Tick(cfg, mem, s, e).w;
    assert w'.fetched[k] == Last(w'.fetched) && w'.attempts[k] == Last(w'.attempts);
    assert PageDone(cfg, mem, w', k);
  }

  lemma DoneIsFinished(mem: Memory, w: World, job: Job)
    requires SessionInv(Ssb, mem, w, job) && w.r.prog.partitionDone
    ensures TrafficInv(mem, w, job) && FinishedInv(Ssb, mem, w, job)
  {
    hide TrafficInv, PhaseInv;
  }

  lemma NothingMore(mem: Memory, w: World, job: Job, e: Env)
    requires FinishedInv(Ssb, mem, w, job)
    ensures var w' := Cycle(Ssb, mem, w, e);
      w'.fetched == w.fetched && w'.attempts == w.attempts && !w'.r.rd.valid
  {
    hide NextUnits, NextParams;
  }

  lemma SysStep(cfg: Config, mem: Memory, s: Sys, e: SysEnv)
    requires ValidConfig(cfg) && SysInv(cfg, mem, s) && Disciplined(s, e)
    ensures SysInv(cfg, mem, Tick(cfg, mem, s, e))
  {
    WritesAreIssuedLines(Ssb, mem, s.w, EnvOf(s, e));
    ParamsKept(cfg, mem, s, e);
    if s.host.SendResult? || s.host.Poll? {
      if Arriving(cfg, s, s.host.k) { ArrivingStage(cfg, mem, s, e, s.host.k); }
      else { ProcessingStage(cfg, mem, s, e, s.host.k); }
    } else {
      QuietStage(cfg, mem, s, e);
    }
  }

  // ---------------------------------------------------------------------------------------
  // Whole runs

  ghost predicate SysRun(cfg: Config, mem: Memory, ss: seq<Sys>, es: seq<SysEnv>) {
    && |ss| == |es| + 1 && InitSys(ss[0])
    && (forall i :: 0 <= i < |ss| ==> UnitsTyped(Ssb, ss[i].w.r.units))
    && (forall i :: 0 <= i < |es| ==> Disciplined(ss[i], es[i]) && ss[i + 1] == Tick(cfg, mem, ss[i], es[i]))
  }

  lemma {:induction false} RunInv(cfg: Config, mem: Memory, ss: seq<Sys>, es: seq<SysEnv>, i: nat)
    requires ValidConfig(cfg) && SysRun(cfg, mem, ss, es) && i < |ss|
    ensures SysInv(cfg, mem, ss[i])
  {
    if i == 0 {
      InitInv(cfg, mem, ss[0]);
    } else {
      RunInv(cfg, mem, ss, es, i - 1);
      SysStep(cfg, mem, ss[i - 1], es[i - 1]);
    }
  }

  /** Everything written so far belongs to the page it was computed from: group `k` of the
      completed lines lies in page `k`'s result buffer and holds page `k`'s comparisons. */
  ghost predicate WritesInPlace(cfg: Config, mem: Memory, w: World)
    requires ValidConfig(cfg)
  {
    && |w.attempts| <= |cfg.pages| && w.writes == AllIssued(w.attempts)
    && forall k :: 0 <= k < |w.attempts| ==> AnswersPage(cfg, mem, w.attempts[k], k)
  }

  ghost predicate AnswersPage(cfg: Config, mem: Memory, lines: seq<Attempt>, k: nat)
    requires ValidConfig(cfg) && k < |cfg.pages|
  {
    && |lines| <= cfg.total
    && forall j :: 0 <= j < |lines| ==>
         lines[j].addr == LineAddr(ClAddr(cfg.pages[k].writeBuff), j) && lines[j].data == Answer(mem, JobFor(cfg, k), j)
  }

  lemma InvWritesInPlace(cfg: Config, mem: Memory, s: Sys)
    requires ValidConfig(cfg) && SysInv(cfg, mem, s)
    ensures WritesInPlace(cfg, mem, s.w)
  {
    hide SysInv, AnswersPage;
    GroupsAndWrites(cfg, mem, s);
    forall k | 0 <= k < |s.w.attempts| ensures AnswersPage(cfg, mem, s.w.attempts[k], k) {
      WhereWritten(cfg, mem, s, k);
    }
  }

  lemma GroupsAndWrites(cfg: Config, mem: Memory, s: Sys)
    requires ValidConfig(cfg) && SysInv(cfg, mem, s)
    ensures |s.w.attempts| <= |cfg.pages| && s.w.writes == AllIssued(s.w.attempts)
  {
    hide ParamsInv, PageDone, TrafficInv, RunningInv, FinishedInv;
  }

  /** A group is that of a page done, or of the page in hand. */
  lemma WhereWritten(cfg: Config, mem: Memory, s: Sys, k: nat)
    requires ValidConfig(cfg) && SysInv(cfg, mem, s) && k < |s.w.attempts|
    ensures k < |cfg.pages| && AnswersPage(cfg, mem, s.w.attempts[k], k)
  {
    hide ParamsInv, PhaseInv, Answer, LineAddr, ClAddr, UnitsOk;
    if k + 1 == |s.w.attempts| && (s.host.SendResult? || s.host.Poll?) && !Arriving(cfg, s, s.host.k) {
      assert s.w.attempts[k] == Last(s.w.attempts);
    } else {
      assert PageDone(cfg, mem, s.w, k);
    }
  }

  /** The handshake over a whole run: a new partition is only ever seen by a waiting
      accelerator, a poll that reads the flag up is about the page it was sent for, every write
      goes to the page it answers, and a host that is through its program has every page done. */
  lemma HandshakeIsSafe(cfg: Config, mem: Memory, ss: seq<Sys>, es: seq<SysEnv>, i: nat)
    requires ValidConfig(cfg) && SysRun(cfg, mem, ss, es) && i < |ss|
    ensures ss[i].w.r.csr.newPartition ==> Idle(Ssb, ss[i].w)
    ensures i < |es| && es[i].arrives && ss[i].host.Poll? && Sample(ss[i].w.r, USER_CSR_BASE + 1) ==>
              ss[i].host.k < |cfg.pages| && PageDone(cfg, mem, ss[i].w, ss[i].host.k)
    ensures WritesInPlace(cfg, mem, ss[i].w)
    ensures ss[i].host.Finished? ==> |ss[i].w.attempts| == |cfg.pages| && PagesDone(cfg, mem, ss[i].w, |cfg.pages|)
  {
    RunInv(cfg, mem, ss, es, i);
    InvWritesInPlace(cfg, mem, ss[i]);
    if i < |es| && es[i].arrives && ss[i].host.Poll? {
      StaleExactlyInTransit(cfg, mem, ss[i]);
    }
  }

  /** Why polls must keep their distance: in any state the discipline can lead to, a poll that
      reads the flag up reads another page's exactly when the CSR 4 pulse has not yet reached the
      flag. After an earlier page the flag is always up then; before the first page it is up when
      an earlier scan left it so. */
  lemma StaleExactlyInTransit(cfg: Config, mem: Memory, s: Sys)
    requires ValidConfig(cfg) && SysInv(cfg, mem, s) && s.host.Poll?
    ensures s.host.k < |cfg.pages|
    ensures Sample(s.w.r, USER_CSR_BASE + 1) && !PageDone(cfg, mem, s.w, s.host.k)
            <==> s.w.r.prog.partitionDone && InTransit(s)
    ensures s.host.k > 0 && InTransit(s) ==> s.w.r.prog.partitionDone
  {
  }

  /** An environment in which the host's operation arrives and nothing else happens. */
  function Prompt(): SysEnv { SysEnv(true, false, false, None) }

  /** Such a poll is two ticks away from every state in which the host sends a page with the flag
      up: every later page, and the first page of a scan after another. */
  lemma StalePollIsNear(cfg: Config, mem: Memory, s: Sys)
    requires ValidConfig(cfg) && SysInv(cfg, mem, s) && s.host.SendPage?
    requires s.host.k > 0 || s.w.r.prog.partitionDone
    ensures Disciplined(s, Prompt()) && UnitsTyped(Ssb, Tick(cfg, mem, s, Prompt()).w.r.units)
    ensures var s1 := Tick(cfg, mem, s, Prompt());
      && Disciplined(s1, Prompt()) && UnitsTyped(Ssb, Tick(cfg, mem, s1, Prompt()).w.r.units)
      && var s2 := Tick(cfg, mem, s1, Prompt());
         && s2.host == Poll(s.host.k) && s.host.k < |cfg.pages| && InTransit(s2)
         && Sample(s2.w.r, USER_CSR_BASE + 1) && !PageDone(cfg, mem, s2.w, s.host.k)
  {
    hide TrafficInv, RunningInv, FinishedInv, PageDone, Cycle;
    SysStep(cfg, mem, s, Prompt());
    var s1 := Tick(cfg, mem, s, Prompt());
    FirstTick(cfg, mem, s);
    SysStep(cfg, mem, s1, Prompt());
    var s2 := Tick(cfg, mem, s1, Prompt());
    SecondTick(cfg, mem, s1);
    StaleExactlyInTransit(cfg, mem, s2);
  }

  lemma FirstTick(cfg: Config, mem: Memory, s: Sys)
    requires ValidConfig(cfg) && SysInv(cfg, mem, s) && s.host.SendPage?
    ensures var s1 := Tick(cfg, mem, s, Prompt());
      && s1.host == SendResult(s.host.k) && s1.wr.Pulse? && s1.wr.idx == 4
      && Idle(Ssb, s1.w) && s1.w.r.prog.partitionDone == s.w.r.prog.partitionDone
  {
    RestCycle(mem, s.w, EnvOf(s, Prompt()));
    hide Cycle, PagesDone;
  }

  lemma SecondTick(cfg: Config, mem: Memory, s: Sys)
    requires s.host.SendResult? && s.wr.Pulse? && s.wr.idx == 4 && Idle(Ssb, s.w) && !s.w.r.csr.newPartition
    ensures var s2 := Tick(cfg, mem, s, Prompt());
      s2.host == Poll(s.host.k) && InTransit(s2) && s2.w.r.prog.partitionDone == s.w.r.prog.partitionDone
  {
    RestCycle(mem, s.w, EnvOf(s, Prompt()));
    hide Cycle;
  }

  /** Why the result address must not be late: a line that completes before the host has sent it
      goes to the same line of the page before's result buffer (or, on the first page, wherever an
      earlier scan pointed), over that page's result. */
  lemma LateAddressMisplaces(cfg: Config, mem: Memory, s: Sys, e: SysEnv)
    requires ValidConfig(cfg) && SysInv(cfg, mem, s) && s.host.SendResult? && Completing(Ssb, s.w.r)
    ensures var (k, j) := (s.host.k, |Last(s.w.attempts)|);
      && k < |cfg.pages|
      && Last(Tick(cfg, mem, s, e).w.attempts)
         == Last(s.w.attempts)
            + [Attempt(LineAddr(s.w.r.csr.writeBuff, j), Answer(mem, JobFor(cfg, k), j), !e.c1Full)]
      && (k > 0 ==> s.w.r.csr.writeBuff == ClAddr(cfg.pages[k - 1].writeBuff))
  {
    hide PageDone, Cycle, Answer, LineAddr;
    NotYetSent(cfg, mem, s);
    LineCompleted(Ssb, mem, s.w, JobFor(cfg, s.host.k), EnvOf(s, e));
  }

  lemma NotYetSent(cfg: Config, mem: Memory, s: Sys)
    requires ValidConfig(cfg) && SysInv(cfg, mem, s) && s.host.SendResult? && Completing(Ssb, s.w.r)
    ensures s.host.k < |cfg.pages| && TrafficInv(mem, s.w, JobFor(cfg, s.host.k))
    ensures RunningInv(Ssb, mem, s.w, JobFor(cfg, s.host.k))
    ensures s.w.r.csr.writeBuff == Effective(s).writeBuff
  {
    hide PagesDone, TrafficInv;
  }

  /** For each line completed before state `i`, in order, whether the write channel was not
      almost full in the tick in which it completed. */
  ghost function SysOpenings(ss: seq<Sys>, es: seq<SysEnv>, i: nat): seq<bool>
    requires i < |ss| && i <= |es|
  {
    if i == 0 then []
    else SysOpenings(ss, es, i - 1) + if Completing(Ssb, ss[i - 1].w.r) then [!es[i - 1].c1Full] else []
  }

  /** Whether a line is issued is up to the write channel alone, in the tick that completes it. */
  lemma {:induction false} OutcomesAreOpenings(cfg: Config, mem: Memory, ss: seq<Sys>, es: seq<SysEnv>, i: nat)
    requires SysRun(cfg, mem, ss, es) && i < |ss|
    ensures Outcomes(ss[i].w.attempts) == SysOpenings(ss, es, i)
  {
    hide Outcomes, Disciplined, Cycle;
    if i == 0 {
      NoOutcomes();
    } else {
      OutcomesAreOpenings(cfg, mem, ss, es, i - 1);
      OutcomeIsOpening(Ssb, mem, ss[i - 1].w, EnvOf(ss[i - 1], es[i - 1]));
    }
  }

  /** When exactly line `j` of the `k`-th page sent is issued. */
  lemma IssuedExactlyWhen(cfg: Config, mem: Memory, ss: seq<Sys>, es: seq<SysEnv>, i: nat, k: nat, j: nat)
    requires ValidConfig(cfg) && SysRun(cfg, mem, ss, es) && i < |ss|
    requires k < |ss[i].w.attempts| && j < |ss[i].w.attempts[k]|
    ensures k * cfg.total + j < |SysOpenings(ss, es, i)|
    ensures ss[i].w.attempts[k][j].issued <==> SysOpenings(ss, es, i)[k * cfg.total + j]
  {
    hide SysRun, SysInv, SysOpenings, Outcomes;
    RunInv(cfg, mem, ss, es, i);
    FullGroups(cfg, mem, ss[i]);
    OutcomesAreOpenings(cfg, mem, ss, es, i);
    OutcomeAt(ss[i].w.attempts, 0, cfg.total, k, j);
  }

  /** All pages before the one in hand have been answered in full. */
  lemma FullGroups(cfg: Config, mem: Memory, s: Sys)
    requires ValidConfig(cfg) && SysInv(cfg, mem, s)
    ensures forall g :: 0 <= g < |s.w.attempts| - 1 ==> |s.w.attempts[g]| == cfg.total
  {
    forall g | 0 <= g < |s.w.attempts| - 1 ensures |s.w.attempts[g]| == cfg.total {
      assert PageDone(cfg, mem, s.w, g);
    }
  }

  /** What an earlier scan leaves behind: the same accelerator with the logs started afresh. */
  function Anew(s: Sys): Sys { s.(w := s.w.(fetched := [], attempts := [], writes := []), host := SendTotal) }

  /** Scans follow each other without a reset: a host that is through may begin the next scan, and
      begins it with the flag up if the scan before had a page. */
  lemma NextScanMayBegin(cfg: Config, mem: Memory, ss: seq<Sys>, es: seq<SysEnv>, i: nat)
    requires ValidConfig(cfg) && SysRun(cfg, mem, ss, es) && i < |ss| && ss[i].host.Finished?
    ensures InitSys(Anew(ss[i])) && (cfg.pages != [] ==> Anew(ss[i]).w.r.prog.partitionDone)
  {
    RunInv(cfg, mem, ss, es, i);
  }

  // ---------------------------------------------------------------------------------------
  // The same system as stateful components

  /** `is_csr_write`/`is_csr_read` decoded into the registered pulse and the sampled value. */
  class CsrManager {
    var wr: Pulse

    constructor ()
      ensures wr == NoPulse
    {
      wr := NoPulse;
    }

    method Clock(op: Mmio, r: Regs) returns (sampled: bool)
      modifies this
      ensures wr == PulseOf(op)
      ensures sampled == (op.ReadCsr? && Sample(r, op.csrIdx))
    {
      wr, sampled := NoPulse, false;
      match op {
        case WriteCsr(idx, data) =>
          if USER_CSR_BASE <= idx && idx < USER_CSR_BASE + NUM_APP_CSRS { wr := Pulse(idx - USER_CSR_BASE, data); }
        case ReadCsr(idx) => sampled := idx == USER_CSR_BASE + 1 && r.prog.partitionDone;
        case NoOp =>
      }
    }
  }

  class System {
    const cfg: Config
    const mem: Memory
    const unit: ScanUnit
    const manager: CsrManager
    var host: Host
    var pending: seq<nat>
    var fetched: seq<seq<nat>>
    var attempts: seq<seq<Attempt>>
    var writes: seq<Write>

    function Snapshot(): Sys
      reads this, unit, manager
    {
      Sys(World(unit.Snapshot(), pending, fetched, attempts, writes), manager.wr, host)
    }

    constructor (cfg: Config, mem: Memory)
      ensures this.cfg == cfg && this.mem == mem && unit.design == Ssb && fresh(unit) && fresh(manager)
      ensures InitSys(Snapshot())
    {
      this.cfg, this.mem := cfg, mem;
      unit := new ScanUnit(Ssb);
      manager := new CsrManager();
      host, pending, fetched, attempts, writes := SendTotal, [], [], [], [];
    }

    /** The accelerator's clock edge, with the memory behind it and the record of the traffic. */
    method Clock(e: Env)
      requires unit.design == Ssb && UnitsTyped(Ssb, unit.units)
      modifies this, unit
      ensures Snapshot().w == Cycle(Ssb, mem, old(Snapshot().w), e)
      ensures host == old(host) && UnitsTyped(Ssb, unit.units)
    {
      var before := unit.Snapshot();
      unit.Tick(Inputs(false, true, e.wr, e.c0Full, e.c1Full, Response(mem, pending, e.answer)));
      pending := Answered(pending, e.answer) + (if before.rd.valid then [before.rd.addr] else []);
      if before.csr.newPartition { fetched, attempts := fetched + [[]], attempts + [[]]; }
      if unit.rd.valid { fetched := AppendLast(fetched, unit.rd.addr); }
      if Completing(Ssb, before) {
        attempts := AppendLast(attempts, Attempt(unit.wr.addr, unit.wr.data, unit.wr.valid));
      }
      if unit.wr.valid { writes := writes + [Write(unit.wr.addr, unit.wr.data)]; }
    }

    method Step(e: SysEnv)
      requires unit.design == Ssb && UnitsTyped(Ssb, unit.units)
      modifies this, unit, manager
      ensures Snapshot() == Tick(cfg, mem, old(Snapshot()), e) && UnitsTyped(Ssb, unit.units)
    {
      var before := unit.Snapshot();
      Clock(Env(manager.wr, e.c0Full, e.c1Full, e.answer));
      var sampled := manager.Clock(if e.arrives then HostOp(cfg, host) else NoOp, before);
      if e.arrives { host := HostNext(cfg, host, sampled); }
    }
  }
}
