/** The whole query comes to an end: every tick moves the host, the accelerator, or neither, and
    the number of moves from start to finish is fixed by the query. */
module ScanProgress {
  import opened Wrappers
  import opened ScanAfu
  import opened ScanSession
  import opened ScanSystem

  /** Moves of one page: its lines, two of the address pulse, three of the host. */
  function PageCost(cfg: Config): nat { LinesCost(Ssb, cfg.total) + 5 }

  function PagesCost(cfg: Config, n: int): nat {
    if n <= 0 then 0 else PageCost(cfg) + PagesCost(cfg, n - 1)
  }

  /** Moves the accelerator has left for the page in hand. */
  ghost function UnitLeft(cfg: Config, s: Sys, k: nat): int
    requires k < |cfg.pages|
  {
    if s.wr.Pulse? && s.wr.idx == 4 then LinesCost(Ssb, cfg.total) + 2
    else if s.w.r.csr.newPartition then LinesCost(Ssb, cfg.total) + 1
    else CyclesLeft(Ssb, s.w, JobFor(cfg, k))
  }

  /** Moves left altogether, with `unit` of them the accelerator's on the page in hand. */
  function Budget(cfg: Config, h: Host, unit: int): int {
    var n := |cfg.pages|;
    match h
    case SendTotal => 3 + PagesCost(cfg, n)
    case SendPred => 2 + PagesCost(cfg, n)
    case SendColumn => 1 + PagesCost(cfg, n)
    case SendPage(k) => PagesCost(cfg, n - k)
    case SendResult(k) => PagesCost(cfg, n - k - 1) + 2 + unit
    case Poll(k) => PagesCost(cfg, n - k - 1) + 1 + unit
    case Finished => 0
  }

  ghost function MovesLeft(cfg: Config, s: Sys): int {
    var handling := (s.host.SendResult? || s.host.Poll?) && s.host.k < |cfg.pages|;
    Budget(cfg, s.host, if handling then UnitLeft(cfg, s, s.host.k) else 0)
  }

  /** The host goes on: an operation arrives, and if it is a poll it reads the flag up. */
  predicate HostMoves(s: Sys, e: SysEnv) {
    e.arrives && !s.host.Finished? && (s.host.Poll? ==> s.w.r.prog.partitionDone)
  }

  /** The accelerator goes on with the page in hand. */
  predicate UnitMoves(mem: Memory, s: Sys, e: SysEnv) {
    && (s.host.SendResult? || s.host.Poll?)
    && (InTransit(s) || (!s.w.r.prog.partitionDone && !Stalled(mem, s.w, EnvOf(s, e))))
  }

  function Moves(mem: Memory, s: Sys, e: SysEnv): nat {
    (if HostMoves(s, e) then 1 else 0) + (if UnitMoves(mem, s, e) then 1 else 0)
  }

  lemma UnitProgress(cfg: Config, mem: Memory, s: Sys, e: SysEnv, k: nat)
    requires ValidConfig(cfg) && SysInv(cfg, mem, s) && Disciplined(s, e)
    requires k < |cfg.pages| && (s.host == SendResult(k) || s.host == Poll(k))
    requires !(s.host.Poll? && HostMoves(s, e))
    ensures UnitLeft(cfg, Tick(cfg, mem, s, e), k) == UnitLeft(cfg, s, k) - if UnitMoves(mem, s, e) then 1 else 0
  {
    hide TrafficInv, RunningInv, FinishedInv, PagesDone, CyclesLeft;
    if Arriving(cfg, s, k) {
      ArrivingProgress(cfg, mem, s, e, k);
    } else {
      RunningProgress(cfg, mem, s, e, k);
    }
  }

  lemma ArrivingProgress(cfg: Config, mem: Memory, s: Sys, e: SysEnv, k: nat)
    requires ValidConfig(cfg) && SysInv(cfg, mem, s) && Disciplined(s, e) && k < |cfg.pages| && Arriving(cfg, s, k)
    requires s.host == SendResult(k) || s.host == Poll(k)
    ensures UnitLeft(cfg, Tick(cfg, mem, s, e), k) == UnitLeft(cfg, s, k) - 1
  {
    hide PagesDone, TrafficInv, RunningInv, LinesCost, CyclesLeft;
    if s.w.r.csr.newPartition {
      TimingStart(Ssb, mem, s.w, JobFor(cfg, k), EnvOf(s, e));
    } else {
      RestCycle(mem, s.w, EnvOf(s, e));
    }
  }

  lemma RunningProgress(cfg: Config, mem: Memory, s: Sys, e: SysEnv, k: nat)
    requires ValidConfig(cfg) && SysInv(cfg, mem, s) && Disciplined(s, e) && k < |cfg.pages|
    requires Processing(cfg, mem, s, k) && (s.host == SendResult(k) || s.host == Poll(k))
    requires !(s.host.Poll? && HostMoves(s, e))
    ensures UnitLeft(cfg, Tick(cfg, mem, s, e), k) == UnitLeft(cfg, s, k) - if UnitMoves(mem, s, e) then 1 else 0
  {
    var job := JobFor(cfg, k);
    assert Completing(Ssb, s.w.r) ==> s.w.r.csr.writeBuff == Effective(s).writeBuff;
    TimingStep(Ssb, mem, s.w, job, EnvOf(s, e));
    RunningLeft(Ssb, mem, s.w, job);
    Announced(mem, s, e, cfg);
    hide TrafficInv, RunningInv, FinishedInv, PagesDone, CyclesLeft, Cycle;
  }

  /** No new partition is announced while one is being processed. */
  lemma Announced(mem: Memory, s: Sys, e: SysEnv, cfg: Config)
    requires Quiet(s.wr) && UnitsTyped(Ssb, s.w.r.units) && (s.host.SendResult? || s.host.Poll?)
    requires !(s.host.Poll? && HostMoves(s, e))
    ensures !InTransit(Tick(cfg, mem, s, e))
  {
  }

  /** Every disciplined tick uses up exactly as many of the moves left as it makes. */
  lemma TickProgress(cfg: Config, mem: Memory, s: Sys, e: SysEnv)
    requires ValidConfig(cfg) && SysInv(cfg, mem, s) && Disciplined(s, e)
    ensures MovesLeft(cfg, Tick(cfg, mem, s, e)) == MovesLeft(cfg, s) - Moves(mem, s, e)
  {
    hide SysInv, Cycle, UnitLeft;
    if !s.host.SendResult? && !s.host.Poll? {
      HostSends(cfg, mem, s, e);
    } else if s.host.Poll? && HostMoves(s, e) {
      PageOver(cfg, mem, s, e);
    } else {
      PageGoesOn(cfg, mem, s, e);
    }
  }

  lemma HostSends(cfg: Config, mem: Memory, s: Sys, e: SysEnv)
    requires ValidConfig(cfg) && SysInv(cfg, mem, s) && !s.host.SendResult? && !s.host.Poll?
    ensures MovesLeft(cfg, Tick(cfg, mem, s, e)) == MovesLeft(cfg, s) - Moves(mem, s, e)
  {
    hide Cycle, PagesDone, ParamsInv, SessionInv;
  }

  lemma PageGoesOn(cfg: Config, mem: Memory, s: Sys, e: SysEnv)
    requires ValidConfig(cfg) && SysInv(cfg, mem, s) && Disciplined(s, e)
    requires (s.host.SendResult? || s.host.Poll?) && !(s.host.Poll? && HostMoves(s, e))
    ensures MovesLeft(cfg, Tick(cfg, mem, s, e)) == MovesLeft(cfg, s) - Moves(mem, s, e)
  {
    hide UnitLeft, Tick, SysInv, Disciplined, PagesCost, UnitMoves, HostMoves;
    SamePage(cfg, mem, s, e);
    UnitProgress(cfg, mem, s, e, s.host.k);
  }

  lemma SamePage(cfg: Config, mem: Memory, s: Sys, e: SysEnv)
    requires ValidConfig(cfg) && SysInv(cfg, mem, s)
    requires (s.host.SendResult? || s.host.Poll?) && !(s.host.Poll? && HostMoves(s, e))
    ensures s.host.k < |cfg.pages|
    ensures Tick(cfg, mem, s, e).host == if HostMoves(s, e) then Poll(s.host.k) else s.host
    ensures HostMoves(s, e) ==> s.host.SendResult?
  {
    hide Cycle, PagesDone, ParamsInv, SessionInv;
  }

  /** A poll that reads the flag up ends the page with no move of the accelerator left. */
  lemma PageOver(cfg: Config, mem: Memory, s: Sys, e: SysEnv)
    requires ValidConfig(cfg) && SysInv(cfg, mem, s) && Disciplined(s, e) && s.host.Poll? && HostMoves(s, e)
    ensures MovesLeft(cfg, Tick(cfg, mem, s, e)) == MovesLeft(cfg, s) - 1 && !UnitMoves(mem, s, e)
  {
    hide TrafficInv, RunningInv, FinishedInv, PagesDone, Cycle;
  }

  lemma LeftIsPositive(cfg: Config, mem: Memory, s: Sys)
    requires ValidConfig(cfg) && SysInv(cfg, mem, s)
    ensures MovesLeft(cfg, s) >= 0 && (MovesLeft(cfg, s) == 0 <==> s.host.Finished?)
  {
    if s.host.SendResult? || s.host.Poll? {
      var k := s.host.k;
      if Processing(cfg, mem, s, k) { RunningLeft(Ssb, mem, s.w, JobFor(cfg, k)); }
    }
    hide TrafficInv, RunningInv, FinishedInv, PagesDone, CyclesLeft, Cycle;
  }

  ghost function MovesMade(mem: Memory, ss: seq<Sys>, es: seq<SysEnv>, i: nat): nat
    requires i <= |es| <= |ss|
  {
    if i == 0 then 0 else MovesMade(mem, ss, es, i - 1) + Moves(mem, ss[i - 1], es[i - 1])
  }

  lemma {:induction false} RunMoves(cfg: Config, mem: Memory, ss: seq<Sys>, es: seq<SysEnv>, i: nat)
    requires ValidConfig(cfg) && SysRun(cfg, mem, ss, es) && i <= |es|
    ensures MovesLeft(cfg, ss[i]) == MovesLeft(cfg, ss[0]) - MovesMade(mem, ss, es, i)
  {
    hide Tick, MovesLeft, Moves;
    if i > 0 {
      RunMoves(cfg, mem, ss, es, i - 1);
      RunInv(cfg, mem, ss, es, i - 1);
      TickProgress(cfg, mem, ss[i - 1], es[i - 1]);
    }
  }

  /** The query is through exactly when `3 + pages * (7 * lines + 5)` moves have been made. */
  lemma FinishedExactlyWhen(cfg: Config, mem: Memory, ss: seq<Sys>, es: seq<SysEnv>, i: nat)
    requires ValidConfig(cfg) && SysRun(cfg, mem, ss, es) && i <= |es|
    ensures MovesMade(mem, ss, es, i) <= 3 + PagesCost(cfg, |cfg.pages|)
    ensures ss[i].host.Finished? <==> MovesMade(mem, ss, es, i) == 3 + PagesCost(cfg, |cfg.pages|)
  {
    RunMoves(cfg, mem, ss, es, i);
    RunInv(cfg, mem, ss, es, i);
    LeftIsPositive(cfg, mem, ss[i]);
  }

  /** An environment that holds nothing up: no back-pressure on reads, the oldest outstanding
      read is answered, and the host's operation arrives as soon as it may. */
  ghost predicate Helpful(s: Sys, e: SysEnv) {
    && !e.c0Full && (s.w.pending != [] ==> e.answer == Some(0)) && (!InTransit(s) ==> e.arrives)
  }

  /** Nothing can hang: in every reachable state short of the end, a helpful tick is a move. */
  lemma HelpfulTickMoves(cfg: Config, mem: Memory, s: Sys, e: SysEnv)
    requires ValidConfig(cfg) && SysInv(cfg, mem, s) && Disciplined(s, e) && Helpful(s, e) && !s.host.Finished?
    ensures Moves(mem, s, e) >= 1
  {
    hide TrafficInv, PagesDone, UnitsOk, Cycle, Answer;
  }

  ghost function HelpfulTicks(ss: seq<Sys>, es: seq<SysEnv>, i: nat): nat
    requires i <= |es| <= |ss|
  {
    if i == 0 then 0 else HelpfulTicks(ss, es, i - 1) + if Helpful(ss[i - 1], es[i - 1]) then 1 else 0
  }

  lemma StaysFinished(cfg: Config, mem: Memory, s: Sys, e: SysEnv)
    requires UnitsTyped(Ssb, s.w.r.units) && s.host.Finished?
    ensures Tick(cfg, mem, s, e).host.Finished?
  {
    hide Cycle;
  }

  lemma {:induction false} HelpfulTicksMove(cfg: Config, mem: Memory, ss: seq<Sys>, es: seq<SysEnv>, i: nat)
    requires ValidConfig(cfg) && SysRun(cfg, mem, ss, es) && i <= |es|
    ensures ss[i].host.Finished? || MovesMade(mem, ss, es, i) >= HelpfulTicks(ss, es, i)
  {
    hide Moves, Helpful, SysInv, Tick, Disciplined, InitSys;
    if i > 0 {
      HelpfulTicksMove(cfg, mem, ss, es, i - 1);
      RunInv(cfg, mem, ss, es, i - 1);
      assert ss[i] == Tick(cfg, mem, ss[i - 1], es[i - 1]);
      if ss[i - 1].host.Finished? {
        StaysFinished(cfg, mem, ss[i - 1], es[i - 1]);
      } else if Helpful(ss[i - 1], es[i - 1]) {
        HelpfulTickMoves(cfg, mem, ss[i - 1], es[i - 1]);
      }
    }
  }

  /** The query terminates: however the environment behaves in between, it is through once it
      has seen `3 + pages * (7 * lines + 5)` helpful ticks. */
  lemma QueryTerminates(cfg: Config, mem: Memory, ss: seq<Sys>, es: seq<SysEnv>, i: nat)
    requires ValidConfig(cfg) && SysRun(cfg, mem, ss, es) && i <= |es|
    requires HelpfulTicks(ss, es, i) >= 3 + PagesCost(cfg, |cfg.pages|)
    ensures ss[i].host.Finished?
  {
    HelpfulTicksMove(cfg, mem, ss, es, i);
    FinishedExactlyWhen(cfg, mem, ss, es, i);
  }

  // ---------------------------------------------------------------------------------------
  // A stale poll, from the start

  /** The helpful environment that delivers every operation as early as the discipline allows. */
  function Greedy(s: Sys): SysEnv {
    SysEnv(!(s.host.Poll? && InTransit(s)), false, false, if s.w.pending != [] then Some(0) else None)
  }

  /** With it the result address always travels right behind the page's own. */
  ghost predicate GreedyInv(s: Sys) {
    && (s.host.SendResult? ==> s.wr.Pulse? && s.wr.idx == 4 && s.w.r.state == WAITING)
    && (s.wr.Pulse? && s.wr.idx == 5 ==> s.w.r.state == WAITING)
  }

  lemma GreedyTick(cfg: Config, mem: Memory, s: Sys)
    requires ValidConfig(cfg) && SysInv(cfg, mem, s) && GreedyInv(s)
    ensures Disciplined(s, Greedy(s)) && Helpful(s, Greedy(s)) && GreedyInv(Tick(cfg, mem, s, Greedy(s)))
  {
    var s' := Tick(cfg, mem, s, Greedy(s));
    if s.host.SendPage? || s.host.SendResult? {
      assert Idle(Ssb, s.w) && !s.w.r.csr.newPartition;
      RestCycle(mem, s.w, EnvOf(s, Greedy(s)));
    }
    hide Cycle, PagesDone, TrafficInv, RunningInv, FinishedInv, ParamsInv;
  }

  /** The host has not come to sending page `k` yet. */
  predicate BeforePage(h: Host, k: nat) {
    match h
    case SendPage(j) => j < k
    case SendResult(j) => j < k
    case Poll(j) => j < k
    case Finished => false
    case _ => true
  }

  /** Under it a query comes to each of its pages. */
  lemma ReachPage(cfg: Config, mem: Memory, ss: seq<Sys>, es: seq<SysEnv>, k: nat)
      returns (ss': seq<Sys>, es': seq<SysEnv>)
    requires ValidConfig(cfg) && k < |cfg.pages| && SysRun(cfg, mem, ss, es) && GreedyInv(ss[|es|])
    requires BeforePage(ss[|es|].host, k)
    ensures SysRun(cfg, mem, ss', es') && ss' != [] && ss'[0] == ss[0] && ss'[|es'|].host == SendPage(k)
    decreases MovesLeft(cfg, ss[|es|])
  {
    hide Tick, SysInv, GreedyInv, MovesLeft, Moves, InitSys, Disciplined, Helpful;
    var s := ss[|es|];
    RunInv(cfg, mem, ss, es, |es|);
    GreedyTick(cfg, mem, s);
    HelpfulTickMoves(cfg, mem, s, Greedy(s));
    TickProgress(cfg, mem, s, Greedy(s));
    LeftIsPositive(cfg, mem, s);
    HostNears(cfg, mem, s, k);
    ss', es' := ContinueRun(cfg, mem, ss, es, Greedy(s));
    if ss'[|es'|].host != SendPage(k) {
      ss', es' := ReachPage(cfg, mem, ss', es', k);
    }
  }

  lemma HostNears(cfg: Config, mem: Memory, s: Sys, k: nat)
    requires k < |cfg.pages| && BeforePage(s.host, k) && UnitsTyped(Ssb, s.w.r.units)
    ensures var h := Tick(cfg, mem, s, Greedy(s)).host; BeforePage(h, k) || h == SendPage(k)
  {
    hide Cycle;
  }

  /** The first page has not been accepted yet. */
  predicate NotBegun(s: Sys) {
    BeforePage(s.host, 0) || s.host == SendPage(0) || ((s.host == SendResult(0) || s.host == Poll(0)) && InTransit(s))
  }

  /** Until then the done flag is as the scan found it. */
  lemma {:induction false} FlagAsFound(cfg: Config, mem: Memory, ss: seq<Sys>, es: seq<SysEnv>, i: nat)
    requires ValidConfig(cfg) && SysRun(cfg, mem, ss, es) && i < |ss| && NotBegun(ss[i])
    ensures ss[i].w.r.prog.partitionDone == ss[0].w.r.prog.partitionDone
  {
    hide Tick, Disciplined, InitSys, SysInv, NotBegun;
    if i > 0 {
      RunInv(cfg, mem, ss, es, i - 1);
      UnitsAreTyped(cfg, mem, ss[i - 1]);
      FlagTick(cfg, mem, ss[i - 1], es[i - 1]);
      FlagAsFound(cfg, mem, ss, es, i - 1);
    }
  }

  lemma FlagTick(cfg: Config, mem: Memory, s: Sys, e: SysEnv)
    requires ValidConfig(cfg) && SysInv(cfg, mem, s) && NotBegun(Tick(cfg, mem, s, e)) && Disciplined(s, e)
    ensures NotBegun(s) && Tick(cfg, mem, s, e).w.r.prog.partitionDone == s.w.r.prog.partitionDone
  {
    hide Cycle, PagesDone, TrafficInv, RunningInv, FinishedInv;
    if Idle(Ssb, s.w) && !s.w.r.csr.newPartition {
      RestCycle(mem, s.w, EnvOf(s, e));
    } else {
      Lands(cfg, mem, s, e);
    }
  }

  /** A partition announced or in hand leaves nothing in transit after the tick. */
  lemma Lands(cfg: Config, mem: Memory, s: Sys, e: SysEnv)
    requires ValidConfig(cfg) && SysInv(cfg, mem, s) && !(Idle(Ssb, s.w) && !s.w.r.csr.newPartition)
    ensures (s.host.SendResult? || s.host.Poll?)
    ensures var s' := Tick(cfg, mem, s, e);
      !(s.host.Poll? && HostMoves(s, e)) ==> !InTransit(s') && s'.host in {s.host, Poll(s.host.k)}
  {
    hide PagesDone, TrafficInv, NextUnits, NextWrite;
  }

  /** When exactly a poll reads another page's flag, over whole runs: the page's pulse is still in
      transit, and the page is not the first or an earlier scan left the flag up. */
  lemma StaleExactlyWhen(cfg: Config, mem: Memory, ss: seq<Sys>, es: seq<SysEnv>, i: nat)
    requires ValidConfig(cfg) && SysRun(cfg, mem, ss, es) && i < |ss| && ss[i].host.Poll?
    ensures ss[i].host.k < |cfg.pages|
    ensures Sample(ss[i].w.r, USER_CSR_BASE + 1) && !PageDone(cfg, mem, ss[i].w, ss[i].host.k)
            <==> InTransit(ss[i]) && (ss[i].host.k > 0 || ss[0].w.r.prog.partitionDone)
  {
    hide InitSys, Tick, Disciplined, PageDone, SysInv;
    RunInv(cfg, mem, ss, es, i);
    StaleExactlyInTransit(cfg, mem, ss[i]);
    if ss[i].host.k == 0 && InTransit(ss[i]) { FlagAsFound(cfg, mem, ss, es, i); }
  }

  lemma ContinueRun(cfg: Config, mem: Memory, ss: seq<Sys>, es: seq<SysEnv>, e: SysEnv)
      returns (ss': seq<Sys>, es': seq<SysEnv>)
    requires ValidConfig(cfg) && SysRun(cfg, mem, ss, es) && Disciplined(ss[|es|], e)
    ensures ss' == ss + [Tick(cfg, mem, ss[|es|], e)] && es' == es + [e] && SysRun(cfg, mem, ss', es')
  {
    hide Tick, Disciplined, InitSys, SysInv;
    RunInv(cfg, mem, ss, es, |es|);
    SysStep(cfg, mem, ss[|es|], e);
    UnitsAreTyped(cfg, mem, Tick(cfg, mem, ss[|es|], e));
    ss', es' := ss + [Tick(cfg, mem, ss[|es|], e)], es + [e];
  }

  lemma UnitsAreTyped(cfg: Config, mem: Memory, s: Sys)
    requires ValidConfig(cfg) && SysInv(cfg, mem, s)
    ensures UnitsTyped(Ssb, s.w.r.units)
  {
  }

  /** For every page but the first of a query there is a disciplined run from the start at whose
      end the host's next poll, sampled at once, would read another page's flag; for the first
      page too when an earlier scan has left the flag up. */
  lemma StalePollRun(cfg: Config, mem: Memory, s0: Sys, k: nat) returns (ss: seq<Sys>, es: seq<SysEnv>)
    requires ValidConfig(cfg) && k < |cfg.pages| && InitSys(s0)
    requires k > 0 || s0.w.r.prog.partitionDone
    ensures SysRun(cfg, mem, ss, es) && ss[0] == s0
    ensures var s := ss[|es|];
      s.host == Poll(k) && Sample(s.w.r, USER_CSR_BASE + 1) && !PageDone(cfg, mem, s.w, k)
  {
    ss, es := ReachPage(cfg, mem, [s0], [], k);
    if k == 0 { FlagAsFound(cfg, mem, ss, es, |es|); }
    RunInv(cfg, mem, ss, es, |es|);
    StalePollIsNear(cfg, mem, ss[|es|]);
    hide Tick, Disciplined, InitSys, SysInv, Sample, PageDone;
    ss, es := ContinueRun(cfg, mem, ss, es, Prompt());
    ss, es := ContinueRun(cfg, mem, ss, es, Prompt());
  }

  // ---------------------------------------------------------------------------------------
  // A late result address, from the start

  /** The helpful environment in which the host is held up. */
  function Late(s: Sys): SysEnv { SysEnv(false, false, false, if s.w.pending != [] then Some(0) else None) }

  /** Page `k` is in hand with none of its lines completed, and its result address not sent. */
  ghost predicate AwaitsAddress(s: Sys, k: nat) {
    s.host == SendResult(k) && |s.w.attempts| <= k + 1 && (|s.w.attempts| == k + 1 ==> Last(s.w.attempts) == [])
  }

  lemma LateTick(cfg: Config, mem: Memory, s: Sys, k: nat)
    requires ValidConfig(cfg) && SysInv(cfg, mem, s) && AwaitsAddress(s, k) && !Completing(Ssb, s.w.r)
    ensures Disciplined(s, Late(s)) && AwaitsAddress(Tick(cfg, mem, s, Late(s)), k)
    ensures Moves(mem, s, Late(s)) >= 1
  {
    hide PagesDone, TrafficInv, UnitsOk, Answer, NextUnits, NextWrite, ParamsInv;
  }

  /** With it every page comes to complete its first line before its result address is sent. */
  lemma ReachLateLine(cfg: Config, mem: Memory, ss: seq<Sys>, es: seq<SysEnv>, k: nat)
      returns (ss': seq<Sys>, es': seq<SysEnv>)
    requires ValidConfig(cfg) && SysRun(cfg, mem, ss, es) && AwaitsAddress(ss[|es|], k)
    ensures SysRun(cfg, mem, ss', es') && ss' != [] && ss'[0] == ss[0]
    ensures AwaitsAddress(ss'[|es'|], k) && Completing(Ssb, ss'[|es'|].w.r)
    decreases MovesLeft(cfg, ss[|es|])
  {
    hide Tick, SysInv, MovesLeft, Moves, InitSys, Disciplined, AwaitsAddress;
    var s := ss[|es|];
    if Completing(Ssb, s.w.r) {
      ss', es' := ss, es;
    } else {
      RunInv(cfg, mem, ss, es, |es|);
      LateTick(cfg, mem, s, k);
      TickProgress(cfg, mem, s, Late(s));
      LeftIsPositive(cfg, mem, s);
      RunInv(cfg, mem, ss, es, |es|);
      ss', es' := ContinueRun(cfg, mem, ss, es, Late(s));
      RunInv(cfg, mem, ss', es', |es'|);
      LeftIsPositive(cfg, mem, ss'[|es'|]);
      ss', es' := ReachLateLine(cfg, mem, ss', es', k);
    }
  }

  /** For every page there is a run from the start, disciplined up to its end, in which the page's
      first line is about to complete before the host has sent its result address; by
      `LateAddressMisplaces` it goes to the page before's buffer. */
  lemma LateAddressRun(cfg: Config, mem: Memory, s0: Sys, k: nat) returns (ss: seq<Sys>, es: seq<SysEnv>)
    requires ValidConfig(cfg) && k < |cfg.pages| && InitSys(s0)
    ensures SysRun(cfg, mem, ss, es) && ss[0] == s0
    ensures ss[|es|].host == SendResult(k) && Completing(Ssb, ss[|es|].w.r) && Last(ss[|es|].w.attempts) == []
  {
    ss, es := ReachPage(cfg, mem, [s0], [], k);
    RunInv(cfg, mem, ss, es, |es|);
    SendsPage(cfg, mem, ss[|es|], k);
    hide Tick, Disciplined, InitSys, SysInv, Completing;
    ss, es := ContinueRun(cfg, mem, ss, es, Prompt());
    ss, es := ReachLateLine(cfg, mem, ss, es, k);
    RunInv(cfg, mem, ss, es, |es|);
    CompletesInHand(cfg, mem, ss[|es|], k);
  }

  lemma SendsPage(cfg: Config, mem: Memory, s: Sys, k: nat)
    requires ValidConfig(cfg) && SysInv(cfg, mem, s) && s.host == SendPage(k)
    ensures Disciplined(s, Prompt()) && AwaitsAddress(Tick(cfg, mem, s, Prompt()), k)
  {
    RestCycle(mem, s.w, EnvOf(s, Prompt()));
    hide Cycle, PagesDone;
  }

  lemma CompletesInHand(cfg: Config, mem: Memory, s: Sys, k: nat)
    requires ValidConfig(cfg) && SysInv(cfg, mem, s) && AwaitsAddress(s, k) && Completing(Ssb, s.w.r)
    ensures s.host == SendResult(k) && Last(s.w.attempts) == []
  {
    hide PagesDone, TrafficInv, RunningInv, FinishedInv;
  }
}
