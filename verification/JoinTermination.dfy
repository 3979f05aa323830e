/** The join query comes to an end, as the scan query does: a fixed budget of moves, and no
    state short of the end in which nothing can move. */
module JoinTermination {
  import opened Wrappers
  import opened ScanSession
  import opened JoinAfu
  import opened JoinSession
  import opened JoinSystem

  /** Moves of `n` pages of keys: for each its lines, two of the address pulse, three of the host. */
  function KeysCost(n: int): int { (7 * KEY_LINES + 5) * n }

  /** A partition is in hand: the host has announced it and has not seen its end. */
  predicate InHand(h: JoinHost) { h.PollMap? || h.SendResultAddress? || h.PollKeys? }

  function LinesInHand(cfg: JoinConfig, h: JoinHost): nat { if h.PollMap? then cfg.mapLines else KEY_LINES }

  /** Moves the accelerator has left for the partition in hand. */
  function UnitLeft(cfg: JoinConfig, s: JoinSys): int {
    var lines := LinesInHand(cfg, s.host);
    if s.wr.Pulse? && s.wr.idx == 4 then 7 * lines + 2
    else if s.w.r.csr.newPartition then 7 * lines + 1
    else if s.w.r.ctl.done then 0
    else 7 * (lines - s.w.r.ctl.clsDone - 1) + JoinPhaseLeft(s.w.r)
  }

  function Budget(cfg: JoinConfig, h: JoinHost, unit: int): int {
    var n, mapCost := |cfg.pages|, 7 * cfg.mapLines + 2;
    match h
    case SendJobType => 7 + mapCost + KeysCost(n)
    case SendMapLines => 6 + mapCost + KeysCost(n)
    case SendLoading => 5 + mapCost + KeysCost(n)
    case SendMap => 4 + mapCost + KeysCost(n)
    case PollMap => 3 + unit + KeysCost(n)
    case SendKeyLines => 2 + KeysCost(n)
    case SendProbing => 1 + KeysCost(n)
    case SendKeys(k) => KeysCost(n - k)
    case SendResultAddress(k) => KeysCost(n - k - 1) + 2 + unit
    case PollKeys(k) => KeysCost(n - k - 1) + 1 + unit
    case Through => 0
  }

  /** Moves left altogether. */
  function MovesLeft(cfg: JoinConfig, s: JoinSys): int { Budget(cfg, s.host, UnitLeft(cfg, s)) }

  predicate HostMoves(s: JoinSys, e: JoinSysEnv) {
    e.sys.arrives && !s.host.Through? && (Polling(s.host) ==> s.w.r.ctl.done)
  }

  predicate UnitMoves(mem: Memory, s: JoinSys, e: JoinSysEnv) {
    InHand(s.host) && (JoinInTransit(s) || (!s.w.r.ctl.done && !JoinStalled(mem, s.w, JoinEnvOf(s, e))))
  }

  function Moves(mem: Memory, s: JoinSys, e: JoinSysEnv): nat {
    (if HostMoves(s, e) then 1 else 0) + (if UnitMoves(mem, s, e) then 1 else 0)
  }

  // ---------------------------------------------------------------------------------------
  // One tick

  ghost predicate HeldBy(cfg: JoinConfig, mem: Memory, s: JoinSys, job: JoinJob, groups: nat) {
    && InHand(s.host) && Handling(mem, s, job, groups) && job.total == LinesInHand(cfg, s.host)
    && (s.host.SendResultAddress? || s.host.PollKeys? ==> s.host.k < |cfg.pages|)
  }

  /** In the invariant, a host that has announced a partition has it in hand. */
  lemma WhatIsHeld(cfg: JoinConfig, mem: Memory, bits: BitMap, s: JoinSys) returns (job: JoinJob, groups: nat)
    requires JoinSysInv(cfg, mem, bits, s) && InHand(s.host)
    ensures HeldBy(cfg, mem, s, job, groups)
  {
    hide Handling, JoinPagesDone, JoinParams;
    if s.host.PollMap? {
      job, groups := MapJob(cfg, bits), 0;
    } else {
      job, groups := KeysJob(cfg, mem, bits, s.host.k), s.host.k + 1;
    }
  }

  lemma ArrivingLeft(cfg: JoinConfig, mem: Memory, s: JoinSys, e: JoinSysEnv, job: JoinJob, groups: nat)
    requires JoinArriving(s, job, groups) && JoinDisciplined(s, e)
    requires InHand(s.host) && job.total == LinesInHand(cfg, s.host)
    ensures UnitLeft(cfg, JoinTick(cfg, mem, s, e)) == UnitLeft(cfg, s) - 1
  {
    if s.w.r.csr.newPartition {
      JoinAccept(mem, s.w, job, JoinEnvOf(s, e));
    } else {
      JoinRestCycle(mem, s.w, JoinEnvOf(s, e));
    }
  }

  lemma ProcessingLeft(cfg: JoinConfig, mem: Memory, s: JoinSys, e: JoinSysEnv, job: JoinJob, groups: nat)
    requires JoinProcessing(mem, s, job, groups) && InHand(s.host) && job.total == LinesInHand(cfg, s.host)
    requires !(Polling(s.host) && HostMoves(s, e))
    ensures UnitLeft(cfg, JoinTick(cfg, mem, s, e)) == UnitLeft(cfg, s) - if UnitMoves(mem, s, e) then 1 else 0
  {
    JoinProgress(mem, s.w, job, JoinEnvOf(s, e));
    NoneAnnounced(cfg, mem, s, e);
    InHandStays(cfg, mem, s, e);
    hide JoinTraffic, JoinRunning, JoinFinished, JoinCycle;
  }

  lemma NoneAnnounced(cfg: JoinConfig, mem: Memory, s: JoinSys, e: JoinSysEnv)
    requires JoinQuiet(s.wr) && InHand(s.host) && !(Polling(s.host) && HostMoves(s, e))
    ensures !JoinInTransit(JoinTick(cfg, mem, s, e))
  {
  }

  /** Short of a successful poll the host keeps the partition in hand. */
  lemma InHandStays(cfg: JoinConfig, mem: Memory, s: JoinSys, e: JoinSysEnv)
    requires InHand(s.host) && !(Polling(s.host) && HostMoves(s, e))
    ensures var h := JoinTick(cfg, mem, s, e).host;
      && h == (if HostMoves(s, e) then PollKeys(s.host.k) else s.host)
      && LinesInHand(cfg, h) == LinesInHand(cfg, s.host)
    ensures HostMoves(s, e) ==> s.host.SendResultAddress?
  {
    hide JoinCycle;
  }

  lemma HeldLeft(cfg: JoinConfig, mem: Memory, bits: BitMap, s: JoinSys, e: JoinSysEnv)
    requires ValidJoin(cfg) && JoinSysInv(cfg, mem, bits, s) && JoinDisciplined(s, e)
    requires InHand(s.host) && !(Polling(s.host) && HostMoves(s, e))
    ensures MovesLeft(cfg, JoinTick(cfg, mem, s, e)) == MovesLeft(cfg, s) - Moves(mem, s, e)
  {
    hide JoinSysInv, JoinTick, JoinDisciplined, UnitLeft, HostMoves, JoinArriving, JoinProcessing, LinesInHand,
         KeysCost;
    var job, groups := WhatIsHeld(cfg, mem, bits, s);
    InHandStays(cfg, mem, s, e);
    if JoinArriving(s, job, groups) {
      ArrivingLeft(cfg, mem, s, e, job, groups);
      ArrivingMoves(mem, s, e, job, groups);
    } else {
      ProcessingLeft(cfg, mem, s, e, job, groups);
    }
  }

  lemma ArrivingMoves(mem: Memory, s: JoinSys, e: JoinSysEnv, job: JoinJob, groups: nat)
    requires JoinArriving(s, job, groups) && InHand(s.host)
    ensures UnitMoves(mem, s, e)
  {
  }

  /** A poll that reads the flag up finds no move of the accelerator left. */
  lemma PollEnds(cfg: JoinConfig, mem: Memory, bits: BitMap, s: JoinSys, e: JoinSysEnv)
    requires ValidJoin(cfg) && JoinSysInv(cfg, mem, bits, s) && JoinDisciplined(s, e)
    requires Polling(s.host) && HostMoves(s, e)
    ensures MovesLeft(cfg, JoinTick(cfg, mem, s, e)) == MovesLeft(cfg, s) - 1 && !UnitMoves(mem, s, e)
  {
    hide JoinCycle, JoinPagesDone, JoinParams, JoinTraffic, JoinRunning, JoinFinished;
  }

  lemma HostSends(cfg: JoinConfig, mem: Memory, bits: BitMap, s: JoinSys, e: JoinSysEnv)
    requires ValidJoin(cfg) && JoinSysInv(cfg, mem, bits, s) && !InHand(s.host)
    ensures MovesLeft(cfg, JoinTick(cfg, mem, s, e)) == MovesLeft(cfg, s) - Moves(mem, s, e)
  {
    hide JoinCycle, JoinPagesDone, JoinParams;
  }

  /** Every disciplined tick uses up exactly as many of the moves left as it makes. */
  lemma JoinTickProgress(cfg: JoinConfig, mem: Memory, bits: BitMap, s: JoinSys, e: JoinSysEnv)
    requires ValidJoin(cfg) && JoinSysInv(cfg, mem, bits, s) && JoinDisciplined(s, e)
    ensures MovesLeft(cfg, JoinTick(cfg, mem, s, e)) == MovesLeft(cfg, s) - Moves(mem, s, e)
  {
    hide JoinSysInv, JoinTick, JoinDisciplined, MovesLeft, UnitMoves;
    if !InHand(s.host) {
      HostSends(cfg, mem, bits, s, e);
    } else if Polling(s.host) && HostMoves(s, e) {
      PollEnds(cfg, mem, bits, s, e);
    } else {
      HeldLeft(cfg, mem, bits, s, e);
    }
  }

  lemma LeftIsPositive(cfg: JoinConfig, mem: Memory, bits: BitMap, s: JoinSys)
    requires ValidJoin(cfg) && JoinSysInv(cfg, mem, bits, s)
    ensures MovesLeft(cfg, s) >= 0 && (MovesLeft(cfg, s) == 0 <==> s.host.Through?)
  {
    hide JoinSysInv, UnitLeft, KeysCost, HeldBy;
    KeysCostPositive(cfg, mem, bits, s);
    if InHand(s.host) {
      var job, groups := WhatIsHeld(cfg, mem, bits, s);
      HeldIsPositive(cfg, mem, s, job, groups);
    }
  }

  lemma HeldIsPositive(cfg: JoinConfig, mem: Memory, s: JoinSys, job: JoinJob, groups: nat)
    requires ValidJoin(cfg) && HeldBy(cfg, mem, s, job, groups)
    ensures UnitLeft(cfg, s) >= 0
  {
    hide JoinTraffic, LookupInv, JoinIdle;
  }

  /** Pages the host has still to come to. */
  function PagesLeft(cfg: JoinConfig, h: JoinHost): int {
    match h
    case SendKeys(k) => |cfg.pages| - k
    case SendResultAddress(k) => |cfg.pages| - k - 1
    case PollKeys(k) => |cfg.pages| - k - 1
    case _ => |cfg.pages|
  }

  lemma KeysCostPositive(cfg: JoinConfig, mem: Memory, bits: BitMap, s: JoinSys)
    requires JoinSysInv(cfg, mem, bits, s)
    ensures KeysCost(PagesLeft(cfg, s.host)) >= 0 && (s.host.SendKeys? ==> KeysCost(PagesLeft(cfg, s.host)) > 0)
  {
    hide JoinPagesDone, JoinParams, Handling, JoinResting;
  }

  // ---------------------------------------------------------------------------------------
  // Whole runs

  ghost function MovesMade(mem: Memory, ss: seq<JoinSys>, es: seq<JoinSysEnv>, i: nat): nat
    requires i <= |es| <= |ss|
  {
    if i == 0 then 0 else MovesMade(mem, ss, es, i - 1) + Moves(mem, ss[i - 1], es[i - 1])
  }

  lemma {:induction false} RunMoves(cfg: JoinConfig, mem: Memory, ss: seq<JoinSys>, es: seq<JoinSysEnv>, i: nat)
    requires ValidJoin(cfg) && JoinSysRun(cfg, mem, ss, es) && i <= |es|
    ensures MovesLeft(cfg, ss[i]) == MovesLeft(cfg, ss[0]) - MovesMade(mem, ss, es, i)
  {
    hide JoinTick, MovesLeft, Moves, JoinSysInv, JoinDisciplined, InitJoin;
    if i > 0 {
      RunMoves(cfg, mem, ss, es, i - 1);
      JoinRunInv(cfg, mem, ss, es, i - 1);
      JoinTickProgress(cfg, mem, ss[0].w.r.look.bitMap, ss[i - 1], es[i - 1]);
    }
  }

  /** The join query is through exactly when this many moves have been made. */
  lemma JoinFinishedExactlyWhen(cfg: JoinConfig, mem: Memory, ss: seq<JoinSys>, es: seq<JoinSysEnv>, i: nat)
    requires ValidJoin(cfg) && JoinSysRun(cfg, mem, ss, es) && i <= |es|
    ensures MovesMade(mem, ss, es, i) <= 9 + 7 * cfg.mapLines + KeysCost(|cfg.pages|)
    ensures ss[i].host.Through? <==> MovesMade(mem, ss, es, i) == 9 + 7 * cfg.mapLines + KeysCost(|cfg.pages|)
  {
    RunMoves(cfg, mem, ss, es, i);
    JoinRunInv(cfg, mem, ss, es, i);
    LeftIsPositive(cfg, mem, ss[0].w.r.look.bitMap, ss[i]);
  }

  /** No back-pressure on reads, the outstanding read answered, the host's operation arriving as
      soon as it may. */
  ghost predicate Helpful(s: JoinSys, e: JoinSysEnv) {
    && !e.sys.c0Full && (s.w.pending != [] ==> e.sys.answer == Some(0)) && (!JoinInTransit(s) ==> e.sys.arrives)
  }

  /** Nothing can hang: in every reachable state short of the end, a helpful tick is a move. */
  lemma HelpfulTickMoves(cfg: JoinConfig, mem: Memory, bits: BitMap, s: JoinSys, e: JoinSysEnv)
    requires ValidJoin(cfg) && JoinSysInv(cfg, mem, bits, s) && Helpful(s, e) && !s.host.Through?
    ensures Moves(mem, s, e) >= 1
  {
    if InHand(s.host) {
      var job, groups := WhatIsHeld(cfg, mem, bits, s);
      hide JoinSysInv, JoinTraffic, LookupInv;
      assert JoinStalled(mem, s.w, JoinEnvOf(s, e)) ==> s.w.r.ctl.done || JoinInTransit(s);
    } else {
      hide JoinPagesDone, JoinParams;
    }
  }

  ghost function HelpfulTicks(ss: seq<JoinSys>, es: seq<JoinSysEnv>, i: nat): nat
    requires i <= |es| <= |ss|
  {
    if i == 0 then 0 else HelpfulTicks(ss, es, i - 1) + if Helpful(ss[i - 1], es[i - 1]) then 1 else 0
  }

  lemma StaysThrough(cfg: JoinConfig, mem: Memory, s: JoinSys, e: JoinSysEnv)
    requires s.host.Through?
    ensures JoinTick(cfg, mem, s, e).host.Through?
  {
    hide JoinCycle;
  }

  lemma {:induction false} HelpfulTicksMove(cfg: JoinConfig, mem: Memory, ss: seq<JoinSys>, es: seq<JoinSysEnv>, i: nat)
    requires ValidJoin(cfg) && JoinSysRun(cfg, mem, ss, es) && i <= |es|
    ensures ss[i].host.Through? || MovesMade(mem, ss, es, i) >= HelpfulTicks(ss, es, i)
  {
    hide Moves, Helpful, JoinSysInv, JoinTick, JoinDisciplined, InitJoin;
    if i > 0 {
      HelpfulTicksMove(cfg, mem, ss, es, i - 1);
      JoinRunInv(cfg, mem, ss, es, i - 1);
      assert ss[i] == JoinTick(cfg, mem, ss[i - 1], es[i - 1]);
      if ss[i - 1].host.Through? {
        StaysThrough(cfg, mem, ss[i - 1], es[i - 1]);
      } else if Helpful(ss[i - 1], es[i - 1]) {
        HelpfulTickMoves(cfg, mem, ss[0].w.r.look.bitMap, ss[i - 1], es[i - 1]);
      }
    }
  }

  /** The join query terminates: however the environment behaves in between, it is through once
      it has seen `9 + 7 * bitmap lines + 453 * pages` helpful ticks. */
  lemma JoinQueryTerminates(cfg: JoinConfig, mem: Memory, ss: seq<JoinSys>, es: seq<JoinSysEnv>, i: nat)
    requires ValidJoin(cfg) && JoinSysRun(cfg, mem, ss, es) && i <= |es|
    requires HelpfulTicks(ss, es, i) >= 9 + 7 * cfg.mapLines + KeysCost(|cfg.pages|)
    ensures ss[i].host.Through?
  {
    HelpfulTicksMove(cfg, mem, ss, es, i);
    JoinFinishedExactlyWhen(cfg, mem, ss, es, i);
  }
}
