/** Host, CSR manager and semi-join accelerator together: the host has the bitmap loaded, then
    every page of foreign keys probed, polling the done flag after each. */
module JoinSystem {
  import opened Wrappers
  import opened Bits
  import opened ScanAfu
  import opened ScanSession
  import opened ScanSystem
  import opened JoinAfu
  import opened JoinSession

  /** The bitmap's buffer and its number of lines, and the pages of keys. */
  datatype JoinConfig = JoinConfig(jobType: nat, mapLines: nat, mapBuff: nat, pages: seq<Page>)

  ghost predicate ValidJoin(cfg: JoinConfig) { 1 <= cfg.mapLines < 128 }

  /** `bitmap_cls`: one line more than needed when the size is a multiple of the line. */
  function MapLines(bitmapSize: nat): nat { bitmapSize / LINE_BITS + 1 }

  /** So line `j` of the bitmap is read exactly if it begins no later than the bitmap ends. */
  lemma MapLinesAre(bitmapSize: nat, j: nat)
    ensures j < MapLines(bitmapSize) <==> 512 * j <= bitmapSize
  {
  }

  const KEY_LINES := 64

  datatype JoinHost =
    | SendJobType | SendMapLines | SendLoading | SendMap | PollMap
    | SendKeyLines | SendProbing | SendKeys(k: nat) | SendResultAddress(k: nat) | PollKeys(k: nat) | Through

  predicate Polling(h: JoinHost) { h.PollMap? || h.PollKeys? }

  function JoinOp(cfg: JoinConfig, h: JoinHost): Mmio {
    match h
    case SendJobType => WriteCsr(USER_CSR_BASE + 2, cfg.jobType)
    case SendMapLines => WriteCsr(USER_CSR_BASE + 0, cfg.mapLines)
    case SendLoading => WriteCsr(USER_CSR_BASE + 6, 1)
    case SendMap => WriteCsr(USER_CSR_BASE + 4, cfg.mapBuff)
    case SendKeyLines => WriteCsr(USER_CSR_BASE + 0, KEY_LINES)
    case SendProbing => WriteCsr(USER_CSR_BASE + 6, 0)
    case SendKeys(k) => if k < |cfg.pages| then WriteCsr(USER_CSR_BASE + 4, cfg.pages[k].readBuff) else NoOp
    case SendResultAddress(k) => if k < |cfg.pages| then WriteCsr(USER_CSR_BASE + 5, cfg.pages[k].writeBuff) else NoOp
    case PollMap => ReadCsr(USER_CSR_BASE + 5)
    case PollKeys(_) => ReadCsr(USER_CSR_BASE + 5)
    case Through => NoOp
  }

  function NextKeys(cfg: JoinConfig, k: nat): JoinHost { if k < |cfg.pages| then SendKeys(k) else Through }

  function JoinHostNext(cfg: JoinConfig, h: JoinHost, sampled: bool): JoinHost {
    match h
    case SendJobType => SendMapLines
    case SendMapLines => SendLoading
    case SendLoading => SendMap
    case SendMap => PollMap
    case PollMap => if sampled then SendKeyLines else h
    case SendKeyLines => SendProbing
    case SendProbing => NextKeys(cfg, 0)
    case SendKeys(k) => SendResultAddress(k)
    case SendResultAddress(k) => PollKeys(k)
    case PollKeys(k) => if sampled then NextKeys(cfg, k + 1) else h
    case Through => Through
  }

  datatype JoinSys = JoinSys(w: JoinWorld, wr: Pulse, host: JoinHost)

  datatype JoinSysEnv = JoinSysEnv(sys: SysEnv, floating: bool)

  function JoinEnvOf(s: JoinSys, e: JoinSysEnv): JoinEnv {
    JoinEnv(Env(s.wr, e.sys.c0Full, e.sys.c1Full, e.sys.answer), e.floating)
  }

  /** CSR 5 shows the join's `partition_processed`. */
  function JoinTick(cfg: JoinConfig, mem: Memory, s: JoinSys, e: JoinSysEnv): JoinSys {
    JoinSys(JoinCycle(mem, s.w, JoinEnvOf(s, e)),
            PulseOf(if e.sys.arrives then JoinOp(cfg, s.host) else NoOp),
            if e.sys.arrives then JoinHostNext(cfg, s.host, Polling(s.host) && s.w.r.ctl.done) else s.host)
  }

  predicate JoinInTransit(s: JoinSys) { (s.wr.Pulse? && s.wr.idx == 4) || s.w.r.csr.newPartition }

  /** A join about to begin, after a reset or after an earlier join. */
  ghost predicate InitJoin(s: JoinSys, bits: BitMap) {
    && JoinIdle(s.w) && s.w.r.look.bitMap == bits && !JoinInTransit(s) && s.host.SendJobType?
    && s.w.fetched == [] && s.w.attempts == [] && s.w.writes == []
  }

  /** The same timing as for scans. */
  predicate JoinDisciplined(s: JoinSys, e: JoinSysEnv) {
    && (e.sys.arrives && Polling(s.host) ==> !JoinInTransit(s))
    && (Emitting(s.w.r) ==> !s.host.SendResultAddress? && !(s.wr.Pulse? && s.wr.idx == 5))
  }

  // ---------------------------------------------------------------------------------------
  // The inductive invariant

  function MapJob(cfg: JoinConfig, bits: BitMap): JoinJob {
    JoinJob(true, ClAddr(cfg.mapBuff), 0, cfg.mapLines, bits)
  }

  /** The bitmap once loaded, whatever the register file held before. */
  function TheMap(cfg: JoinConfig, mem: Memory, bits: BitMap): BitMap {
    Loaded(mem, MapJob(cfg, bits), cfg.mapLines)
  }

  function KeysJob(cfg: JoinConfig, mem: Memory, bits: BitMap, k: nat): JoinJob
    requires k < |cfg.pages|
  {
    JoinJob(false, ClAddr(cfg.pages[k].readBuff), ClAddr(cfg.pages[k].writeBuff), KEY_LINES, TheMap(cfg, mem, bits))
  }

  function Landing(s: JoinSys): Csrs { NextCsrs(s.w.r.csr, Inputs(false, true, s.wr, false, false, None)) }

  predicate MapLinesSent(h: JoinHost) { h.SendLoading? || h.SendMap? || h.PollMap? || h.SendKeyLines? }
  predicate LoadingSent(h: JoinHost) { h.SendMap? || h.PollMap? || h.SendKeyLines? || h.SendProbing? }
  predicate KeyLinesSent(h: JoinHost) { h.SendProbing? || ProbingSent(h) }
  predicate ProbingSent(h: JoinHost) { h.SendKeys? || h.SendResultAddress? || h.PollKeys? || h.Through? }

  ghost predicate JoinParams(cfg: JoinConfig, s: JoinSys) {
    var c, h := Landing(s), s.host;
    && (MapLinesSent(h) ==> c.clsToProcess == cfg.mapLines)
    && (KeyLinesSent(h) ==> c.clsToProcess == KEY_LINES)
    && (LoadingSent(h) ==> c.readingBitmap && !c.bitmapReady)
    && (ProbingSent(h) ==> !c.readingBitmap && c.bitmapReady)
    && (h.PollMap? ==> c.clAddress == ClAddr(cfg.mapBuff))
    && ((h.SendResultAddress? || h.PollKeys?) && h.k < |cfg.pages| ==> c.clAddress == ClAddr(cfg.pages[h.k].readBuff))
    && (h.PollKeys? && h.k < |cfg.pages| ==> c.resultAddress == ClAddr(cfg.pages[h.k].writeBuff))
  }

  /** Page `k` of keys has been read and answered in full: group 0 is the bitmap, group `k + 1`
      page `k`. */
  ghost predicate KeysDone(cfg: JoinConfig, mem: Memory, bits: BitMap, fetched: seq<seq<nat>>,
                           attempts: seq<seq<Attempt>>, k: nat)
    requires k < |cfg.pages|
  {
    && k + 1 < |fetched| && k + 1 < |attempts|
    && LinesRead(KeysJob(cfg, mem, bits, k), fetched[k + 1])
    && AllAnswered(mem, KeysJob(cfg, mem, bits, k), attempts[k + 1])
  }

  ghost predicate LinesRead(job: JoinJob, lines: seq<nat>) {
    |lines| == job.total && forall j :: 0 <= j < |lines| ==> lines[j] == LineAddr(job.base, j)
  }

  ghost predicate AllAnswered(mem: Memory, job: JoinJob, lines: seq<Attempt>) {
    |lines| == job.total && forall j :: 0 <= j < |lines| ==> ProbeAttempt(mem, job, j, lines[j])
  }

  /** The bitmap phase and the first `n` pages are done; the bitmap phase wrote nothing. */
  ghost predicate JoinPagesDone(cfg: JoinConfig, mem: Memory, bits: BitMap, fetched: seq<seq<nat>>,
                                attempts: seq<seq<Attempt>>, n: nat) {
    && n <= |cfg.pages| && fetched != [] && attempts != [] && attempts[0] == []
    && LinesRead(MapJob(cfg, bits), fetched[0])
    && forall k :: 0 <= k < n ==> KeysDone(cfg, mem, bits, fetched, attempts, k)
  }

  ghost predicate JoinResting(s: JoinSys, groups: nat, bits: BitMap) {
    && JoinIdle(s.w) && s.w.r.look.bitMap == bits && !JoinInTransit(s)
    && |s.w.fetched| == groups && |s.w.attempts| == groups && (groups > 0 ==> s.w.r.ctl.done)
  }

  /** The address of `job` is written, but the partition is not accepted yet. */
  ghost predicate JoinArriving(s: JoinSys, job: JoinJob, groups: nat) {
    && JoinIdle(s.w) && s.w.r.look.bitMap == job.bits && JoinInTransit(s)
    && |s.w.fetched| == groups && |s.w.attempts| == groups
    && (if s.w.r.csr.newPartition then JobCsrs(s.w.r.csr, job) && JoinQuiet(s.wr) else JobCsrs(Landing(s), job))
  }

  ghost predicate JoinProcessing(mem: Memory, s: JoinSys, job: JoinJob, groups: nat) {
    && JoinSessionInv(mem, s.w, job) && JoinQuiet(s.wr)
    && |s.w.fetched| == groups + 1 && |s.w.attempts| == groups + 1
  }

  ghost predicate Handling(mem: Memory, s: JoinSys, job: JoinJob, groups: nat) {
    JoinArriving(s, job, groups) || JoinProcessing(mem, s, job, groups)
  }

  ghost predicate JoinStage(cfg: JoinConfig, mem: Memory, bits: BitMap, s: JoinSys) {
    match s.host
    case PollMap => Handling(mem, s, MapJob(cfg, bits), 0)
    case SendKeyLines =>
      JoinPagesDone(cfg, mem, bits, s.w.fetched, s.w.attempts, 0) && JoinResting(s, 1, TheMap(cfg, mem, bits))
    case SendProbing =>
      JoinPagesDone(cfg, mem, bits, s.w.fetched, s.w.attempts, 0) && JoinResting(s, 1, TheMap(cfg, mem, bits))
    case SendKeys(k) =>
      && k < |cfg.pages| && JoinPagesDone(cfg, mem, bits, s.w.fetched, s.w.attempts, k)
      && JoinResting(s, k + 1, TheMap(cfg, mem, bits))
    case SendResultAddress(k) =>
      && k < |cfg.pages| && JoinPagesDone(cfg, mem, bits, s.w.fetched, s.w.attempts, k)
      && Handling(mem, s, KeysJob(cfg, mem, bits, k), k + 1) && !(s.wr.Pulse? && s.wr.idx == 5)
    case PollKeys(k) =>
      && k < |cfg.pages| && JoinPagesDone(cfg, mem, bits, s.w.fetched, s.w.attempts, k)
      && Handling(mem, s, KeysJob(cfg, mem, bits, k), k + 1)
    case Through =>
      && JoinPagesDone(cfg, mem, bits, s.w.fetched, s.w.attempts, |cfg.pages|)
      && JoinResting(s, |cfg.pages| + 1, TheMap(cfg, mem, bits))
    case _ => JoinResting(s, 0, bits)
  }

  ghost predicate JoinSysInv(cfg: JoinConfig, mem: Memory, bits: BitMap, s: JoinSys) {
    s.w.writes == AllIssued(s.w.attempts) && JoinParams(cfg, s) && JoinStage(cfg, mem, bits, s)
  }

  // ---------------------------------------------------------------------------------------
  // One tick of the system

  lemma JoinParamsKept(cfg: JoinConfig, mem: Memory, bits: BitMap, s: JoinSys, e: JoinSysEnv)
    requires ValidJoin(cfg) && JoinParams(cfg, s)
    ensures JoinParams(cfg, JoinTick(cfg, mem, s, e))
  {
    hide JoinCycle, PulseOf;
    PulseLands(cfg, mem, s, e);
    OpLands(cfg, s.host);
  }

  lemma PulseLands(cfg: JoinConfig, mem: Memory, s: JoinSys, e: JoinSysEnv)
    ensures JoinTick(cfg, mem, s, e).w.r.csr == Landing(s)
  {
  }

  /** The pulse each operation of the host raises. */
  lemma OpLands(cfg: JoinConfig, h: JoinHost)
    ensures PulseOf(NoOp) == NoPulse
    ensures PulseOf(JoinOp(cfg, h)) == match h
      case SendJobType => Pulse(2, cfg.jobType)
      case SendMapLines => Pulse(0, cfg.mapLines)
      case SendLoading => Pulse(6, 1)
      case SendMap => Pulse(4, cfg.mapBuff)
      case SendKeyLines => Pulse(0, KEY_LINES)
      case SendProbing => Pulse(6, 0)
      case SendKeys(k) => if k < |cfg.pages| then Pulse(4, cfg.pages[k].readBuff) else NoPulse
      case SendResultAddress(k) => if k < |cfg.pages| then Pulse(5, cfg.pages[k].writeBuff) else NoPulse
      case _ => NoPulse
  {
  }

  lemma JoinRestCycle(mem: Memory, w: JoinWorld, e: JoinEnv)
    requires JoinIdle(w) && !w.r.csr.newPartition
    ensures var w' := JoinCycle(mem, w, e);
      && JoinIdle(w') && w'.fetched == w.fetched && w'.attempts == w.attempts
      && w'.r.look.bitMap == w.r.look.bitMap && w'.r.ctl.done == w.r.ctl.done
      && w'.r.csr.newPartition == (e.env.wr.Pulse? && e.env.wr.idx == 4)
  {
  }

  ghost predicate SameGroups<T>(groups: seq<seq<T>>, groups': seq<seq<T>>, n: nat) {
    n <= |groups| && n <= |groups'| && forall g :: 0 <= g < n ==> groups'[g] == groups[g]
  }

  lemma SameKeysDone(cfg: JoinConfig, mem: Memory, bits: BitMap, w: JoinWorld, w': JoinWorld, n: nat)
    requires JoinPagesDone(cfg, mem, bits, w.fetched, w.attempts, n)
    requires SameGroups(w.fetched, w'.fetched, n + 1) && SameGroups(w.attempts, w'.attempts, n + 1)
    ensures JoinPagesDone(cfg, mem, bits, w'.fetched, w'.attempts, n)
  {
    forall k | 0 <= k < n ensures KeysDone(cfg, mem, bits, w'.fetched, w'.attempts, k) {
      assert KeysDone(cfg, mem, bits, w.fetched, w.attempts, k);
      assert w'.attempts[k + 1] == w.attempts[k + 1] && w'.fetched[k + 1] == w.fetched[k + 1];
    }
  }

  lemma JoinGroupsKept(mem: Memory, w: JoinWorld, e: JoinEnv)
    requires !w.r.csr.newPartition && w.fetched != [] && w.attempts != []
    ensures var w' := JoinCycle(mem, w, e);
      && |w'.fetched| == |w.fetched| && |w'.attempts| == |w.attempts|
      && SameGroups(w.fetched, w'.fetched, |w.fetched| - 1) && SameGroups(w.attempts, w'.attempts, |w.attempts| - 1)
  {
  }

  /** Nothing being handled, and nothing announced yet. */
  lemma JoinQuietStage(cfg: JoinConfig, mem: Memory, bits: BitMap, s: JoinSys, e: JoinSysEnv)
    requires ValidJoin(cfg) && JoinSysInv(cfg, mem, bits, s)
    requires !Polling(s.host) && !s.host.SendResultAddress? && !s.host.SendMap? && !s.host.SendKeys?
    ensures JoinStage(cfg, mem, bits, JoinTick(cfg, mem, s, e))
  {
    hide JoinCycle, AllAnswered, JoinIdle;
    JoinRestCycle(mem, s.w, JoinEnvOf(s, e));
  }

  /** The host announces the bitmap or a page of keys. */
  lemma AnnounceStage(cfg: JoinConfig, mem: Memory, bits: BitMap, s: JoinSys, e: JoinSysEnv)
    requires ValidJoin(cfg) && JoinSysInv(cfg, mem, bits, s) && (s.host.SendMap? || s.host.SendKeys?)
    requires JoinParams(cfg, JoinTick(cfg, mem, s, e))
    ensures JoinStage(cfg, mem, bits, JoinTick(cfg, mem, s, e))
  {
    hide JoinCycle, AllAnswered, JoinIdle;
    JoinRestCycle(mem, s.w, JoinEnvOf(s, e));
  }

  /** A partition being handled stays being handled, and earlier groups stay as they are. */
  lemma HandlingCycle(cfg: JoinConfig, mem: Memory, s: JoinSys, e: JoinSysEnv, job: JoinJob, groups: nat)
    requires Handling(mem, s, job, groups) && JoinDisciplined(s, e) && JoinQuiet(JoinTick(cfg, mem, s, e).wr)
    requires !job.load && JoinProcessing(mem, s, job, groups) && Emitting(s.w.r) ==> s.w.r.csr.resultAddress == job.dest
    ensures var s' := JoinTick(cfg, mem, s, e);
      && Handling(mem, s', job, groups)
      && SameGroups(s.w.fetched, s'.w.fetched, groups) && SameGroups(s.w.attempts, s'.w.attempts, groups)
  {
    if JoinArriving(s, job, groups) {
      if s.w.r.csr.newPartition {
        JoinAccept(mem, s.w, job, JoinEnvOf(s, e));
      } else {
        JoinRestCycle(mem, s.w, JoinEnvOf(s, e));
      }
    } else {
      JoinSessionCycle(mem, s.w, job, JoinEnvOf(s, e));
      JoinGroupsKept(mem, s.w, JoinEnvOf(s, e));
    }
  }

  /** A poll that reads the flag up ends the handling, with the partition's traffic complete. */
  lemma PollSucceeds(cfg: JoinConfig, mem: Memory, s: JoinSys, e: JoinSysEnv, job: JoinJob, groups: nat)
    requires JoinDisciplined(s, e) && Polling(s.host) && e.sys.arrives && s.w.r.ctl.done
    requires Handling(mem, s, job, groups)
    ensures var s' := JoinTick(cfg, mem, s, e);
      && JoinTraffic(mem, s.w, job) && JoinFinished(mem, s.w, job)
      && s'.w.fetched == s.w.fetched && s'.w.attempts == s.w.attempts
      && JoinResting(s', groups + 1, Loaded(mem, job, job.total))
  {
    JoinFinishedCycle(mem, s.w, job, JoinEnvOf(s, e));
  }

  lemma MapStage(cfg: JoinConfig, mem: Memory, bits: BitMap, s: JoinSys, e: JoinSysEnv)
    requires ValidJoin(cfg) && JoinSysInv(cfg, mem, bits, s) && JoinDisciplined(s, e) && s.host.PollMap?
    ensures JoinStage(cfg, mem, bits, JoinTick(cfg, mem, s, e))
  {
    if e.sys.arrives && s.w.r.ctl.done {
      PollSucceeds(cfg, mem, s, e, MapJob(cfg, bits), 0);
    } else {
      HandlingCycle(cfg, mem, s, e, MapJob(cfg, bits), 0);
    }
  }

  lemma KeysStage(cfg: JoinConfig, mem: Memory, bits: BitMap, s: JoinSys, e: JoinSysEnv, k: nat)
    requires ValidJoin(cfg) && JoinSysInv(cfg, mem, bits, s) && JoinDisciplined(s, e)
    requires s.host == SendResultAddress(k) || s.host == PollKeys(k)
    ensures JoinStage(cfg, mem, bits, JoinTick(cfg, mem, s, e))
  {
    hide JoinCycle, JoinTraffic, JoinRunning, JoinFinished, AllAnswered;
    if s.host.PollKeys? && e.sys.arrives && s.w.r.ctl.done {
      KeysPolled(cfg, mem, bits, s, e, k);
    } else {
      assert Emitting(s.w.r) ==> s.w.r.csr.resultAddress == Landing(s).resultAddress;
      HandlingCycle(cfg, mem, s, e, KeysJob(cfg, mem, bits, k), k + 1);
      SameKeysDone(cfg, mem, bits, s.w, JoinTick(cfg, mem, s, e).w, k);
    }
  }

  lemma KeysPolled(cfg: JoinConfig, mem: Memory, bits: BitMap, s: JoinSys, e: JoinSysEnv, k: nat)
    requires ValidJoin(cfg) && JoinSysInv(cfg, mem, bits, s) && JoinDisciplined(s, e)
    requires s.host == PollKeys(k) && e.sys.arrives && s.w.r.ctl.done
    ensures JoinStage(cfg, mem, bits, JoinTick(cfg, mem, s, e))
  {
    hide JoinCycle, JoinParams, LookupInv, ProbeAttempt, LineAddr, JoinRunning;
    PollSucceeds(cfg, mem, s, e, KeysJob(cfg, mem, bits, k), k + 1);
    assert KeysDone(cfg, mem, bits, s.w.fetched, s.w.attempts, k);
  }

  lemma JoinStageKept(cfg: JoinConfig, mem: Memory, bits: BitMap, s: JoinSys, e: JoinSysEnv)
    requires ValidJoin(cfg) && JoinSysInv(cfg, mem, bits, s) && JoinDisciplined(s, e)
    requires JoinParams(cfg, JoinTick(cfg, mem, s, e))
    ensures JoinStage(cfg, mem, bits, JoinTick(cfg, mem, s, e))
  {
    if s.host.PollMap? {
      MapStage(cfg, mem, bits, s, e);
    } else if s.host.SendResultAddress? || s.host.PollKeys? {
      KeysStage(cfg, mem, bits, s, e, s.host.k);
    } else if s.host.SendMap? || s.host.SendKeys? {
      AnnounceStage(cfg, mem, bits, s, e);
    } else {
      JoinQuietStage(cfg, mem, bits, s, e);
    }
  }

  lemma JoinSysStep(cfg: JoinConfig, mem: Memory, bits: BitMap, s: JoinSys, e: JoinSysEnv)
    requires ValidJoin(cfg) && JoinSysInv(cfg, mem, bits, s) && JoinDisciplined(s, e)
    ensures JoinSysInv(cfg, mem, bits, JoinTick(cfg, mem, s, e))
  {
    JoinWrites(mem, s.w, JoinEnvOf(s, e));
    JoinParamsKept(cfg, mem, bits, s, e);
    JoinStageKept(cfg, mem, bits, s, e);
  }

  // ---------------------------------------------------------------------------------------
  // Whole runs

  ghost predicate JoinSysRun(cfg: JoinConfig, mem: Memory, ss: seq<JoinSys>, es: seq<JoinSysEnv>) {
    && |ss| == |es| + 1 && InitJoin(ss[0], ss[0].w.r.look.bitMap)
    && forall i :: 0 <= i < |es| ==> JoinDisciplined(ss[i], es[i]) && ss[i + 1] == JoinTick(cfg, mem, ss[i], es[i])
  }

  lemma {:induction false} JoinRunInv(cfg: JoinConfig, mem: Memory, ss: seq<JoinSys>, es: seq<JoinSysEnv>, i: nat)
    requires ValidJoin(cfg) && JoinSysRun(cfg, mem, ss, es) && i < |ss|
    ensures JoinSysInv(cfg, mem, ss[0].w.r.look.bitMap, ss[i])
  {
    if i > 0 {
      JoinRunInv(cfg, mem, ss, es, i - 1);
      JoinSysStep(cfg, mem, ss[0].w.r.look.bitMap, ss[i - 1], es[i - 1]);
    }
  }

  /** The job of traffic group `k`. */
  function GroupJob(cfg: JoinConfig, mem: Memory, bits: BitMap, k: nat): JoinJob
    requires k <= |cfg.pages|
  {
    if k == 0 then MapJob(cfg, bits) else KeysJob(cfg, mem, bits, k - 1)
  }

  /** The group's reads so far are the first lines of its buffer, in order; its answers so far
      are those of its first lines, each in its place, and a bitmap has none. */
  ghost predicate GroupInPlace(mem: Memory, job: JoinJob, fetched: seq<nat>, attempts: seq<Attempt>) {
    && |fetched| <= job.total && |attempts| <= (if job.load then 0 else job.total)
    && (forall j :: 0 <= j < |fetched| ==> fetched[j] == LineAddr(job.base, j))
    && (forall j :: 0 <= j < |attempts| ==> ProbeAttempt(mem, job, j, attempts[j]))
  }

  ghost predicate JoinTrafficInPlace(cfg: JoinConfig, mem: Memory, bits: BitMap, w: JoinWorld) {
    && |w.fetched| == |w.attempts| <= |cfg.pages| + 1 && w.writes == AllIssued(w.attempts)
    && forall k :: 0 <= k < |w.attempts| ==>
         GroupInPlace(mem, GroupJob(cfg, mem, bits, k), w.fetched[k], w.attempts[k])
  }

  /** A group is complete, or it is the last one, of the partition in hand. */
  lemma GroupIs(cfg: JoinConfig, mem: Memory, bits: BitMap, s: JoinSys, k: nat)
    requires ValidJoin(cfg) && JoinSysInv(cfg, mem, bits, s) && k < |s.w.attempts|
    ensures |s.w.fetched| == |s.w.attempts| <= |cfg.pages| + 1
    ensures GroupInPlace(mem, GroupJob(cfg, mem, bits, k), s.w.fetched[k], s.w.attempts[k])
  {
    hide JoinParams, LookupInv, ProbeAttempt, TheMap, JoinIdle;
    if s.host.PollMap? || ((s.host.SendResultAddress? || s.host.PollKeys?) && k == s.host.k + 1) {
      assert s.w.fetched[k] == Last(s.w.fetched) && s.w.attempts[k] == Last(s.w.attempts);
    } else if k > 0 {
      assert KeysDone(cfg, mem, bits, s.w.fetched, s.w.attempts, k - 1);
    }
  }

  lemma TrafficInPlace(cfg: JoinConfig, mem: Memory, bits: BitMap, s: JoinSys)
    requires ValidJoin(cfg) && JoinSysInv(cfg, mem, bits, s)
    ensures JoinTrafficInPlace(cfg, mem, bits, s.w)
  {
    hide GroupInPlace, JoinStage, JoinParams;
    SameGroupCount(cfg, mem, bits, s);
    forall k | 0 <= k < |s.w.attempts|
      ensures k <= |cfg.pages| && GroupInPlace(mem, GroupJob(cfg, mem, bits, k), s.w.fetched[k], s.w.attempts[k])
    {
      GroupIs(cfg, mem, bits, s, k);
    }
    if s.w.attempts != [] { GroupIs(cfg, mem, bits, s, 0); }
  }

  lemma SameGroupCount(cfg: JoinConfig, mem: Memory, bits: BitMap, s: JoinSys)
    requires JoinSysInv(cfg, mem, bits, s)
    ensures |s.w.fetched| == |s.w.attempts|
  {
    hide JoinParams, JoinPagesDone, JoinIdle;
  }

  /** A poll that reads the flag up: the partition it was sent for is complete. */
  ghost predicate PollIsOwn(cfg: JoinConfig, mem: Memory, bits: BitMap, s: JoinSys) {
    match s.host
    case PollMap =>
      && |s.w.fetched| == 1 && LinesRead(MapJob(cfg, bits), s.w.fetched[0])
      && s.w.r.look.bitMap == TheMap(cfg, mem, bits)
    case PollKeys(k) => k < |cfg.pages| && KeysDone(cfg, mem, bits, s.w.fetched, s.w.attempts, k)
    case _ => true
  }

  lemma DisciplinedPollIsOwn(cfg: JoinConfig, mem: Memory, bits: BitMap, s: JoinSys)
    requires ValidJoin(cfg) && JoinSysInv(cfg, mem, bits, s) && s.w.r.ctl.done && !JoinInTransit(s)
    ensures PollIsOwn(cfg, mem, bits, s)
  {
    hide JoinParams, LookupInv, ProbeAttempt, JoinIdle;
  }

  /** The join over a whole run: a new partition is only seen by a waiting accelerator; a poll
      that reads the flag up is about the partition it was sent for; reads run through the
      bitmap's and the pages' buffers in order; nothing is written before the bitmap has been
      loaded, and every write answers a line of keys from the loaded bitmap in its place; and
      once the host is through, every line of every page of keys has been answered once. */
  lemma JoinIsSafe(cfg: JoinConfig, mem: Memory, ss: seq<JoinSys>, es: seq<JoinSysEnv>, i: nat)
    requires ValidJoin(cfg) && JoinSysRun(cfg, mem, ss, es) && i < |ss|
    ensures ss[i].w.r.csr.newPartition ==> JoinIdle(ss[i].w)
    ensures i < |es| && es[i].sys.arrives && Polling(ss[i].host) && ss[i].w.r.ctl.done ==>
              PollIsOwn(cfg, mem, ss[0].w.r.look.bitMap, ss[i])
    ensures JoinTrafficInPlace(cfg, mem, ss[0].w.r.look.bitMap, ss[i].w)
    ensures !KeyLinesSent(ss[i].host) ==> ss[i].w.writes == []
    ensures ss[i].host.Through? ==>
      && |ss[i].w.attempts| == |cfg.pages| + 1
      && JoinPagesDone(cfg, mem, ss[0].w.r.look.bitMap, ss[i].w.fetched, ss[i].w.attempts, |cfg.pages|)
  {
    var s, bits := ss[i], ss[0].w.r.look.bitMap;
    JoinRunInv(cfg, mem, ss, es, i);
    TrafficInPlace(cfg, mem, bits, s);
    if s.w.r.ctl.done && !JoinInTransit(s) { DisciplinedPollIsOwn(cfg, mem, bits, s); }
    if !KeyLinesSent(s.host) { NothingBeforeKeys(cfg, mem, bits, s); }
    hide JoinTrafficInPlace, JoinPagesDone, PollIsOwn, JoinTick, InitJoin, JoinParams;
  }

  lemma NothingBeforeKeys(cfg: JoinConfig, mem: Memory, bits: BitMap, s: JoinSys)
    requires JoinSysInv(cfg, mem, bits, s) && !KeyLinesSent(s.host)
    ensures s.w.writes == []
  {
    if s.w.attempts != [] {
      assert s.w.attempts == [[]];
      AllIssuedSnoc([], []);
    }
  }

  /** For each line of keys completed before state `i`, in order, whether the write channel was
      not almost full in the tick in which it completed. */
  ghost function JoinOpenings(ss: seq<JoinSys>, es: seq<JoinSysEnv>, i: nat): seq<bool>
    requires i < |ss| && i <= |es|
  {
    if i == 0 then []
    else JoinOpenings(ss, es, i - 1) + if Emitting(ss[i - 1].w.r) then [!es[i - 1].sys.c1Full] else []
  }

  lemma {:induction false} JoinOutcomesAreOpenings(cfg: JoinConfig, mem: Memory, ss: seq<JoinSys>,
                                                   es: seq<JoinSysEnv>, i: nat)
    requires JoinSysRun(cfg, mem, ss, es) && i < |ss|
    ensures Outcomes(ss[i].w.attempts) == JoinOpenings(ss, es, i)
  {
    hide Outcomes, JoinDisciplined, JoinCycle;
    if i == 0 {
      NoOutcomes();
    } else {
      JoinOutcomesAreOpenings(cfg, mem, ss, es, i - 1);
      JoinOutcomeIsOpening(mem, ss[i - 1].w, JoinEnvOf(ss[i - 1], es[i - 1]));
    }
  }

  /** When exactly the answers to line `j` of the `k`-th page of keys sent are issued. */
  lemma KeysIssuedExactlyWhen(cfg: JoinConfig, mem: Memory, ss: seq<JoinSys>, es: seq<JoinSysEnv>, i: nat,
                              k: nat, j: nat)
    requires ValidJoin(cfg) && JoinSysRun(cfg, mem, ss, es) && i < |ss|
    requires k + 1 < |ss[i].w.attempts| && j < |ss[i].w.attempts[k + 1]|
    ensures k * KEY_LINES + j < |JoinOpenings(ss, es, i)|
    ensures ss[i].w.attempts[k + 1][j].issued <==> JoinOpenings(ss, es, i)[k * KEY_LINES + j]
  {
    hide JoinSysRun, JoinSysInv, JoinOpenings, Outcomes;
    JoinRunInv(cfg, mem, ss, es, i);
    FullJoinGroups(cfg, mem, ss[0].w.r.look.bitMap, ss[i]);
    JoinOutcomesAreOpenings(cfg, mem, ss, es, i);
    OutcomeAt(ss[i].w.attempts, 1, KEY_LINES, k, j);
  }

  /** The bitmap has no answers, and all pages before the one in hand have been answered in full. */
  lemma FullJoinGroups(cfg: JoinConfig, mem: Memory, bits: BitMap, s: JoinSys)
    requires ValidJoin(cfg) && JoinSysInv(cfg, mem, bits, s)
    ensures forall g :: 0 <= g < |s.w.attempts| - 1 ==> |s.w.attempts[g]| == if g < 1 then 0 else KEY_LINES
  {
    hide JoinParams, JoinTraffic, JoinRunning, JoinFinished, JoinIdle, LinesRead, TheMap, ProbeAttempt;
    forall g | 1 <= g < |s.w.attempts| - 1 ensures |s.w.attempts[g]| == KEY_LINES {
      assert KeysDone(cfg, mem, bits, s.w.fetched, s.w.attempts, g - 1);
    }
  }

  /** A flag read up is about the partition being handled exactly when the CSR 4 pulse is no
      longer on its way. This includes the bitmap's poll: reset does not clear the join's flag. */
  lemma JoinStalePoll(mem: Memory, s: JoinSys, job: JoinJob, groups: nat)
    requires Handling(mem, s, job, groups) && s.w.r.ctl.done
    ensures |s.w.attempts| == groups + 1 && JoinFinished(mem, s.w, job) <==> !JoinInTransit(s)
  {
  }

  /** An environment in which the host's operation arrives and nothing else happens. */
  function PromptJoin(): JoinSysEnv { JoinSysEnv(Prompt(), false) }

  /** Such a poll is two ticks away from every state in which the host sends a page of keys: it
      would take the bitmap's, or the previous page's, flag for the page's own. */
  lemma StaleKeysPollIsNear(cfg: JoinConfig, mem: Memory, bits: BitMap, s: JoinSys)
    requires ValidJoin(cfg) && JoinSysInv(cfg, mem, bits, s) && s.host.SendKeys?
    ensures JoinDisciplined(s, PromptJoin())
    ensures var s1 := JoinTick(cfg, mem, s, PromptJoin());
      && JoinDisciplined(s1, PromptJoin())
      && var s2 := JoinTick(cfg, mem, s1, PromptJoin());
         && s2.host == PollKeys(s.host.k) && s.host.k < |cfg.pages| && s2.w.r.ctl.done
         && !KeysDone(cfg, mem, bits, s2.w.fetched, s2.w.attempts, s.host.k)
  {
    hide JoinCycle, JoinDisciplined, KeysDone, LinesRead, JoinParams, JoinIdle;
    var s1 := JoinTick(cfg, mem, s, PromptJoin());
    PromptTick(cfg, mem, s);
    PromptTick(cfg, mem, s1);
    NotDoneYet(cfg, mem, bits, JoinTick(cfg, mem, s1, PromptJoin()).w, s.host.k);
  }

  /** One such tick of a system at rest. */
  lemma PromptTick(cfg: JoinConfig, mem: Memory, s: JoinSys)
    requires JoinIdle(s.w) && !s.w.r.csr.newPartition && !Polling(s.host)
    ensures JoinDisciplined(s, PromptJoin())
    ensures var s' := JoinTick(cfg, mem, s, PromptJoin());
      && s'.host == JoinHostNext(cfg, s.host, false) && s'.wr == PulseOf(JoinOp(cfg, s.host))
      && JoinIdle(s'.w) && s'.w.fetched == s.w.fetched && s'.w.attempts == s.w.attempts
      && s'.w.r.ctl.done == s.w.r.ctl.done
      && s'.w.r.csr.newPartition == (s.wr.Pulse? && s.wr.idx == 4)
  {
    JoinRestCycle(mem, s.w, JoinEnvOf(s, PromptJoin()));
    hide JoinCycle;
  }

  lemma NotDoneYet(cfg: JoinConfig, mem: Memory, bits: BitMap, w: JoinWorld, k: nat)
    requires k < |cfg.pages| && |w.attempts| <= k + 1
    ensures !KeysDone(cfg, mem, bits, w.fetched, w.attempts, k)
  {
  }

  /** And four ticks from the start, when the flag was up before: neither a reset nor an earlier
      join clears it, so the first poll may take an earlier query's flag for the bitmap's. */
  lemma StaleMapPollRun(cfg: JoinConfig, mem: Memory, s0: JoinSys) returns (ss: seq<JoinSys>, es: seq<JoinSysEnv>)
    requires ValidJoin(cfg) && InitJoin(s0, s0.w.r.look.bitMap) && s0.w.r.ctl.done
    ensures JoinSysRun(cfg, mem, ss, es) && ss[0] == s0 && |es| == 4
    ensures ss[4].host.PollMap? && ss[4].w.r.ctl.done && ss[4].w.fetched == [] && JoinInTransit(ss[4])
  {
    InitIsIdle(s0);
    NewJoinRun(cfg, mem, s0);
    hide JoinTick, JoinDisciplined, JoinIdle, InitJoin, JoinSysRun;
    ss, es := PromptRun(cfg, mem, [s0], []);
    ss, es := PromptRun(cfg, mem, ss, es);
    ss, es := PromptRun(cfg, mem, ss, es);
    ss, es := PromptRun(cfg, mem, ss, es);
  }

  lemma NewJoinRun(cfg: JoinConfig, mem: Memory, s0: JoinSys)
    requires InitJoin(s0, s0.w.r.look.bitMap)
    ensures JoinSysRun(cfg, mem, [s0], [])
  {
  }

  /** A run whose last state is at rest, continued by one such tick. */
  lemma PromptRun(cfg: JoinConfig, mem: Memory, ss: seq<JoinSys>, es: seq<JoinSysEnv>)
      returns (ss': seq<JoinSys>, es': seq<JoinSysEnv>)
    requires |ss| == |es| + 1 && JoinSysRun(cfg, mem, ss, es)
    requires var s := ss[|es|]; JoinIdle(s.w) && !s.w.r.csr.newPartition && !Polling(s.host)
    ensures |es'| == |es| + 1 && |ss'| == |ss| + 1 && ss'[0] == ss[0] && JoinSysRun(cfg, mem, ss', es')
    ensures var s, s' := ss[|es|], ss'[|es'|];
      && s'.host == JoinHostNext(cfg, s.host, false) && s'.wr == PulseOf(JoinOp(cfg, s.host))
      && JoinIdle(s'.w) && s'.w.fetched == s.w.fetched && s'.w.r.ctl.done == s.w.r.ctl.done
      && s'.w.r.csr.newPartition == (s.wr.Pulse? && s.wr.idx == 4)
  {
    hide JoinTick, JoinDisciplined, JoinIdle, InitJoin;
    PromptTick(cfg, mem, ss[|es|]);
    ss', es' := ss + [JoinTick(cfg, mem, ss[|es|], PromptJoin())], es + [PromptJoin()];
  }

  lemma InitIsIdle(s: JoinSys)
    requires InitJoin(s, s.w.r.look.bitMap)
    ensures JoinIdle(s.w) && !JoinInTransit(s) && s.host == SendJobType && s.w.fetched == []
  {
  }
}
