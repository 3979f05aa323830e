/** The semi-join accelerator against its memory: what one accepted partition (the bitmap, or a
    page of foreign keys) makes it read, hold and write, for any latency and back-pressure. */
module JoinSession {
  import opened Bits
  import opened ScanAfu
  import opened ScanSession
  import opened JoinAfu

  /** As `World`, for the join accelerator. */
  datatype JoinWorld = JoinWorld(
    r: JoinRegs, pending: seq<nat>, fetched: seq<seq<nat>>, attempts: seq<seq<Attempt>>, writes: seq<Write>)

  datatype JoinEnv = JoinEnv(env: Env, floating: bool)

  predicate Accepting(r: JoinRegs) { r.ctl.state == WAITING && r.csr.newPartition }

  function JoinInputs(mem: Memory, w: JoinWorld, e: Env): Inputs {
    Inputs(false, true, e.wr, e.c0Full, e.c1Full, Response(mem, w.pending, e.answer))
  }

  function JoinCycle(mem: Memory, w: JoinWorld, e: JoinEnv): JoinWorld {
    var r' := JoinStep(w.r, JoinInputs(mem, w, e.env), e.floating);
    var fetched := if Accepting(w.r) then w.fetched + [[]] else w.fetched;
    var attempts := if Accepting(w.r) then w.attempts + [[]] else w.attempts;
    JoinWorld(r',
              Answered(w.pending, e.env.answer) + (if w.r.rd.valid then [w.r.rd.addr] else []),
              if r'.rd.valid then AppendLast(fetched, r'.rd.addr) else fetched,
              if Emitting(w.r) then AppendLast(attempts, Attempt(r'.wr.addr, r'.wr.data, r'.wr.valid)) else attempts,
              if r'.wr.valid then w.writes + [Write(r'.wr.addr, r'.wr.data)] else w.writes)
  }

  /** An accepted partition: loading or probing, its buffers, and the bitmap at acceptance. */
  datatype JoinJob = JoinJob(load: bool, base: nat, dest: nat, total: nat, bits: BitMap)

  /** The register file after `n` lines. */
  function Loaded(mem: Memory, job: JoinJob, n: nat): BitMap {
    if n == 0 || !job.load then job.bits
    else StoreLine(Loaded(mem, job, n - 1), n - 1, mem(LineAddr(job.base, n - 1)))
  }

  /** Loading puts bit `b` of line `j` at position `512 * j + b`, for the lines that were loaded
      and as far as the register file reaches; a sixth line changes nothing. */
  lemma {:induction false} LoadedBit(mem: Memory, job: JoinJob, n: nat, j: nat, b: nat)
    requires job.load && b < LINE_BITS && LINE_BITS * j + b < MAP_BITS
    ensures Loaded(mem, job, n)[LINE_BITS * j + b]
            == if j < n then mem(LineAddr(job.base, j))[b] else job.bits[LINE_BITS * j + b]
  {
    if n > 0 {
      LoadedBit(mem, job, n - 1, j, b);
      StoredBit(Loaded(mem, job, n - 1), n - 1, mem(LineAddr(job.base, n - 1)), j, b);
    }
  }

  lemma StoredBit(bits: BitMap, cls: nat, line: Line, j: nat, b: nat)
    requires b < LINE_BITS && LINE_BITS * j + b < MAP_BITS
    ensures StoreLine(bits, cls, line)[LINE_BITS * j + b] == if j == cls then line[b] else bits[LINE_BITS * j + b]
  {
  }

  ghost predicate JobCsrs(c: Csrs, job: JoinJob) {
    && c.clAddress == job.base && c.clsToProcess == job.total && 1 <= job.total < 128
    && c.readingBitmap == job.load && c.bitmapReady == !job.load
  }

  ghost predicate Nothing(w: JoinWorld) { !w.r.rd.issued && !w.r.rd.valid && w.pending == [] }

  /** Fetching and handling line `m`. */
  ghost predicate JoinPhase(mem: Memory, w: JoinWorld, job: JoinJob, m: nat) {
    var r, a, got := w.r, LineAddr(job.base, m), |Last(w.fetched)|;
    match r.ctl.state
    case WAITING => false
    case IDLE => Nothing(w) && !r.rx.received && got == m && r.ctl.reqAllowed
    case REQ =>
      && w.pending == [] && !r.rx.received && r.rd.valid == r.rd.issued && (r.rd.issued ==> r.rd.addr == a)
      && got == if r.rd.issued then m + 1 else m
    case RSP =>
      && !r.rd.issued && !r.rd.valid && got == m + 1
      && (if r.rx.received then w.pending == [] && r.rx.data == mem(a) else w.pending == [a])
    case PROCESSING => Nothing(w) && !r.rx.received && got == m + 1 && r.rx.data == mem(a)
  }

  /** The lookup unit while line `m` is handled. */
  ghost predicate LookupInv(mem: Memory, r: JoinRegs, job: JoinJob, m: nat) {
    && r.look.bitMap == Loaded(mem, job, if LineCompletes(r) then m + 1 else m)
    && r.look.result[KEYS_PER_LINE..] == Zeros(LINE_BITS - KEYS_PER_LINE)
    && (LineCompletes(r) && !job.load ==> Answers(job.bits, mem(LineAddr(job.base, m)), r.look.result))
  }

  ghost predicate JoinRunning(mem: Memory, w: JoinWorld, job: JoinJob) {
    var m := w.r.ctl.clsDone;
    && JobCsrs(w.r.csr, job) && !w.r.csr.newPartition
    && m < job.total && !w.r.ctl.done && (w.r.ctl.clProcessed ==> w.r.ctl.state == PROCESSING)
    && |Last(w.attempts)| == (if job.load then 0 else m)
    && JoinPhase(mem, w, job, m) && LookupInv(mem, w.r, job, m)
  }

  ghost predicate JoinFinished(mem: Memory, w: JoinWorld, job: JoinJob) {
    && w.r.csr.clAddress == job.base && !w.r.csr.newPartition
    && w.r.ctl.done && !w.r.ctl.clProcessed && w.r.ctl.state in {IDLE, WAITING}
    && Nothing(w) && !w.r.rx.received && |Last(w.fetched)| == job.total
    && |Last(w.attempts)| == (if job.load then 0 else job.total)
    && w.r.look.bitMap == Loaded(mem, job, job.total)
    && w.r.look.result[KEYS_PER_LINE..] == Zeros(LINE_BITS - KEYS_PER_LINE)
  }

  /** Lines are read in order; each completed line of keys went to its place in the result
      buffer with its lookups; a bitmap line is never answered. */
  ghost predicate JoinTraffic(mem: Memory, w: JoinWorld, job: JoinJob) {
    && w.fetched != [] && w.attempts != []
    && (forall j :: 0 <= j < |Last(w.fetched)| ==> Last(w.fetched)[j] == LineAddr(job.base, j))
    && (forall j :: 0 <= j < |Last(w.attempts)| ==> ProbeAttempt(mem, job, j, Last(w.attempts)[j]))
  }

  ghost predicate ProbeAttempt(mem: Memory, job: JoinJob, j: nat, a: Attempt) {
    a.addr == LineAddr(job.dest, j) && Answers(job.bits, mem(LineAddr(job.base, j)), a.data)
  }

  ghost predicate JoinSessionInv(mem: Memory, w: JoinWorld, job: JoinJob) {
    JoinTraffic(mem, w, job) && (JoinRunning(mem, w, job) || JoinFinished(mem, w, job))
  }

  /** The writes a session depends on being left alone: lines, address, phase. */
  predicate JoinQuiet(wr: Pulse) { wr.Pulse? ==> wr.idx !in {0, 4, 6} }

  lemma QuietCsrs(c: Csrs, i: Inputs, job: JoinJob)
    requires i.active && JoinQuiet(i.wr)
    ensures JobCsrs(c, job) ==> JobCsrs(NextCsrs(c, i), job)
    ensures !NextCsrs(c, i).newPartition
  {
    hide ClAddr;
  }

  lemma JobIs(c: Csrs, job: JoinJob)
    requires JobCsrs(c, job)
    ensures c.clAddress == job.base && c.readingBitmap == job.load == !c.bitmapReady
  {
  }

  lemma AddressStays(c: Csrs, i: Inputs)
    requires i.active && (i.wr.Pulse? ==> i.wr.idx != 4)
    ensures NextCsrs(c, i).clAddress == c.clAddress && !NextCsrs(c, i).newPartition
  {
    hide ClAddr;
  }

  ghost predicate JoinIdle(w: JoinWorld) {
    && w.r.ctl.state == WAITING && !w.r.ctl.clProcessed && Nothing(w) && !w.r.rx.received
    && w.r.look.result[KEYS_PER_LINE..] == Zeros(LINE_BITS - KEYS_PER_LINE)
  }

  lemma JoinAccept(mem: Memory, w: JoinWorld, job: JoinJob, e: JoinEnv)
    requires JoinIdle(w) && w.r.csr.newPartition && JobCsrs(w.r.csr, job) && job.bits == w.r.look.bitMap
    requires JoinQuiet(e.env.wr)
    ensures var w' := JoinCycle(mem, w, e);
      && JoinTraffic(mem, w', job) && JoinRunning(mem, w', job) && w'.r.ctl.state == IDLE
      && w'.fetched == w.fetched + [[]] && w'.attempts == w.attempts + [[]]
  {
  }

  lemma JoinIdleCycle(mem: Memory, w: JoinWorld, job: JoinJob, e: JoinEnv)
    requires JoinTraffic(mem, w, job) && JoinRunning(mem, w, job) && w.r.ctl.state == IDLE && JoinQuiet(e.env.wr)
    ensures JoinTraffic(mem, JoinCycle(mem, w, e), job) && JoinRunning(mem, JoinCycle(mem, w, e), job)
  {
    hide ProbeLine, StoreLine, Answers, Loaded, ProbeAttempt, NextEmit, LineAddr, JobCsrs, NextCsrs;
    QuietCsrs(w.r.csr, JoinInputs(mem, w, e.env), job);
  }

  lemma JoinReqCycle(mem: Memory, w: JoinWorld, job: JoinJob, e: JoinEnv)
    requires JoinTraffic(mem, w, job) && JoinRunning(mem, w, job) && w.r.ctl.state == REQ && JoinQuiet(e.env.wr)
    ensures JoinTraffic(mem, JoinCycle(mem, w, e), job) && JoinRunning(mem, JoinCycle(mem, w, e), job)
  {
    hide ProbeLine, StoreLine, Answers, Loaded, ProbeAttempt, NextEmit, JobCsrs, NextCsrs;
    QuietCsrs(w.r.csr, JoinInputs(mem, w, e.env), job);
    JobIs(w.r.csr, job);
    Requested(mem, w, job, e);
  }

  lemma Requested(mem: Memory, w: JoinWorld, job: JoinJob, e: JoinEnv)
    requires JoinTraffic(mem, w, job) && JoinRunning(mem, w, job) && w.r.ctl.state == REQ
    ensures var w' := JoinCycle(mem, w, e);
      && JoinTraffic(mem, w', job) && w'.attempts == w.attempts
      && |Last(w'.fetched)| == |Last(w.fetched)| + if w'.r.rd.valid then 1 else 0
  {
    hide LookupInv, NextLookup, NextEmit, NextCsrs, NextResponse, ProbeAttempt, JobCsrs, LineAddr;
    JobIs(w.r.csr, job);
    LastAppended(w.fetched, LineAddr(job.base, w.r.ctl.clsDone));
  }

  /** Without a working tick the lookup unit holds, and with it what is known of it. */
  lemma LookupHolds(mem: Memory, w: JoinWorld, job: JoinJob, e: JoinEnv)
    requires !Working(w.r) && !LineCompletes(w.r) && LookupInv(mem, w.r, job, w.r.ctl.clsDone)
    ensures var r' := JoinCycle(mem, w, e).r;
      r'.look == w.r.look && (!LineCompletes(r') ==> LookupInv(mem, r', job, w.r.ctl.clsDone))
  {
    hide ProbeLine, StoreLine, Answers, Loaded, NextEmit, NextCsrs, NextControl, NextRequest, NextResponse;
  }

  /** Waiting for the line adds nothing to the traffic. */
  lemma NoTraffic(mem: Memory, w: JoinWorld, job: JoinJob, e: JoinEnv)
    requires JoinTraffic(mem, w, job) && w.r.ctl.state == RSP && !w.r.rd.valid
    ensures var w' := JoinCycle(mem, w, e);
      JoinTraffic(mem, w', job) && w'.fetched == w.fetched && w'.attempts == w.attempts
  {
    hide ProbeAttempt, NextLookup, NextEmit, NextCsrs, NextControl, NextResponse, Response, Answered;
  }

  lemma JoinRspCycle(mem: Memory, w: JoinWorld, job: JoinJob, e: JoinEnv)
    requires JoinTraffic(mem, w, job) && JoinRunning(mem, w, job) && w.r.ctl.state == RSP && JoinQuiet(e.env.wr)
    ensures JoinTraffic(mem, JoinCycle(mem, w, e), job) && JoinRunning(mem, JoinCycle(mem, w, e), job)
  {
    hide ProbeLine, StoreLine, Answers, Loaded, ProbeAttempt, NextEmit, NextLookup, LookupInv, JoinTraffic, LineAddr,
         Last, JobCsrs, NextCsrs;
    QuietCsrs(w.r.csr, JoinInputs(mem, w, e.env), job);
    LookupHolds(mem, w, job, e);
    NoTraffic(mem, w, job, e);
  }

  /** The working tick loads the line, or looks its keys up. */
  lemma WorkCycle(mem: Memory, w: JoinWorld, job: JoinJob, e: JoinEnv)
    requires JoinTraffic(mem, w, job) && JoinRunning(mem, w, job) && Working(w.r) && JoinQuiet(e.env.wr)
    ensures JoinTraffic(mem, JoinCycle(mem, w, e), job) && JoinRunning(mem, JoinCycle(mem, w, e), job)
  {
    hide Answers, ProbeLine, StoreLine, ProbeAttempt, NextEmit, LineAddr, JobCsrs, NextCsrs;
    QuietCsrs(w.r.csr, JoinInputs(mem, w, e.env), job);
    JobIs(w.r.csr, job);
    ProbeAnswers(w.r.look.bitMap, w.r.rx.data, w.r.look.result, e.floating);
  }

  /** The completing tick: keys are answered in their place unless the write channel is almost
      full (there is no retry); a bitmap line is not answered. */
  lemma CompleteCycle(mem: Memory, w: JoinWorld, job: JoinJob, e: JoinEnv)
    requires JoinTraffic(mem, w, job) && JoinRunning(mem, w, job) && LineCompletes(w.r) && JoinQuiet(e.env.wr)
    requires !job.load ==> w.r.csr.resultAddress == job.dest
    ensures var w' := JoinCycle(mem, w, e);
      && JoinTraffic(mem, w', job) && w'.r.ctl.state == IDLE
      && (if w.r.ctl.clsDone + 1 < job.total then JoinRunning(mem, w', job) else JoinFinished(mem, w', job))
      && (job.load ==> w'.attempts == w.attempts && w'.writes == w.writes)
      && (!job.load ==> Last(w'.attempts) == Last(w.attempts) + [EmittedLine(w.r, job, e)])
  {
    Emitted(mem, w, job, e);
  }

  function EmittedLine(r: JoinRegs, job: JoinJob, e: JoinEnv): Attempt {
    Attempt(LineAddr(job.dest, r.ctl.clsDone), r.look.result, !e.env.c1Full)
  }

  lemma Emitted(mem: Memory, w: JoinWorld, job: JoinJob, e: JoinEnv)
    requires JoinTraffic(mem, w, job) && JoinRunning(mem, w, job) && LineCompletes(w.r)
    requires !job.load ==> w.r.csr.resultAddress == job.dest
    ensures var w' := JoinCycle(mem, w, e);
      && w'.fetched == w.fetched && w'.attempts != [] && JoinTraffic(mem, w', job)
      && (if job.load then w'.attempts == w.attempts && w'.writes == w.writes
          else Last(w'.attempts) == Last(w.attempts) + [EmittedLine(w.r, job, e)])
  {
    var w' := JoinCycle(mem, w, e);
    assert w'.fetched == w.fetched;
    if job.load {
      assert w'.attempts == w.attempts;
    } else {
      var a := EmittedLine(w.r, job, e);
      assert w'.attempts == AppendLast(w.attempts, a);
      MoreTraffic(mem, w, w', job, a);
    }
  }

  lemma MoreTraffic(mem: Memory, w: JoinWorld, w': JoinWorld, job: JoinJob, a: Attempt)
    requires JoinTraffic(mem, w, job) && ProbeAttempt(mem, job, |Last(w.attempts)|, a)
    requires w'.fetched == w.fetched && w'.attempts == AppendLast(w.attempts, a)
    ensures JoinTraffic(mem, w', job) && Last(w'.attempts) == Last(w.attempts) + [a]
  {
    LastAppended(w.attempts, a);
  }

  lemma JoinFinishedCycle(mem: Memory, w: JoinWorld, job: JoinJob, e: JoinEnv)
    requires JoinTraffic(mem, w, job) && JoinFinished(mem, w, job)
    requires e.env.wr.Pulse? ==> e.env.wr.idx != 4
    ensures var w' := JoinCycle(mem, w, e);
      && JoinTraffic(mem, w', job) && JoinFinished(mem, w', job) && w'.r.ctl.state == WAITING
      && w'.fetched == w.fetched && w'.attempts == w.attempts
  {
    hide Loaded, Answers, ProbeAttempt, NextCsrs, NextEmit, LineAddr, StoreLine, ProbeLine;
    AddressStays(w.r.csr, JoinInputs(mem, w, e.env));
  }

  lemma JoinSessionCycle(mem: Memory, w: JoinWorld, job: JoinJob, e: JoinEnv)
    requires JoinSessionInv(mem, w, job) && JoinQuiet(e.env.wr)
    requires Emitting(w.r) ==> w.r.csr.resultAddress == job.dest
    ensures JoinSessionInv(mem, JoinCycle(mem, w, e), job)
  {
    if JoinFinished(mem, w, job) {
      JoinFinishedCycle(mem, w, job, e);
    } else {
      match w.r.ctl.state {
        case IDLE => JoinIdleCycle(mem, w, job, e);
        case REQ => JoinReqCycle(mem, w, job, e);
        case RSP => JoinRspCycle(mem, w, job, e);
        case PROCESSING => if Working(w.r) { WorkCycle(mem, w, job, e); } else { CompleteCycle(mem, w, job, e); }
        case WAITING => assert false;
      }
    }
  }

  /** The cycles of `c1.valid` are exactly the completed lines that were not blocked. */
  lemma JoinWrites(mem: Memory, w: JoinWorld, e: JoinEnv)
    requires w.writes == AllIssued(w.attempts)
    ensures JoinCycle(mem, w, e).writes == AllIssued(JoinCycle(mem, w, e).attempts)
  {
    var w' := JoinCycle(mem, w, e);
    var groups := if Accepting(w.r) then w.attempts + [[]] else w.attempts;
    if Accepting(w.r) {
      AllIssuedSnoc(w.attempts, []);
      assert AllIssued(groups) == w.writes + [];
    }
    if Emitting(w.r) {
      IssuedAppend(groups, Attempt(w'.r.wr.addr, w'.r.wr.data, w'.r.wr.valid));
    }
  }

  /** A line of keys is issued exactly if the write channel is not almost full in the cycle in
      which it completes. */
  lemma JoinOutcomeIsOpening(mem: Memory, w: JoinWorld, e: JoinEnv)
    ensures Outcomes(JoinCycle(mem, w, e).attempts)
            == Outcomes(w.attempts) + if Emitting(w.r) then [!e.env.c1Full] else []
  {
    hide Outcomes, NextLookup, NextCsrs, NextResponse, NextRequest;
    var w' := JoinCycle(mem, w, e);
    var groups := if Accepting(w.r) then w.attempts + [[]] else w.attempts;
    OutcomesSnoc(w.attempts, []);
    assert Outcomes(groups) == Outcomes(w.attempts);
    if Emitting(w.r) { OutcomesAppend(groups, Attempt(w'.r.wr.addr, w'.r.wr.data, w'.r.wr.valid)); }
  }

  // ---------------------------------------------------------------------------------------
  // Progress: seven unstalled cycles per line

  function JoinPhaseLeft(r: JoinRegs): int {
    match r.ctl.state
    case IDLE => 7
    case REQ => if r.rd.issued then 5 else 6
    case RSP => if r.rx.received then 3 else 4
    case PROCESSING => if r.ctl.clProcessed then 1 else 2
    case WAITING => 0
  }

  function JoinCyclesLeft(w: JoinWorld, job: JoinJob): int {
    if w.r.ctl.done then 0 else 7 * (job.total - w.r.ctl.clsDone - 1) + JoinPhaseLeft(w.r)
  }

  predicate JoinStalled(mem: Memory, w: JoinWorld, e: JoinEnv) {
    || (w.r.ctl.state == REQ && !w.r.rd.issued && e.env.c0Full)
    || (w.r.ctl.state == RSP && !w.r.rx.received && Response(mem, w.pending, e.env.answer).None?)
  }

  /** Every unstalled cycle brings the end of the partition exactly one cycle nearer. */
  lemma JoinProgress(mem: Memory, w: JoinWorld, job: JoinJob, e: JoinEnv)
    requires JoinSessionInv(mem, w, job) && JoinQuiet(e.env.wr)
    ensures CountsDown(JoinCyclesLeft(w, job), JoinCyclesLeft(JoinCycle(mem, w, e), job), JoinStalled(mem, w, e))
    ensures w.r.ctl.done <==> JoinCyclesLeft(w, job) == 0
  {
  }

  /** A run that starts with a partition being accepted. */
  ghost predicate JoinRun(mem: Memory, ws: seq<JoinWorld>, es: seq<JoinEnv>, dest: nat) {
    && |ws| == |es| + 1 && JoinIdle(ws[0]) && ws[0].r.csr.newPartition
    && (forall i :: 0 <= i < |es| ==>
          && JoinQuiet(es[i].env.wr) && ws[i + 1] == JoinCycle(mem, ws[i], es[i])
          && (Emitting(ws[i].r) ==> ws[i].r.csr.resultAddress == dest))
  }

  /** What the registers ask for, when they ask for exactly one phase and some lines. */
  predicate Asks(c: Csrs) { c.readingBitmap != c.bitmapReady && 1 <= c.clsToProcess < 128 }

  function JoinJobOf(r: JoinRegs, dest: nat): JoinJob {
    JoinJob(r.csr.readingBitmap, r.csr.clAddress, dest, r.csr.clsToProcess, r.look.bitMap)
  }

  lemma {:induction false} RunJoinSession(mem: Memory, ws: seq<JoinWorld>, es: seq<JoinEnv>, dest: nat, i: nat)
    requires JoinRun(mem, ws, es, dest) && Asks(ws[0].r.csr) && 1 <= i < |ws|
    ensures JoinSessionInv(mem, ws[i], JoinJobOf(ws[0].r, dest))
  {
    var job := JoinJobOf(ws[0].r, dest);
    if i == 1 {
      JoinAccept(mem, ws[0], job, es[0]);
    } else {
      RunJoinSession(mem, ws, es, dest, i - 1);
      JoinSessionCycle(mem, ws[i - 1], job, es[i - 1]);
    }
  }

  ghost function JoinStalls(mem: Memory, ws: seq<JoinWorld>, es: seq<JoinEnv>): (flags: seq<bool>)
    requires |es| <= |ws|
    ensures |flags| == |es|
  {
    seq(|es|, i requires 0 <= i < |es| => JoinStalled(mem, ws[i], es[i]))
  }

  /** The sequencing alone, whatever the registers ask the lookup unit to do. */
  ghost predicate Sequenced(w: JoinWorld, total: nat) {
    var r := w.r;
    && r.csr.clsToProcess == total && !r.csr.newPartition
    && if r.ctl.done then
         total >= 1 && !r.ctl.clProcessed && r.ctl.state in {IDLE, WAITING}
       else
         && (r.ctl.clProcessed ==> r.ctl.state == PROCESSING) && (total >= 1 ==> r.ctl.clsDone < total)
         && match r.ctl.state
            case WAITING => false
            case IDLE => Nothing(w) && !r.rx.received && (total >= 1 ==> r.ctl.reqAllowed)
            case REQ => w.pending == [] && !r.rx.received && r.rd.valid == r.rd.issued
            case RSP => !r.rd.issued && !r.rd.valid && |w.pending| == if r.rx.received then 0 else 1
            case PROCESSING => Nothing(w) && !r.rx.received
  }

  function SequenceLeft(r: JoinRegs): int {
    if r.ctl.done then 0 else 7 * (r.csr.clsToProcess - r.ctl.clsDone - 1) + JoinPhaseLeft(r)
  }

  lemma SequenceStarts(mem: Memory, w: JoinWorld, e: JoinEnv)
    requires JoinIdle(w) && w.r.csr.newPartition && JoinQuiet(e.env.wr)
    ensures var w', total := JoinCycle(mem, w, e), w.r.csr.clsToProcess;
      Sequenced(w', total) && !w'.r.ctl.done && SequenceLeft(w'.r) == 7 * total
  {
  }

  /** Without a line to read the flag never comes up; otherwise every unstalled cycle brings it
      exactly one cycle nearer. */
  lemma SequenceStep(mem: Memory, w: JoinWorld, total: nat, e: JoinEnv)
    requires Sequenced(w, total) && JoinQuiet(e.env.wr)
    ensures Sequenced(JoinCycle(mem, w, e), total)
    ensures total >= 1 ==> CountsDown(SequenceLeft(w.r), SequenceLeft(JoinCycle(mem, w, e).r), JoinStalled(mem, w, e))
    ensures total >= 1 ==> (w.r.ctl.done <==> SequenceLeft(w.r) <= 0)
  {
    hide NextLookup, NextEmit;
  }

  lemma {:induction false} RunSequence(mem: Memory, ws: seq<JoinWorld>, es: seq<JoinEnv>, dest: nat, i: nat)
    requires JoinRun(mem, ws, es, dest) && 1 <= i < |ws|
    ensures Sequenced(ws[i], ws[0].r.csr.clsToProcess)
  {
    hide JoinCycle, Sequenced, JoinIdle;
    if i == 1 {
      SequenceStarts(mem, ws[0], es[0]);
    } else {
      RunSequence(mem, ws, es, dest, i - 1);
      SequenceStep(mem, ws[i - 1], ws[0].r.csr.clsToProcess, es[i - 1]);
    }
  }

  lemma SequenceTiming(mem: Memory, ws: seq<JoinWorld>, es: seq<JoinEnv>, dest: nat, i: nat)
    requires JoinRun(mem, ws, es, dest) && 1 <= i <= |es| && ws[0].r.csr.clsToProcess >= 1
    ensures var budget, n := 7 * ws[0].r.csr.clsToProcess, Unstalled(JoinStalls(mem, ws, es), i);
            SequenceLeft(ws[i].r) == if n < budget then budget - n else 0
  {
    var total := ws[0].r.csr.clsToProcess;
    SequenceStarts(mem, ws[0], es[0]);
    assert ws[1] == JoinCycle(mem, ws[0], es[0]);
    hide JoinCycle, Sequenced, JoinIdle, SequenceLeft, CountsDown, Unstalled;
    var left := seq(|ws|, k requires 0 <= k < |ws| => SequenceLeft(ws[k].r));
    forall j, k | 1 <= j < k <= i && k == j + 1 ensures CountsDown(left[j], left[k], JoinStalls(mem, ws, es)[j]) {
      RunSequence(mem, ws, es, dest, j);
      SequenceStep(mem, ws[j], total, es[j]);
      assert ws[k] == JoinCycle(mem, ws[j], es[j]);
    }
    CountDown(left, JoinStalls(mem, ws, es), 7 * total, i);
  }

  /** When exactly an accepted partition is done: it has a line to read, and seven unstalled
      cycles per line have passed since its acceptance. The sequencing does not look at the
      phase: with neither phase selected the flag comes up just the same. */
  lemma JoinDoneExactlyWhen(mem: Memory, ws: seq<JoinWorld>, es: seq<JoinEnv>, dest: nat, i: nat)
    requires JoinRun(mem, ws, es, dest) && 1 <= i <= |es|
    ensures var total := ws[0].r.csr.clsToProcess;
      ws[i].r.ctl.done <==> total >= 1 && Unstalled(JoinStalls(mem, ws, es), i) >= 7 * total
  {
    var total := ws[0].r.csr.clsToProcess;
    RunSequence(mem, ws, es, dest, i);
    if total >= 1 {
      SequenceTiming(mem, ws, es, dest, i);
      DoneIsZero(ws[i], total);
    }
  }

  lemma DoneIsZero(w: JoinWorld, total: nat)
    requires Sequenced(w, total) && total >= 1
    ensures w.r.ctl.done <==> SequenceLeft(w.r) <= 0
  {
  }
}
