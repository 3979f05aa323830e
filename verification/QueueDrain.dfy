/** The accelerator thread's drain loop over the work queue: `while (isNotEmpty()) { work_unit =
    nextElement(); ... }`, with one consumer and any number of concurrently adding threads. Between
    two drains the consumer may add work items itself. */
module QueueDrain {
  import opened WorkQueue

  /** Between two calls in the loop the consumer is about to test or about to take; `Stopped` is
      outside the loop, `Crashed` the use of a NULL work unit. */
  datatype Mode = Testing | Draining | Stopped | Crashed

  datatype Drain = Drain(q: State, mode: Mode, handled: seq<Ptr>)

  /** The statements of the loop. */
  predicate LoopMove(mode: Mode, a: Action) {
    (mode.Testing? && (a.BeginTest? || a.Run?)) || (mode.Draining? && (a.BeginTake? || a.Run?))
  }

  /** Outside the loop its thread may add, or (re)start the loop with its first test. */
  predicate CanStep(d: Drain, c: Tid, t: Tid, a: Action) {
    && Enabled(d.q.m, d.q.Pc(t), a)
    && (if t != c then !a.BeginTake? else LoopMove(d.mode, a) || (d.mode.Stopped? && !a.BeginTake?))
  }

  predicate Starts(d: Drain, a: Action) { d.mode.Stopped? && a.BeginTest? }

  function Step(d: Drain, c: Tid, t: Tid, a: Action): Drain
    requires CanStep(d, c, t, a)
  {
    var (q', r) := Next(d.q, t, a);
    if t != c then d.(q := q') else Respond(if Starts(d, a) then d.(mode := Testing) else d, q', r)
  }

  /** What the loop does with the answer its own call returned, if it returned. */
  function Respond(d: Drain, q': State, r: Ret): Drain {
    match r
    case Tested(notEmpty) => Drain(q', if notEmpty then Draining else Stopped, d.handled)
    case Took(n) => Drain(q', Testing, d.handled + [n])
    case TookNull => Drain(q', Crashed, d.handled)
    case _ => d.(q := q')
  }

  /** The queue was seen non-empty and only this thread removes, so it stays non-empty until
      this thread's own removal, and every snapshot on the way confirms it. */
  ghost predicate ConsumerInv(m: Mem, mode: Mode, pc: Pc) {
    match mode
    case Testing => pc.Idle? || pc.TestReadHead? || (pc.TestReadTail? && pc.seenHead == m.head)
    case Draining =>
      m.head != m.tail
      && (match pc
          case Idle => true
          case TakeReadHead => true
          case TakeReadTail(first) => first == m.head
          case TakeReadNext(first, last) => first == m.head && first != last
          case TakeCheck(first, last, _) => first == m.head && first != last
          case TakeHead(first, _) => first == m.head
          case _ => false)
    case Stopped => pc.Idle? || pc.Adding()
    case Crashed => false
  }

  ghost predicate DrainInv(d: Drain, c: Tid) { Inv(d.q) && LoopInv(d, c) }

  ghost predicate LoopInv(d: Drain, c: Tid) {
    && (forall t :: t in d.q.pcs && t != c ==> !d.q.pcs[t].Taking())
    && d.handled == Dequeued(d.q.m.hist)
    && ConsumerInv(d.q.m, d.mode, d.q.Pc(c))
  }

  lemma DrainStart(dummy: Ptr, mode: Mode, c: Tid)
    requires dummy != NULL && (mode.Testing? || mode.Stopped?)
    ensures DrainInv(Drain(Init(dummy), mode, []), c)
  {
    InitInv(dummy);
  }

  lemma DequeuedAppend(h: seq<Event>, h': seq<Event>)
    requires |h'| == |h| + 1 && h'[..|h|] == h
    ensures Dequeued(h') == Dequeued(h) + if h'[|h|].Deq? then [h'[|h|].node] else []
  {
  }

  /** Threads that do not take never move the head. */
  lemma ProducersLeaveHead(m: Mem, pc: Pc, a: Action)
    requires Enabled(m, pc, a) && !pc.Taking() && !a.BeginTake?
    ensures var (m', pc', r) := Exec(m, pc, a);
            && m'.head == m.head && !pc'.Taking() && !r.Took?
            && (m'.hist == m.hist || (pc.AddLink? && m'.hist == m.hist + [Enq(pc.node)]))
  {
  }

  lemma TailStaysAhead(m: Mem, m': Mem, mine: Ptr)
    requires ListInv(m) && ListInv(m') && Grows(m, m', mine) && m'.head == m.head && m.head != m.tail
    ensures m'.head != m'.tail
  {
    if m.pos[m.head] == m.pos[m.tail] { PosInjective(m, m.head, m.tail); }
  }

  lemma ProducerStep(m: Mem, pc: Pc, a: Action)
    requires ListInv(m) && ThreadInv(m, pc) && Enabled(m, pc, a) && !pc.Taking() && !a.BeginTake?
    ensures var (m', pc', r) := Exec(m, pc, a);
            && m'.head == m.head && (m.head != m.tail ==> m'.head != m'.tail)
            && !pc'.Taking() && Dequeued(m'.hist) == Dequeued(m.hist)
  {
    var m' := Exec(m, pc, a).0;
    StepIsGood(m, pc, a);
    ProducersLeaveHead(m, pc, a);
    if m.head != m.tail { TailStaysAhead(m, m', pc.Unlinked()); }
    if m'.hist != m.hist { DequeuedAppend(m.hist, m'.hist); }
  }

  /** The consumer's statements outside the head CAS only read. */
  lemma ConsumerReads(m: Mem, mode: Mode, pc: Pc, a: Action)
    requires ThreadInv(m, pc) && Enabled(m, pc, a) && ConsumerInv(m, mode, pc)
    requires LoopMove(mode, a)
    ensures var (m', pc', r) := Exec(m, pc, a);
      && r != TookNull && (r.Took? || m' == m)
      && (r.Took? || r.Tested? ==> pc'.Idle?)
      && (r.Tested? ==> r.notEmpty == (m.head != m.tail))
      && (!r.Took? && !r.Tested? ==> ConsumerInv(m, mode, pc'))
  {
  }

  lemma ConsumerStep(m: Mem, mode: Mode, pc: Pc, a: Action)
    requires ListInv(m) && ThreadInv(m, pc) && Enabled(m, pc, a) && ConsumerInv(m, mode, pc)
    requires LoopMove(mode, a)
    ensures var (m', _, r) := Exec(m, pc, a);
      && (r.Took? ==> Dequeued(m'.hist) == Dequeued(m.hist) + [r.node] && m.Queue() == [r.node] + m'.Queue())
      && (!r.Took? ==> m' == m)
  {
    StepIsGood(m, pc, a);
    ConsumerReads(m, mode, pc, a);
    var m' := Exec(m, pc, a).0;
    if m'.hist != m.hist { DequeuedAppend(m.hist, m'.hist); }
  }

  lemma RespondKeepsInv(d: Drain, c: Tid, q': State, r: Ret)
    requires LoopInv(d, c) && q'.pcs == d.q.pcs[c := q'.Pc(c)] && r != TookNull
    requires Dequeued(q'.m.hist) == d.handled + if r.Took? then [r.node] else []
    requires r.Took? || r.Tested? ==> q'.Pc(c).Idle?
    requires r.Tested? ==> r.notEmpty == (q'.m.head != q'.m.tail)
    requires !r.Took? && !r.Tested? ==> ConsumerInv(q'.m, d.mode, q'.Pc(c))
    ensures LoopInv(Respond(d, q', r), c)
  {
  }

  /** Every step of any thread keeps the loop's invariant; in particular, after
      `isNotEmpty()` answered true the following `nextElement()` never answers NULL. */
  lemma DrainStep(d: Drain, c: Tid, t: Tid, a: Action)
    requires DrainInv(d, c) && CanStep(d, c, t, a)
    ensures DrainInv(Step(d, c, t, a), c)
    ensures t == c ==> Next(d.q, t, a).1 != TookNull
  {
    hide Exec, LoopInv, ListInv, SwingInv, OwnershipInv;
    InvIsInductive(d.q, t, a);
    assert ThreadInv(d.q.m, d.q.Pc(t));
    if t == c { OwnStep(d, c, a); } else { OtherStep(d, c, t, a); }
  }

  lemma OwnStep(d: Drain, c: Tid, a: Action)
    requires ListInv(d.q.m) && ThreadInv(d.q.m, d.q.Pc(c)) && LoopInv(d, c) && CanStep(d, c, c, a)
    ensures LoopInv(Step(d, c, c, a), c) && Next(d.q, c, a).1 != TookNull
  {
    hide Exec, LoopInv, ListInv, ThreadInv;
    if d.mode.Stopped? { OutsideStep(d, c, a); } else { InsideStep(d, c, a); }
  }

  /** Outside the loop the consumer is one more producer. */
  lemma OutsideStep(d: Drain, c: Tid, a: Action)
    requires ListInv(d.q.m) && ThreadInv(d.q.m, d.q.Pc(c)) && LoopInv(d, c) && CanStep(d, c, c, a) && d.mode.Stopped?
    ensures LoopInv(Step(d, c, c, a), c) && Next(d.q, c, a).1 != TookNull
  {
    var m, pc := d.q.m, d.q.Pc(c);
    ProducerStep(m, pc, a);
    OutsideAnswers(m, pc, a);
    hide Exec, ListInv, ThreadInv;
    var (q', r) := Next(d.q, c, a);
    assert q'.pcs == d.q.pcs[c := q'.Pc(c)];
  }

  lemma OutsideAnswers(m: Mem, pc: Pc, a: Action)
    requires Enabled(m, pc, a) && !a.BeginTake? && (pc.Idle? || pc.Adding())
    ensures var (m', pc', r) := Exec(m, pc, a);
      && !r.Took? && r != TookNull && !r.Tested?
      && (if a.BeginTest? then m' == m && pc' == TestReadHead else pc'.Idle? || pc'.Adding())
  {
  }

  lemma InsideStep(d: Drain, c: Tid, a: Action)
    requires ListInv(d.q.m) && ThreadInv(d.q.m, d.q.Pc(c)) && LoopInv(d, c) && CanStep(d, c, c, a) && !d.mode.Stopped?
    ensures LoopInv(Step(d, c, c, a), c) && Next(d.q, c, a).1 != TookNull
  {
    var m, pc := d.q.m, d.q.Pc(c);
    ConsumerReads(m, d.mode, pc, a);
    ConsumerStep(m, d.mode, pc, a);
    var (q', r) := Next(d.q, c, a);
    RespondKeepsInv(d, c, q', r);
  }

  lemma OtherStep(d: Drain, c: Tid, t: Tid, a: Action)
    requires ListInv(d.q.m) && ThreadInv(d.q.m, d.q.Pc(t)) && LoopInv(d, c) && CanStep(d, c, t, a) && t != c
    ensures LoopInv(Step(d, c, t, a), c)
  {
    var m, pc := d.q.m, d.q.Pc(t);
    ProducerStep(m, pc, a);
    ConsumerUndisturbed(d, c, t, Next(d.q, t, a).0);
  }

  lemma ConsumerUndisturbed(d: Drain, c: Tid, t: Tid, q': State)
    requires LoopInv(d, c) && t != c && q'.pcs == d.q.pcs[t := q'.Pc(t)] && !q'.Pc(t).Taking()
    requires var (m, m') := (d.q.m, q'.m);
             m'.head == m.head && (m.head != m.tail ==> m'.head != m'.tail) && Dequeued(m'.hist) == Dequeued(m.hist)
    ensures LoopInv(d.(q := q'), c)
  {
  }

  /** What `isNotEmpty()` answering false means: at most one element is left behind, and none
      exactly when the last tail swing has neither been lost to a spurious failure nor is still
      to come. With no `add` under way only a lost swing can hide an element; otherwise every
      node ever enqueued has been handled, once, in order. */
  lemma LoopExit(d: Drain, c: Tid, a: Action)
    requires DrainInv(d, c) && CanStep(d, c, c, a) && Next(d.q, c, a).1 == Tested(false)
    ensures var d' := Step(d, c, c, a); d'.mode.Stopped? && d'.q.m == d.q.m && d'.handled == d.handled
    ensures |d.q.m.Queue()| <= 1
    ensures d.q.m.Queue() == [] <==> !d.q.m.swingLost && !Owed(d.q)
    ensures d.handled == Enqueued(d.q.m.hist) <==> d.q.m.Queue() == []
    ensures (forall t :: t in d.q.pcs ==> !d.q.pcs[t].Adding()) ==> (d.q.m.Queue() == [] <==> !d.q.m.swingLost)
  {
    LegalHistoryIsFifo(d.q.m.hist);
    LaggingExactlyWhen(d.q);
    HeadIsTail(d, c, a);
    hide Replay, Chain, ThreadInv, OwnershipInv, OwedInv, Dequeued, Enqueued, Exec;
    var q := d.q.m.Queue();
    assert Dequeued(d.q.m.hist) == Enqueued(d.q.m.hist) <==> q == [];
  }

  lemma HeadIsTail(d: Drain, c: Tid, a: Action)
    requires DrainInv(d, c) && CanStep(d, c, c, a) && Next(d.q, c, a).1 == Tested(false)
    ensures var m := d.q.m;
      m.head == m.tail && m.head in m.pos && m.pos[m.head] < |m.link| <= m.pos[m.head] + 2
    ensures var d' := Step(d, c, c, a); d'.mode.Stopped? && d'.q.m == d.q.m && d'.handled == d.handled
  {
    hide Replay, OwnershipInv, OwedInv, Dequeued, Enqueued;
  }

  predicate StepsTo(s: State, a: Action, s': State) { Enabled(s.m, s.Pc(7), a) && Next(s, 7, a).0 == s' }

  lemma LostSwingReads(m: Mem)
    requires m == Init(1).m.(next := map[1 := NULL, 2 := NULL])
    ensures StepsTo(Init(1), BeginAdd(2), State(m, map[7 := AddReadTail(2)]))
    ensures StepsTo(State(m, map[7 := AddReadTail(2)]), Run(false), State(m, map[7 := AddReadNext(2, 1)]))
    ensures StepsTo(State(m, map[7 := AddReadNext(2, 1)]), Run(false), State(m, map[7 := AddCheck(2, 1, NULL)]))
    ensures StepsTo(State(m, map[7 := AddCheck(2, 1, NULL)]), Run(false), State(m, map[7 := AddLink(2, 1)]))
  {
  }

  lemma LostSwingWrites(m: Mem)
    requires m == Init(1).m.(next := map[1 := NULL, 2 := NULL])
    ensures var m' := m.Linked(1, 2);
      && StepsTo(State(m, map[7 := AddLink(2, 1)]), Run(false), State(m', map[7 := AddSwing(2, 1)]))
      && StepsTo(State(m', map[7 := AddSwing(2, 1)]), Run(true), State(m'.(swingLost := true), map[7 := Idle]))
      && m'.head == m'.tail == 1 && m'.(swingLost := true).Queue() == [2]
  {
  }

  /** The single element left behind is real: here the only tail swing fails spuriously, the
      adding thread finishes, and `isNotEmpty()` would answer false with a node queued. */
  lemma LostSwingHidesElement() returns (states: seq<State>, moves: seq<Move>)
    ensures IsRun(states, moves, 1)
    ensures var s := states[|moves|];
            && (forall t :: t in s.pcs ==> s.pcs[t].Idle?)
            && s.m.head == s.m.tail && s.m.Queue() == [2]
  {
    hide Exec, Enabled, Mem.Linked;
    var run := Move(7, Run(false));
    moves := [Move(7, BeginAdd(2)), run, run, run, run, Move(7, Run(true))];
    var m1 := Init(1).m.(next := map[1 := NULL, 2 := NULL]);
    var m2 := m1.Linked(1, 2);
    states := [Init(1),
               State(m1, map[7 := AddReadTail(2)]),
               State(m1, map[7 := AddReadNext(2, 1)]),
               State(m1, map[7 := AddCheck(2, 1, NULL)]),
               State(m1, map[7 := AddLink(2, 1)]),
               State(m2, map[7 := AddSwing(2, 1)]),
               State(m2.(swingLost := true), map[7 := Idle])];
    LostSwingReads(m1);
    LostSwingWrites(m1);
  }

  function Rank(mode: Mode, pc: Pc): nat {
    match mode
    case Testing => (match pc case Idle => 10 case TestReadHead => 9 case _ => 8)
    case Draining =>
      (match pc case Idle => 7 case TakeReadHead => 6 case TakeReadTail(_) => 5
       case TakeReadNext(_, _) => 4 case TakeCheck(_, _, _) => 3 case _ => 2)
    case _ => 0
  }

  /** Twelve units per queued element plus the position in the loop. */
  function Measure(d: Drain, c: Tid): nat { 12 * |d.q.m.Queue()| + Rank(d.mode, d.q.Pc(c)) }

  lemma ConsumerProgress(d: Drain, c: Tid, a: Action)
    requires DrainInv(d, c) && CanStep(d, c, c, a) && !d.mode.Stopped?
    ensures Measure(Step(d, c, c, a), c) < Measure(d, c) + if a == Run(true) then 5 else 0
  {
    var m, pc := d.q.m, d.q.Pc(c);
    assert ThreadInv(m, pc);
    ConsumerReads(m, d.mode, pc, a);
    ConsumerStep(m, d.mode, pc, a);
    RankDrops(m, d.mode, pc, a);
    var (q', r) := Next(d.q, c, a);
    RespondProgress(d, c, q', r, a == Run(true));
  }

  lemma RespondProgress(d: Drain, c: Tid, q': State, r: Ret, spurious: bool)
    requires r != TookNull && (r.Took? ==> d.q.m.Queue() == [r.node] + q'.m.Queue() && q'.Pc(c).Idle?)
    requires !r.Took? ==> q'.m == d.q.m
    requires d.mode.Testing? || d.mode.Draining?
    requires var after := if r.Tested? then (if r.notEmpty then Draining else Stopped) else d.mode;
             r.Took? || Rank(after, q'.Pc(c)) < Rank(d.mode, d.q.Pc(c)) + if spurious then 5 else 0
    ensures Measure(Respond(d, q', r), c) < Measure(d, c) + if spurious then 5 else 0
  {
    if r.Took? { assert |d.q.m.Queue()| == 1 + |q'.m.Queue()|; }
  }

  lemma RankDrops(m: Mem, mode: Mode, pc: Pc, a: Action)
    requires ThreadInv(m, pc) && Enabled(m, pc, a) && ConsumerInv(m, mode, pc)
    requires LoopMove(mode, a)
    ensures var (m', pc', r) := Exec(m, pc, a);
      var after := if r.Tested? then (if r.notEmpty then Draining else Stopped) else mode;
      r.Took? || Rank(after, pc') < Rank(mode, pc) + if a == Run(true) then 5 else 0
  {
  }

  // ---------------------------------------------------------------------------------------
  // Runs of the loop beside producers

  /** A run of the consumer's loop with any number of threads adding in between. */
  ghost predicate DrainRun(ds: seq<Drain>, moves: seq<Move>, c: Tid) {
    && |ds| == |moves| + 1
    && forall i :: 0 <= i < |moves| ==>
         CanStep(ds[i], c, moves[i].t, moves[i].a) && Step(ds[i], c, moves[i].t, moves[i].a) == ds[i + 1]
  }

  /** From the empty queue, the loop started or not. */
  ghost predicate FromStart(ds: seq<Drain>, dummy: Ptr) {
    && dummy != NULL && ds != [] && ds[0].q == Init(dummy) && ds[0].handled == []
    && (ds[0].mode.Testing? || ds[0].mode.Stopped?)
  }

  lemma {:induction false} DrainRunInv(ds: seq<Drain>, moves: seq<Move>, c: Tid, i: nat)
    requires DrainRun(ds, moves, c) && i < |ds| && DrainInv(ds[0], c)
    ensures DrainInv(ds[i], c)
  {
    hide Step, DrainInv;
    if i > 0 {
      DrainRunInv(ds, moves, c, i - 1);
      DrainStep(ds[i - 1], c, moves[i - 1].t, moves[i - 1].a);
    }
  }

  /** From an empty queue on, whatever the producers do: no NULL work unit is ever used, what has
      been handled followed by what is queued is what was enqueued, in order, and unless the loop
      has stopped its thread has a next statement. */
  lemma DrainIsSafe(ds: seq<Drain>, moves: seq<Move>, dummy: Ptr, c: Tid, i: nat)
    requires FromStart(ds, dummy) && DrainRun(ds, moves, c) && i < |ds|
    ensures !ds[i].mode.Crashed?
    ensures Enqueued(ds[i].q.m.hist) == ds[i].handled + ds[i].q.m.Queue()
    ensures !ds[i].mode.Stopped? ==> exists a :: CanStep(ds[i], c, c, a)
  {
    DrainStart(dummy, ds[0].mode, c);
    DrainRunInv(ds, moves, c, i);
    LegalHistoryIsFifo(ds[i].q.m.hist);
    if !ds[i].mode.Stopped? {
      var a := NextStatement(ds[i], c);
    }
  }

  /** The consumer is never blocked. */
  lemma NextStatement(d: Drain, c: Tid) returns (a: Action)
    requires DrainInv(d, c) && !d.mode.Stopped?
    ensures CanStep(d, c, c, a)
  {
    hide Inv;
    a := if !d.q.Pc(c).Idle? then Run(false) else if d.mode.Testing? then BeginTest else BeginTake;
  }

  /** Where the loop stops: everything enqueued so far has been handled exactly when the last
      tail swing has neither been lost nor is still to come; else one element is left. */
  lemma DrainStopsExactly(ds: seq<Drain>, moves: seq<Move>, c: Tid, i: nat)
    requires DrainRun(ds, moves, c) && DrainInv(ds[0], c) && i < |moves|
    requires !ds[i].mode.Stopped? && ds[i + 1].mode.Stopped?
    ensures |ds[i + 1].q.m.Queue()| <= 1
    ensures ds[i + 1].handled == Enqueued(ds[i + 1].q.m.hist) <==> !ds[i].q.m.swingLost && !Owed(ds[i].q)
    ensures (forall t :: t in ds[i].q.pcs ==> !ds[i].q.pcs[t].Adding()) ==>
              (ds[i + 1].handled == Enqueued(ds[i + 1].q.m.hist) <==> !ds[i].q.m.swingLost)
  {
    DrainRunInv(ds, moves, c, i);
    StopIsTested(ds[i], c, moves[i].t, moves[i].a);
    LoopExit(ds[i], c, moves[i].a);
  }

  predicate DrainSwingsSucceed(ds: seq<Drain>, moves: seq<Move>) {
    |moves| <= |ds| && forall i :: 0 <= i < |moves| && ds[i].q.Pc(moves[i].t).AddSwing? ==> moves[i].a != Run(true)
  }

  lemma {:induction false} NothingLostInDrain(ds: seq<Drain>, moves: seq<Move>, c: Tid, i: nat)
    requires DrainRun(ds, moves, c) && DrainInv(ds[0], c) && !Lagging(ds[0].q.m)
    requires DrainSwingsSucceed(ds, moves) && i < |ds|
    ensures !ds[i].q.m.swingLost
  {
    hide Exec, LoopInv, ListInv, Enabled;
    if i > 0 {
      NothingLostInDrain(ds, moves, c, i - 1);
      DrainRunInv(ds, moves, c, i - 1);
      KnownPlaces(ds[i - 1].q, moves[i - 1].t);
      SwingExactly(ds[i - 1].q.m, ds[i - 1].q.Pc(moves[i - 1].t), moves[i - 1].a);
    }
  }

  /** A drain in which no tail swing fails spuriously and that stops when no node is linked but not
      swung to has handled everything enqueued, in order. */
  lemma CleanDrain(ds: seq<Drain>, moves: seq<Move>, c: Tid, i: nat)
    requires DrainRun(ds, moves, c) && DrainInv(ds[0], c) && !Lagging(ds[0].q.m) && DrainSwingsSucceed(ds, moves)
    requires i < |moves| && !ds[i].mode.Stopped? && ds[i + 1].mode.Stopped?
    requires forall t :: t in ds[i].q.pcs ==> !ds[i].q.pcs[t].AddSwing?
    ensures ds[i + 1].handled == Enqueued(ds[i + 1].q.m.hist) && ds[i + 1].q.m.Queue() == []
  {
    hide Exec, DrainInv, Enqueued;
    NothingLostInDrain(ds, moves, c, i);
    DrainStopsExactly(ds, moves, c, i);
    DrainRunInv(ds, moves, c, i + 1);
    NothingElse(ds[i + 1], c);
  }

  lemma NothingElse(d: Drain, c: Tid)
    requires DrainInv(d, c) && d.handled == Enqueued(d.q.m.hist)
    ensures d.q.m.Queue() == []
  {
    LegalHistoryIsFifo(d.q.m.hist);
  }

  lemma StopIsTested(d: Drain, c: Tid, t: Tid, a: Action)
    requires CanStep(d, c, t, a) && !d.mode.Stopped? && Step(d, c, t, a).mode.Stopped?
    ensures t == c && Next(d.q, c, a).1 == Tested(false)
  {
    hide Exec;
  }

  /** A statement of the loop, its (re)start included. */
  predicate InLoop(d: Drain, c: Tid, mv: Move) { mv.t == c && (!d.mode.Stopped? || mv.a.BeginTest?) }

  /** The statements of the loop among the first `i` moves, its spurious failures among them, and
      how often it was started. */
  function OwnSteps(ds: seq<Drain>, moves: seq<Move>, c: Tid, i: nat): nat
    requires i <= |moves| <= |ds|
  {
    if i == 0 then 0 else OwnSteps(ds, moves, c, i - 1) + if InLoop(ds[i - 1], c, moves[i - 1]) then 1 else 0
  }

  function OwnFailures(ds: seq<Drain>, moves: seq<Move>, c: Tid, i: nat): nat
    requires i <= |moves| <= |ds|
  {
    if i == 0 then 0
    else OwnFailures(ds, moves, c, i - 1)
         + if InLoop(ds[i - 1], c, moves[i - 1]) && moves[i - 1].a == Run(true) then 1 else 0
  }

  function OwnStarts(ds: seq<Drain>, moves: seq<Move>, c: Tid, i: nat): nat
    requires i <= |moves| <= |ds|
  {
    if i == 0 then 0
    else OwnStarts(ds, moves, c, i - 1)
         + if moves[i - 1].t == c && Starts(ds[i - 1], moves[i - 1].a) then 1 else 0
  }

  /** A producer's step leaves the consumer's place alone and adds at most one element. */
  lemma ProducerMeasure(d: Drain, c: Tid, t: Tid, a: Action)
    requires DrainInv(d, c) && CanStep(d, c, t, a) && !InLoop(d, c, Move(t, a))
    ensures var d' := Step(d, c, t, a);
      Measure(d', c) - Measure(d, c) == 12 * (|Enqueued(d'.q.m.hist)| - |Enqueued(d.q.m.hist)|)
  {
    hide DrainInv, Exec, Enqueued, ThreadInv, ListInv;
    ProducerIsGood(d, c, t);
    ProducerGrows(d.q.m, d.q.Pc(t), a);
    if t == c { OutsideAnswers(d.q.m, d.q.Pc(c), a); }
  }

  lemma ProducerIsGood(d: Drain, c: Tid, t: Tid)
    requires DrainInv(d, c) && (t != c || d.mode.Stopped?)
    ensures t == c ==> d.q.Pc(c).Idle? || d.q.Pc(c).Adding()
    ensures ListInv(d.q.m) && ThreadInv(d.q.m, d.q.Pc(t)) && !d.q.Pc(t).Taking()
  {
    hide ListInv;
    if t in d.q.pcs { assert ThreadInv(d.q.m, d.q.pcs[t]); }
  }

  lemma ProducerGrows(m: Mem, pc: Pc, a: Action)
    requires ListInv(m) && ThreadInv(m, pc) && Enabled(m, pc, a) && !pc.Taking() && !a.BeginTake?
    ensures var m' := Exec(m, pc, a).0; |m'.Queue()| - |m.Queue()| == |Enqueued(m'.hist)| - |Enqueued(m.hist)|
  {
    StepIsGood(m, pc, a);
    ProducersLeaveHead(m, pc, a);
    hide Exec, ListInv, ThreadInv, Enqueued, Grows;
    var m' := Exec(m, pc, a).0;
    if m'.hist != m.hist { EnqueuedNext(m.hist, m'.hist[|m.hist|]); }
  }

  /** Starting the loop has the rank of its first test. */
  lemma StartMeasure(d: Drain, c: Tid, a: Action)
    requires CanStep(d, c, c, a) && Starts(d, a)
    ensures var d' := Step(d, c, c, a);
      Measure(d', c) == Measure(d, c) + 9 && Enqueued(d'.q.m.hist) == Enqueued(d.q.m.hist)
  {
    hide Enqueued;
  }

  lemma ConsumerMeasure(d: Drain, c: Tid, a: Action)
    requires DrainInv(d, c) && CanStep(d, c, c, a) && !d.mode.Stopped?
    ensures var d' := Step(d, c, c, a);
      && Measure(d', c) < Measure(d, c) + (if a == Run(true) then 5 else 0)
      && Enqueued(d'.q.m.hist) == Enqueued(d.q.m.hist)
  {
    hide DrainInv, Exec, Enqueued, ThreadInv, ListInv, ConsumerInv, Measure;
    ConsumerProgress(d, c, a);
    ConsumerIsGood(d, c);
    ConsumerAddsNothing(d.q.m, d.mode, d.q.Pc(c), a);
  }

  lemma ConsumerIsGood(d: Drain, c: Tid)
    requires DrainInv(d, c)
    ensures ListInv(d.q.m) && ThreadInv(d.q.m, d.q.Pc(c)) && ConsumerInv(d.q.m, d.mode, d.q.Pc(c))
  {
    hide ListInv, ConsumerInv;
    if c in d.q.pcs { assert ThreadInv(d.q.m, d.q.pcs[c]); }
  }

  lemma ConsumerAddsNothing(m: Mem, mode: Mode, pc: Pc, a: Action)
    requires ListInv(m) && ThreadInv(m, pc) && Enabled(m, pc, a) && ConsumerInv(m, mode, pc)
    requires LoopMove(mode, a)
    ensures Enqueued(Exec(m, pc, a).0.hist) == Enqueued(m.hist)
  {
    hide Exec, ListInv, ThreadInv, Enqueued, GoodStep, ConsumerInv;
    NoneAdding(m, mode, pc, a);
    StepIsGood(m, pc, a);
    var m' := Exec(m, pc, a).0;
    if m'.hist != m.hist {
      EnqueuedNext(m.hist, m'.hist[|m.hist|]);
      assert m'.hist == m.hist + [m'.hist[|m.hist|]];
    }
  }

  lemma NoneAdding(m: Mem, mode: Mode, pc: Pc, a: Action)
    requires ConsumerInv(m, mode, pc) && LoopMove(mode, a)
    ensures !pc.Adding()
  {
  }

  /** The loop terminates: beside any producers, its thread executes at most twelve statements of
      it per element queued at the start or enqueued since, ten per start of the loop, a constant,
      and five per spurious failure. As long as it has not stopped it can go on (`DrainIsSafe`), so
      it stops once its thread has been given that many statements. */
  lemma {:induction false} DrainTerminates(ds: seq<Drain>, moves: seq<Move>, c: Tid, i: nat)
    requires DrainRun(ds, moves, c) && i <= |moves| && DrainInv(ds[0], c)
    ensures OwnSteps(ds, moves, c, i) + Measure(ds[i], c)
            <= Measure(ds[0], c) + 12 * (|Enqueued(ds[i].q.m.hist)| - |Enqueued(ds[0].q.m.hist)|)
               + 5 * OwnFailures(ds, moves, c, i) + 10 * OwnStarts(ds, moves, c, i)
  {
    hide Step, DrainInv, Measure, Enqueued;
    if i > 0 {
      DrainTerminates(ds, moves, c, i - 1);
      DrainRunInv(ds, moves, c, i - 1);
      if !InLoop(ds[i - 1], c, moves[i - 1]) {
        ProducerMeasure(ds[i - 1], c, moves[i - 1].t, moves[i - 1].a);
      } else if ds[i - 1].mode.Stopped? {
        StartMeasure(ds[i - 1], c, moves[i - 1].a);
      } else {
        ConsumerMeasure(ds[i - 1], c, moves[i - 1].a);
      }
    }
  }

  /** The bound from the empty queue on. */
  lemma DrainStops(ds: seq<Drain>, moves: seq<Move>, dummy: Ptr, c: Tid, i: nat)
    requires FromStart(ds, dummy) && DrainRun(ds, moves, c) && i <= |moves|
    ensures OwnSteps(ds, moves, c, i)
            <= 10 + 12 * |Enqueued(ds[i].q.m.hist)| + 5 * OwnFailures(ds, moves, c, i) + 10 * OwnStarts(ds, moves, c, i)
  {
    DrainStart(dummy, ds[0].mode, c);
    DrainTerminates(ds, moves, c, i);
  }
}
