/** Lock-freedom of the work queue: a statement is only repeated because another thread got
    further, so while threads run, calls complete. */
module LockFreedom {
  import opened WorkQueue

  /** How far the list, the tail and the head have got. Nothing ever takes it back. */
  function Reach(m: Mem): nat { |m.link| + At(m, m.tail) + At(m, m.head) }

  function At(m: Mem, p: Ptr): nat { if p in m.pos then m.pos[p] else 0 }

  /** A snapshot some other thread has overtaken: it can only lead back to the loop's start. */
  predicate Overtaken(m: Mem, pc: Pc) {
    match pc
    case AddReadNext(_, last) => last != m.tail
    case AddCheck(_, last, next) => last != m.tail || (next == NULL && m.Load(last) != NULL)
    case AddLink(_, last) => m.Load(last) != NULL
    case AddHelp(_, last, _) => last != m.tail
    case TakeReadTail(first) => first != m.head
    case TakeReadNext(first, last) => first != m.head || (first == last && last != m.tail)
    case TakeCheck(first, last, _) => first != m.head || (first == last && last != m.tail)
    case TakeHelp(last, _) => last != m.tail
    case TakeHead(first, _) => first != m.head
    case _ => false
  }

  /** Statements left on the straight path out of the call. */
  function Left(pc: Pc): nat {
    match pc
    case Idle => 0
    case AddReadTail(_) => 5
    case AddReadNext(_, _) => 4
    case AddCheck(_, _, _) => 3
    case AddLink(_, _) => 2
    case AddHelp(_, _, _) => 2
    case AddSwing(_, _) => 1
    case TakeReadHead => 5
    case TakeReadTail(_) => 4
    case TakeReadNext(_, _) => 3
    case TakeCheck(_, _, _) => 2
    case TakeHelp(_, _) => 1
    case TakeHead(_, _) => 1
    case TestReadHead => 2
    case TestReadTail(_) => 1
  }

  /** An overtaken snapshot costs one more time round. */
  function Toll(m: Mem, pc: Pc): nat { Left(pc) + if Overtaken(m, pc) then 5 else 0 }

  /** A compare-exchange of the two loops that fails for no reason. */
  predicate FailsSpuriously(pc: Pc, a: Action) {
    a == Run(true) && (pc.AddLink? || pc.AddHelp? || pc.TakeHelp? || pc.TakeHead?)
  }

  // ---------------------------------------------------------------------------------------
  // One step

  /** Nothing is taken back, and whatever moves moves on. */
  lemma ReachGrows(m: Mem, m': Mem, mine: Ptr)
    requires ListInv(m) && ListInv(m') && Grows(m, m', mine) && |m.link| <= |m'.link|
    ensures Reach(m) <= Reach(m')
    ensures m'.tail != m.tail || m'.head != m.head || |m.link| < |m'.link| ==> Reach(m) < Reach(m')
  {
    hide Replay, Chain;
    if m'.tail != m.tail && m'.pos[m.tail] == m'.pos[m'.tail] { PosInjective(m', m.tail, m'.tail); }
    if m'.head != m.head && m'.pos[m.head] == m'.pos[m'.head] { PosInjective(m', m.head, m'.head); }
  }

  /** A node gets its successor by being linked to. */
  lemma SuccessorIsNew(m: Mem, m': Mem, mine: Ptr, p: Ptr)
    requires ListInv(m) && ListInv(m') && Grows(m, m', mine) && p in m.pos && |m.link| <= |m'.link|
    requires m.Load(p) == NULL && m'.Load(p) != NULL
    ensures |m.link| < |m'.link|
  {
    hide Replay;
    ChainNext(m, p);
    ChainNext(m', p);
  }

  lemma StepGrows(m: Mem, pc: Pc, a: Action)
    requires ListInv(m) && ThreadInv(m, pc) && Enabled(m, pc, a)
    ensures var m' := Exec(m, pc, a).0;
      ListInv(m') && Grows(m, m', pc.Unlinked()) && |m.link| <= |m'.link|
  {
    hide Exec, ListInv, Grows, FifoStep, Enabled;
    StepIsGood(m, pc, a);
    LinkedAndRecorded(m, pc, a);
  }

  /** A snapshot is overtaken only by another thread getting further. */
  lemma OthersStep(m: Mem, m': Mem, mine: Ptr, pc: Pc)
    requires ListInv(m) && ListInv(m') && Grows(m, m', mine) && |m.link| <= |m'.link|
    requires ThreadInv(m, pc)
    ensures Toll(m', pc) <= Toll(m, pc) + 5 * (Reach(m') - Reach(m))
  {
    hide ListInv, Grows, Reach;
    ReachGrows(m, m', mine);
    if (pc.AddCheck? || pc.AddLink?) && m.Load(pc.last) == NULL && m'.Load(pc.last) != NULL {
      SuccessorIsNew(m, m', mine, pc.last);
    }
  }

  lemma SuccessorIsAnother(m: Mem, p: Ptr)
    requires ListInv(m) && p in m.pos && m.Load(p) != NULL
    ensures m.Load(p) != p
  {
    hide Replay;
    ChainNext(m, p);
  }

  /** A thread's own statement pays for itself, unless it fails for no reason or starts a call. */
  lemma OwnStep(m: Mem, pc: Pc, a: Action)
    requires ListInv(m) && ThreadInv(m, pc) && Enabled(m, pc, a)
    ensures var (m', pc', _) := Exec(m, pc, a);
      Toll(m', pc') + 1 <= Toll(m, pc) + 5 * (Reach(m') - Reach(m))
                           + (if FailsSpuriously(pc, a) then 5 else 0) + (if a.Run? then 0 else 6)
  {
    hide ListInv, Grows, Reach;
    StepGrows(m, pc, a);
    ReachGrows(m, Exec(m, pc, a).0, pc.Unlinked());
    if pc.AddHelp? || pc.TakeHelp? { SuccessorIsAnother(m, pc.last); }
    if pc.TakeHead? { SuccessorIsAnother(m, pc.first); }
  }

  /** What the checks on lines 83 and 104 are for: a thread goes on to a compare-exchange, or to the
      answer NULL, only if the tail (the head) it read is still the tail (the head), and otherwise
      starts again. */
  lemma ChecksCatchOvertaken(m: Mem, pc: Pc, a: Action)
    requires Enabled(m, pc, a) && (pc.AddCheck? || pc.TakeCheck?)
    ensures var (m', pc', r) := Exec(m, pc, a);
      && m' == m && (pc' in {AddReadTail(pc.Unlinked()), TakeReadHead} <==>
                       if pc.AddCheck? then pc.last != m.tail else pc.first != m.head)
      && (r == TookNull ==> pc.first == m.head == pc.last)
  {
  }

  // ---------------------------------------------------------------------------------------
  // Runs

  /** What some statements amount to: how many they are, the calls they begin and complete, the
      compare-exchanges that fail for no reason, the nodes they link. */
  datatype Tally = Tally(steps: nat, begun: nat, done: nat, failed: nat, linked: nat)
  {
    function Plus(o: Tally): Tally {
      Tally(steps + o.steps, begun + o.begun, done + o.done, failed + o.failed, linked + o.linked)
    }
  }

  const NONE := Tally(0, 0, 0, 0, 0)

  function Single(s: State, mv: Move): Tally
    requires Enabled(s.m, s.Pc(mv.t), mv.a)
  {
    var (m', pc', r) := Exec(s.m, s.Pc(mv.t), mv.a);
    Tally(1, if mv.a.Run? then 0 else 1, if r == NoRet then 0 else 1,
          if FailsSpuriously(s.Pc(mv.t), mv.a) then 1 else 0, if s.Pc(mv.t).AddLink? && pc'.AddSwing? then 1 else 0)
  }

  /** What thread `t` did from state `lo` to state `hi`. */
  ghost function Of(states: seq<State>, moves: seq<Move>, dummy: Ptr, t: Tid, lo: nat, hi: nat): Tally
    requires IsRun(states, moves, dummy) && lo <= hi < |states|
  {
    if lo == hi then NONE
    else Of(states, moves, dummy, t, lo, hi - 1).Plus(
           if moves[hi - 1].t == t then Single(states[hi - 1], moves[hi - 1]) else NONE)
  }

  /** What threads `0` to `n - 1` did up to state `hi`. */
  ghost function Total(states: seq<State>, moves: seq<Move>, dummy: Ptr, n: nat, hi: nat): Tally
    requires IsRun(states, moves, dummy) && hi < |states|
  {
    if n == 0 then NONE
    else Total(states, moves, dummy, n - 1, hi).Plus(Of(states, moves, dummy, n - 1, 0, hi))
  }

  /** One step of the run, for the thread that makes it and for one that does not. */
  lemma RunStep(s: State, mv: Move, t: Tid)
    requires Inv(s) && Enabled(s.m, s.Pc(mv.t), mv.a)
    ensures var s', c := Next(s, mv.t, mv.a).0, Single(s, mv);
      var gained := 5 * (Reach(s'.m) - Reach(s.m));
      && gained >= 0
      && (mv.t == t ==> Toll(s'.m, s'.Pc(t)) + 1 <= Toll(s.m, s.Pc(t)) + gained + 5 * c.failed + 6 * c.begun)
      && (mv.t != t ==> Toll(s'.m, s'.Pc(t)) <= Toll(s.m, s.Pc(t)) + gained)
  {
    hide ListInv, ThreadInv, Grows, Reach, Toll, Exec, Enabled, OwnershipInv, SwingInv;
    var m, pc, m' := s.m, s.Pc(mv.t), Next(s, mv.t, mv.a).0.m;
    KnownPlaces(s, mv.t);
    KnownPlaces(s, t);
    StepGrows(m, pc, mv.a);
    ReachGrows(m, m', pc.Unlinked());
    if mv.t == t { OwnStep(m, pc, mv.a); } else { OthersStep(m, m', pc.Unlinked(), s.Pc(t)); }
  }

  /** In any stretch of any run, a thread executes at most six statements per call it begins and
      five per place the list, the tail or the head advances, be it by others, and per spurious
      failure of its own, besides those left of the call it is in. */
  lemma {:induction false} StatementsAreBounded(
      states: seq<State>, moves: seq<Move>, dummy: Ptr, t: Tid, lo: nat, hi: nat)
    requires IsRun(states, moves, dummy) && lo <= hi < |states|
    ensures var c := Of(states, moves, dummy, t, lo, hi);
      && Reach(states[lo].m) <= Reach(states[hi].m)
      && c.steps + Toll(states[hi].m, states[hi].Pc(t))
         <= Toll(states[lo].m, states[lo].Pc(t)) + 6 * c.begun + 5 * c.failed
            + 5 * (Reach(states[hi].m) - Reach(states[lo].m))
  {
    hide Toll, Reach, Single, Enabled, Inv;
    if lo < hi {
      StatementsAreBounded(states, moves, dummy, t, lo, hi - 1);
      RunInv(states, moves, dummy, hi - 1);
      RunStep(states[hi - 1], moves[hi - 1], t);
      SingleStep(states[hi - 1], moves[hi - 1]);
    }
  }

  lemma SingleStep(s: State, mv: Move)
    requires Enabled(s.m, s.Pc(mv.t), mv.a)
    ensures Single(s, mv).steps == 1
  {
  }

  predicate AtLoopStart(pc: Pc) { pc.AddReadTail? || pc.TakeReadHead? }

  /** A retry means progress: if a thread comes back to the start of its loop in the same call,
      without a spurious failure of its own, the list, the tail or the head has advanced since. */
  lemma RetryMeansProgress(states: seq<State>, moves: seq<Move>, dummy: Ptr, t: Tid, i: nat, l: nat)
    requires IsRun(states, moves, dummy) && i < l < |states| && moves[i].t == t
    requires AtLoopStart(states[i].Pc(t)) && AtLoopStart(states[l].Pc(t))
    requires Of(states, moves, dummy, t, i, l).begun == 0 == Of(states, moves, dummy, t, i, l).failed
    ensures Reach(states[i].m) < Reach(states[l].m)
  {
    hide Exec, Reach;
    StatementsAreBounded(states, moves, dummy, t, i, l);
    FirstCounts(states, moves, dummy, t, i, l);
  }

  lemma {:induction false} FirstCounts(states: seq<State>, moves: seq<Move>, dummy: Ptr, t: Tid, i: nat, l: nat)
    requires IsRun(states, moves, dummy) && i < l < |states| && moves[i].t == t
    ensures Of(states, moves, dummy, t, i, l).steps >= 1
  {
    hide Exec;
    if i + 1 < l { FirstCounts(states, moves, dummy, t, i, l - 1); }
  }

  /** A thread completes the calls it begins, except the one it is in, and links at most one
      node in each. */
  lemma {:induction false} CallsBalance(states: seq<State>, moves: seq<Move>, dummy: Ptr, t: Tid, hi: nat)
    requires IsRun(states, moves, dummy) && hi < |states|
    ensures var c, pc := Of(states, moves, dummy, t, 0, hi), states[hi].Pc(t);
      && c.begun == c.done + (if pc.Idle? then 0 else 1)
      && c.linked + (if pc.Adding() && !pc.AddSwing? then 1 else 0) <= c.begun
  {
    hide Exec, Single, Enabled;
    if hi > 0 {
      CallsBalance(states, moves, dummy, t, hi - 1);
      var s, mv := states[hi - 1], moves[hi - 1];
      if mv.t == t { SingleBalance(s, mv); } else { OthersKeepTheirPlace(s, mv.t, mv.a, t); }
    }
  }

  lemma SingleBalance(s: State, mv: Move)
    requires Enabled(s.m, s.Pc(mv.t), mv.a)
    ensures var c, pc, pc' := Single(s, mv), s.Pc(mv.t), Next(s, mv.t, mv.a).0.Pc(mv.t);
      && c.begun + (if pc.Idle? then 0 else 1) == c.done + (if pc'.Idle? then 0 else 1)
      && c.linked + (if pc'.Adding() && !pc'.AddSwing? then 1 else 0)
         <= c.begun + (if pc.Adding() && !pc.AddSwing? then 1 else 0)
  {
  }

  // ---------------------------------------------------------------------------------------
  // All threads together

  lemma {:induction false} TotalNext(states: seq<State>, moves: seq<Move>, dummy: Ptr, n: nat, hi: nat)
    requires IsRun(states, moves, dummy) && hi < |moves|
    ensures Total(states, moves, dummy, n, hi + 1)
            == Total(states, moves, dummy, n, hi).Plus(if moves[hi].t < n then Single(states[hi], moves[hi]) else NONE)
  {
    hide Of, Single, Exec, Tally.Plus;
    var one := Single(states[hi], moves[hi]);
    if n > 0 {
      TotalNext(states, moves, dummy, n - 1, hi);
      OfNext(states, moves, dummy, n - 1, hi);
      Rearranged(Total(states, moves, dummy, n - 1, hi), Of(states, moves, dummy, n - 1, 0, hi), one);
    } else {
      Rearranged(NONE, NONE, one);
    }
  }

  lemma Rearranged(a: Tally, b: Tally, one: Tally)
    ensures a.Plus(one).Plus(b.Plus(NONE)) == a.Plus(b).Plus(one) == a.Plus(NONE).Plus(b.Plus(one))
    ensures a.Plus(NONE).Plus(b.Plus(NONE)) == a.Plus(b).Plus(NONE)
    ensures NONE.Plus(NONE) == NONE
  {
  }

  lemma OfNext(states: seq<State>, moves: seq<Move>, dummy: Ptr, t: Tid, hi: nat)
    requires IsRun(states, moves, dummy) && hi < |moves|
    ensures Of(states, moves, dummy, t, 0, hi + 1)
            == Of(states, moves, dummy, t, 0, hi).Plus(if moves[hi].t == t then Single(states[hi], moves[hi]) else NONE)
  {
    hide Single, Exec;
  }

  lemma {:induction false} TotalStart(states: seq<State>, moves: seq<Move>, dummy: Ptr, n: nat)
    requires IsRun(states, moves, dummy)
    ensures Total(states, moves, dummy, n, 0) == NONE
  {
    if n > 0 { TotalStart(states, moves, dummy, n - 1); }
  }

  /** The statements of all threads are the run, and the nodes they link the nodes inserted. */
  lemma {:induction false} TotalIsRun(states: seq<State>, moves: seq<Move>, dummy: Ptr, n: nat, hi: nat)
    requires IsRun(states, moves, dummy) && hi < |states| && forall i :: 0 <= i < |moves| ==> moves[i].t < n
    ensures Total(states, moves, dummy, n, hi).steps == hi
    ensures Total(states, moves, dummy, n, hi).linked == |Enqueued(states[hi].m.hist)|
  {
    hide Total, Single, Exec, Enqueued;
    if hi == 0 {
      TotalStart(states, moves, dummy, n);
      NothingEnqueued();
    } else {
      TotalIsRun(states, moves, dummy, n, hi - 1);
      TotalNext(states, moves, dummy, n, hi - 1);
      SingleLinks(states[hi - 1], moves[hi - 1]);
    }
  }

  lemma SingleLinks(s: State, mv: Move)
    requires Enabled(s.m, s.Pc(mv.t), mv.a)
    ensures var s' := Next(s, mv.t, mv.a).0;
      Single(s, mv).steps == 1 && |Enqueued(s'.m.hist)| == |Enqueued(s.m.hist)| + Single(s, mv).linked
  {
    hide Enqueued;
    var s' := Next(s, mv.t, mv.a).0;
    if s'.m.hist != s.m.hist {
      EnqueuedNext(s.m.hist, s'.m.hist[|s.m.hist|]);
      assert s'.m.hist == s.m.hist + [s'.m.hist[|s.m.hist|]];
    }
  }

  /** The bounds of the single threads, added up. */
  lemma {:induction false} Together(states: seq<State>, moves: seq<Move>, dummy: Ptr, n: nat, hi: nat)
    requires IsRun(states, moves, dummy) && hi < |states|
    ensures var c := Total(states, moves, dummy, n, hi);
      && c.steps <= 6 * c.begun + 5 * c.failed + 5 * n * (Reach(states[hi].m) - 1)
      && c.begun <= c.done + n && c.linked <= c.begun
  {
    hide Of, Reach, IsRun;
    if n > 0 {
      Together(states, moves, dummy, n - 1, hi);
      FromTheStart(states, moves, dummy, n - 1, hi);
      CallsBalance(states, moves, dummy, n - 1, hi);
      OneMore(n, Reach(states[hi].m) - 1);
    }
  }

  lemma OneMore(n: nat, x: int)
    requires n > 0
    ensures 5 * n * x == 5 * (n - 1) * x + 5 * x
  {
  }

  lemma FromTheStart(states: seq<State>, moves: seq<Move>, dummy: Ptr, t: Tid, hi: nat)
    requires IsRun(states, moves, dummy) && hi < |states|
    ensures var c := Of(states, moves, dummy, t, 0, hi);
      c.steps <= 6 * c.begun + 5 * c.failed + 5 * (Reach(states[hi].m) - 1)
  {
    hide Of;
    StatementsAreBounded(states, moves, dummy, t, 0, hi);
  }

  lemma ReachOfList(states: seq<State>, moves: seq<Move>, dummy: Ptr, hi: nat)
    requires IsRun(states, moves, dummy) && hi < |states|
    ensures Reach(states[hi].m) - 1 <= 3 * |Enqueued(states[hi].m.hist)|
  {
    hide Enqueued, Inv, Reach;
    RunInv(states, moves, dummy, hi);
    InsideTheList(states[hi]);
    LinkIsHistory(states, moves, dummy, hi);
    hide IsRun;
  }

  lemma InsideTheList(s: State)
    requires Inv(s)
    ensures Reach(s.m) <= 3 * |s.m.link| - 2
  {
    hide Replay, OwnershipInv, SwingInv;
  }

  /** Lock-freedom: however `n` threads are scheduled, all their statements together are bounded
      by the calls completed (and the spurious failures). So a run that goes on for ever, failing
      spuriously finitely often, completes calls for ever, whichever threads stand still. */
  lemma LockFree(states: seq<State>, moves: seq<Move>, dummy: Ptr, n: nat)
    requires IsRun(states, moves, dummy) && forall i :: 0 <= i < |moves| ==> moves[i].t < n
    ensures var c := Total(states, moves, dummy, n, |moves|);
      |moves| <= (6 + 15 * n) * (c.done + n) + 5 * c.failed
  {
    hide Total, Reach, Enqueued;
    var c, inserted := Total(states, moves, dummy, n, |moves|), |Enqueued(states[|moves|].m.hist)|;
    TotalIsRun(states, moves, dummy, n, |moves|);
    Together(states, moves, dummy, n, |moves|);
    ReachOfList(states, moves, dummy, |moves|);
    AtMost(n, Reach(states[|moves|].m) - 1, c.begun, c.done + n);
  }

  lemma AtMost(n: nat, gained: int, begun: nat, most: nat)
    requires gained <= 3 * begun && begun <= most
    ensures 6 * begun + 5 * n * gained <= (6 + 15 * n) * most
  {
    assert n * gained <= n * (3 * begun);
    assert (6 + 15 * n) * begun <= (6 + 15 * n) * most;
  }
}
