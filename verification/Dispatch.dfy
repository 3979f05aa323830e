/** From the work queue to the accelerator: what one thread enqueues between two drains, the
    draining thread itself included, is dispatched in order, behind what the last drain left. */
module Dispatch {
  import opened WorkQueue
  import opened QueueDrain
  import opened Column
  import opened JoinAfu
  import JoinPipeline
  import JoinSystem
  import ScanPipeline
  import ScanSystem

  // ---------------------------------------------------------------------------------------
  // One thread enqueues

  /** The nodes thread `p` has begun to add by move `i`. */
  function Begun(moves: seq<Move>, p: Tid, i: nat): seq<Ptr>
    requires i <= |moves|
  {
    if i == 0 then []
    else Begun(moves, p, i - 1)
         + if moves[i - 1].t == p && moves[i - 1].a.BeginAdd? then [moves[i - 1].a.newNode] else []
  }

  predicate OnlyAdder(moves: seq<Move>, p: Tid) {
    forall i :: 0 <= i < |moves| && moves[i].a.BeginAdd? ==> moves[i].t == p
  }

  ghost predicate NoneAdding(s: State) { forall t :: t in s.pcs ==> !s.pcs[t].Adding() }

  /** The node of an `add` that has not linked it yet. */
  function InHand(pc: Pc): seq<Ptr> { if pc.Adding() && !pc.AddSwing? then [pc.node] else [] }

  lemma StepEnqueues(m: Mem, pc: Pc, a: Action)
    requires Enabled(m, pc, a)
    ensures var (m', pc', _) := Exec(m, pc, a);
      && Enqueued(m'.hist) + InHand(pc')
         == Enqueued(m.hist) + InHand(pc) + (if a.BeginAdd? then [a.newNode] else [])
      && (pc'.Adding() ==> pc.Adding() || a.BeginAdd?)
      && (!pc.Adding() ==> Enqueued(m'.hist) == Enqueued(m.hist))
  {
    hide Enqueued;
    LinkedAndRecorded(m, pc, a);
    var m' := Exec(m, pc, a).0;
    if m'.hist != m.hist {
      EnqueuedNext(m.hist, m'.hist[|m.hist|]);
      assert m'.hist == m.hist + [m'.hist[|m.hist|]];
    }
  }

  /** What one thread adds is enqueued in the order in which it adds it, whichever thread it is and
      whatever was enqueued before. */
  lemma {:induction false} EnqueuedInOrder(ds: seq<Drain>, moves: seq<Move>, c: Tid, p: Tid, i: nat)
    requires DrainRun(ds, moves, c) && NoneAdding(ds[0].q) && OnlyAdder(moves, p) && i < |ds|
    ensures Enqueued(ds[0].q.m.hist) + Begun(moves, p, i) == Enqueued(ds[i].q.m.hist) + InHand(ds[i].q.Pc(p))
    ensures forall t :: t in ds[i].q.pcs && t != p ==> !ds[i].q.pcs[t].Adding()
  {
    hide Exec, Enqueued, Enabled, InHand;
    if i == 0 {
      NothingInHand(ds[0].q.Pc(p));
    } else {
      var d, mv := ds[i - 1], moves[i - 1];
      EnqueuedInOrder(ds, moves, c, p, i - 1);
      QueueMoves(d, c, mv.t, mv.a);
      StepEnqueues(d.q.m, d.q.Pc(mv.t), mv.a);
      if mv.t != p { OthersKeepTheirPlace(d.q, mv.t, mv.a, p); }
    }
  }

  lemma NothingInHand(pc: Pc)
    requires !pc.Adding()
    ensures InHand(pc) == []
  {
  }

  lemma QueueMoves(d: Drain, c: Tid, t: Tid, a: Action)
    requires CanStep(d, c, t, a)
    ensures Step(d, c, t, a).q == Next(d.q, t, a).0
  {
    hide Exec;
  }

  /** A node is added once: those added since are none of those there before. */
  lemma {:induction false} BegunAreNew(ds: seq<Drain>, moves: seq<Move>, c: Tid, p: Tid, i: nat)
    requires DrainRun(ds, moves, c) && i < |ds|
    ensures forall k :: 0 <= k < |Begun(moves, p, i)| ==> Begun(moves, p, i)[k] !in ds[0].q.m.next
    ensures forall n :: n in ds[0].q.m.next ==> n in ds[i].q.m.next
  {
    if i > 0 {
      BegunAreNew(ds, moves, c, p, i - 1);
      QueueMoves(ds[i - 1], c, moves[i - 1].t, moves[i - 1].a);
      NodesStay(ds[i - 1].q.m, ds[i - 1].q.Pc(moves[i - 1].t), moves[i - 1].a);
    }
    hide Exec, Step;
  }

  lemma NodesStay(m: Mem, pc: Pc, a: Action)
    requires Enabled(m, pc, a)
    ensures forall n :: n in m.next ==> n in Exec(m, pc, a).0.next
  {
  }

  // ---------------------------------------------------------------------------------------
  // The drain loop dispatches

  lemma {:induction false} HandledGrows(ds: seq<Drain>, moves: seq<Move>, c: Tid, i: nat)
    requires DrainRun(ds, moves, c) && i < |ds|
    ensures ds[0].handled <= ds[i].handled
  {
    hide Exec;
    if i > 0 { HandledGrows(ds, moves, c, i - 1); }
  }

  /** From a state with no `add` under way, one thread `p` (any other, or the consumer outside its
      loop) adds work units, and the loop stops on move `i`, when none is being added. */
  ghost predicate DrainedAt(ds: seq<Drain>, moves: seq<Move>, c: Tid, p: Tid, i: nat) {
    && DrainRun(ds, moves, c) && DrainInv(ds[0], c) && NoneAdding(ds[0].q) && OnlyAdder(moves, p)
    && i < |moves| == |ds| - 1 && !ds[i].mode.Stopped? && ds[i + 1].mode.Stopped? && !ds[i].q.Pc(p).Adding()
  }

  /** The work units handled since. */
  function Since(d: Drain, d': Drain): seq<Ptr> {
    if |d.handled| <= |d'.handled| then d'.handled[|d.handled|..] else []
  }

  /** One work unit is left in the queue if the last tail swing was lost. */
  function Left(m: Mem): nat { if m.swingLost then 1 else 0 }

  /** The loop handles what the queue held and then the units added, in order, all of them or, if
      the last tail swing was lost, all but the last. It is exactly the added ones exactly when the
      queue was empty and no swing is left lost; a unit left over comes first. */
  lemma DispatchedInOrder(ds: seq<Drain>, moves: seq<Move>, c: Tid, p: Tid, i: nat)
    requires DrainedAt(ds, moves, c, p, i)
    ensures var (held, added, units, left) :=
              (ds[0].q.m.Queue(), Begun(moves, p, i), Since(ds[0], ds[i + 1]), Left(ds[i].q.m));
      && ds[0].handled <= ds[i + 1].handled && left <= |held| + |added|
      && units == (held + added)[..|held| + |added| - left]
      && (added != [] ==> (units == added <==> held == [] && left == 0))
  {
    hide Begun, DrainInv, NoneAdding, DrainRun, OnlyAdder;
    WhatIsHandled(ds, moves, c, p, i);
    HandledGrowsTo(ds, moves, c, p, i);
    var (held, added) := (ds[0].q.m.Queue(), Begun(moves, p, i));
    FrontOf(ds[0].handled, held + added, ds[i + 1].handled, ds[i + 1].q.m.Queue());
    if held != [] && added != [] {
      OldIsNotAdded(ds, moves, c, p, i);
      assert (held + added)[0] == held[0];
    }
  }

  /** With the queue empty at the start and no tail swing failing spuriously, exactly the units added
      are handled, in order. */
  lemma AllDispatched(ds: seq<Drain>, moves: seq<Move>, c: Tid, p: Tid, i: nat)
    requires DrainedAt(ds, moves, c, p, i) && ds[0].q.m.Queue() == [] && DrainSwingsSucceed(ds, moves)
    ensures Since(ds[0], ds[i + 1]) == Begun(moves, p, i)
  {
    hide Begun, NoneAdding, DrainRun, OnlyAdder, LoopInv, OwnershipInv, Replay;
    EmptyIsNotLagging(ds[0].q.m);
    NothingLostInDrain(ds, moves, c, i);
    DispatchedInOrder(ds, moves, c, p, i);
  }

  lemma EmptyIsNotLagging(m: Mem)
    requires ListInv(m) && m.Queue() == []
    ensures !Lagging(m)
  {
    hide Replay;
  }

  lemma HandledGrowsTo(ds: seq<Drain>, moves: seq<Move>, c: Tid, p: Tid, i: nat)
    requires DrainedAt(ds, moves, c, p, i)
    ensures ds[0].handled <= ds[i + 1].handled
  {
    HandledGrows(ds, moves, c, i + 1);
  }

  lemma WhatIsHandled(ds: seq<Drain>, moves: seq<Move>, c: Tid, p: Tid, i: nat)
    requires DrainedAt(ds, moves, c, p, i)
    ensures ds[0].handled + (ds[0].q.m.Queue() + Begun(moves, p, i)) == ds[i + 1].handled + ds[i + 1].q.m.Queue()
    ensures |ds[i + 1].q.m.Queue()| == Left(ds[i].q.m)
  {
    hide Begun, Enqueued, Dequeued, Exec, DrainInv;
    EnqueuedInOrder(ds, moves, c, p, i);
    NothingInHand(ds[i].q.Pc(p));
    DrainStopsExactly(ds, moves, c, i);
    StopAddsNothing(ds, moves, c, i);
    DrainRunInv(ds, moves, c, i + 1);
    AllAccountedFor(ds[0], c);
    AllAccountedFor(ds[i + 1], c);
    var (held, added) := (ds[0].q.m.Queue(), Begun(moves, p, i));
    assert (ds[0].handled + held) + added == ds[0].handled + (held + added);
    assert |ds[i + 1].q.m.Queue()| == 0 <==> ds[i + 1].handled == Enqueued(ds[i + 1].q.m.hist);
  }

  lemma AllAccountedFor(d: Drain, c: Tid)
    requires DrainInv(d, c)
    ensures Enqueued(d.q.m.hist) == d.handled + d.q.m.Queue()
  {
    LegalHistoryIsFifo(d.q.m.hist);
  }

  lemma StopAddsNothing(ds: seq<Drain>, moves: seq<Move>, c: Tid, i: nat)
    requires DrainRun(ds, moves, c) && DrainInv(ds[0], c) && i < |moves|
    requires !ds[i].mode.Stopped? && ds[i + 1].mode.Stopped?
    ensures ds[i + 1].q.m == ds[i].q.m
  {
    hide Exec;
    DrainRunInv(ds, moves, c, i);
    StopIsTested(ds[i], c, moves[i].t, moves[i].a);
    LoopExit(ds[i], c, moves[i].a);
  }

  lemma FrontOf<T>(was: seq<T>, units: seq<T>, now: seq<T>, left: seq<T>)
    requires was <= now && was + units == now + left
    ensures |left| <= |units| && now[|was|..] == units[..|units| - |left|]
  {
    assert units == (was + units)[|was|..] == now[|was|..] + left;
  }

  lemma OldIsNotAdded(ds: seq<Drain>, moves: seq<Move>, c: Tid, p: Tid, i: nat)
    requires DrainedAt(ds, moves, c, p, i) && ds[0].q.m.Queue() != []
    ensures forall k :: 0 <= k < |Begun(moves, p, i)| ==> Begun(moves, p, i)[k] != ds[0].q.m.Queue()[0]
  {
    hide Exec, Begun, Step;
    BegunAreNew(ds, moves, c, p, i);
    QueueIsAllocated(ds[0].q.m);
  }

  lemma QueueIsAllocated(m: Mem)
    requires ListInv(m) && m.Queue() != []
    ensures m.Queue()[0] in m.next
  {
    hide Replay;
    assert m.link[m.pos[m.head] + 1] in m.pos;
  }

  /** One scan after another, on the same queue: the state a drain leaves is one to start from, with
      nothing left in the queue exactly when the last tail swing was not lost. */
  lemma NextDrainMayBegin(ds: seq<Drain>, moves: seq<Move>, c: Tid, p: Tid, i: nat)
    requires DrainedAt(ds, moves, c, p, i)
    ensures DrainRun(ds[i + 1..], moves[i + 1..], c) && DrainInv(ds[i + 1], c) && NoneAdding(ds[i + 1].q)
    ensures ds[i + 1].q.m.Queue() == [] <==> !ds[i].q.m.swingLost
  {
    hide Begun, Enqueued, Dequeued, Exec, DrainInv, Step;
    WhatIsHandled(ds, moves, c, p, i);
    DrainRunInv(ds, moves, c, i + 1);
    EnqueuedInOrder(ds, moves, c, p, i + 1);
    StopKeepsOthers(ds, moves, c, p, i);
  }

  lemma StopKeepsOthers(ds: seq<Drain>, moves: seq<Move>, c: Tid, p: Tid, i: nat)
    requires DrainedAt(ds, moves, c, p, i)
    ensures !ds[i + 1].q.Pc(p).Adding()
  {
    DrainRunInv(ds, moves, c, i);
    StopIsTested(ds[i], c, moves[i].t, moves[i].a);
    if p == c {
      ConsumerIsGood(ds[i], c);
      ConsumerReads(ds[i].q.m, ds[i].mode, ds[i].q.Pc(c), moves[i].a);
    } else {
      OthersKeepTheirPlace(ds[i].q, c, moves[i].a, p);
    }
  }

  // ---------------------------------------------------------------------------------------
  // The partitions sent

  /** The partitions of work units. */
  function PartsOf(units: seq<Ptr>, part: Ptr -> nat): seq<nat> {
    seq(|units|, k requires 0 <= k < |units| => part(units[k]))
  }

  function UpTo(n: nat): seq<nat> { seq(n, k => k) }

  /** Partitions `0` to `n - 1` are enqueued in turn. Two or more are sent in turn, and nothing else
      is, exactly when no unit was left over and no swing is left lost. */
  lemma PartitionsInOrder(ds: seq<Drain>, moves: seq<Move>, c: Tid, p: Tid, i: nat, part: Ptr -> nat, n: nat)
    requires DrainedAt(ds, moves, c, p, i) && PartsOf(Begun(moves, p, i), part) == UpTo(n)
    ensures var (held, parts, left) :=
              (ds[0].q.m.Queue(), PartsOf(Since(ds[0], ds[i + 1]), part), Left(ds[i].q.m));
      && |parts| == |held| + n - left
      && (forall k :: 0 <= k < |parts| && k < |held| ==> parts[k] == part(held[k]))
      && (forall k :: |held| <= k < |parts| ==> parts[k] == k - |held|)
      && (held == [] && left == 0 ==> parts == UpTo(n))
      && (n >= 2 ==> (parts == UpTo(n) <==> held == [] && left == 0))
  {
    hide DrainInv, NoneAdding, DrainRun, OnlyAdder, Begun;
    DispatchedInOrder(ds, moves, c, p, i);
    var (held, added) := (ds[0].q.m.Queue(), Begun(moves, p, i));
    assert |added| == n by { assert |PartsOf(added, part)| == |UpTo(n)|; }
    forall k | 0 <= k < n ensures part(added[k]) == k {
      assert PartsOf(added, part)[k] == UpTo(n)[k];
    }
    var parts := PartsOf(Since(ds[0], ds[i + 1]), part);
    if n >= 2 && |held| == 1 {
      assert parts[1] == 0 && UpTo(n)[1] == 1;
    }
  }

  /** From the enqueued partitions on: one thread enqueues partitions `0`, `1`, ..., the loop drains
      them and sends their buffers, the accelerator runs over them, the results are gathered. Then
      the bit of a row of partition `m` is the predicate on its code, if the write channel was not
      almost full when its line completed: of every partition, or of all but the last if a tail
      swing was lost, and also behind a unit left over. */
  lemma EndToEndFromQueue(
      ds: seq<Drain>, moves: seq<Move>, c: Tid, p: Tid, i: nat, part: Ptr -> nat,
      x: ScanPipeline.Scan, ss: seq<ScanSystem.Sys>, es: seq<ScanSystem.SysEnv>, j: nat, m: nat, s: nat)
    requires DrainedAt(ds, moves, c, p, i) && PartsOf(Begun(moves, p, i), part) == UpTo(|x.bufs|)
    requires x.parts == PartsOf(Since(ds[0], ds[i + 1]), part)
    requires ScanPipeline.Loaded(x) && ScanSystem.SysRun(x.cfg, x.mem, ss, es)
    requires j < |ss| && ss[j].host.Finished? && ScanPipeline.Collected(x, ss[j])
    requires m + Left(ds[i].q.m) < |x.bufs| && ScanPipeline.RowSent(x, ss, es, j, |ds[0].q.m.Queue()| + m, s)
    ensures x.parts[|ds[0].q.m.Queue()| + m] == m
    ensures var (q, w) := ScanPipeline.Query(x.cfg);
            ScanPipeline.RowBit(x.bits, w, |x.codes|, m, s, q.Holds(x.codes[From(w, |x.codes|, m) + s]))
  {
    hide DrainInv, NoneAdding, DrainRun, OnlyAdder, Begun, PartsOf, ScanPipeline.RowSent,
         ScanPipeline.Loaded, ScanPipeline.Collected, ScanSystem.SysRun;
    PartitionsInOrder(ds, moves, c, p, i, part, |x.bufs|);
    ScanPipeline.EndToEndScan(x, ss, es, j, |ds[0].q.m.Queue()| + m, s);
  }

  /** The same for the pages of foreign keys of a join. */
  lemma EndToEndJoinFromQueue(
      ds: seq<Drain>, moves: seq<Move>, c: Tid, p: Tid, i: nat, part: Ptr -> nat,
      x: JoinPipeline.Join, ss: seq<JoinSystem.JoinSys>, es: seq<JoinSystem.JoinSysEnv>, j: nat, m: nat, s: nat)
    requires DrainedAt(ds, moves, c, p, i) && PartsOf(Begun(moves, p, i), part) == UpTo(|x.bufs|)
    requires x.parts == PartsOf(Since(ds[0], ds[i + 1]), part)
    requires JoinPipeline.JoinLoaded(x) && JoinSystem.JoinSysRun(x.cfg, x.mem, ss, es)
    requires j < |ss| && ss[j].host.Through? && JoinPipeline.JoinCollected(x, ss[j])
    requires m + Left(ds[i].q.m) < |x.bufs| && JoinPipeline.KeySent(x, ss, es, j, |ds[0].q.m.Queue()| + m, s)
    ensures x.parts[|ds[0].q.m.Queue()| + m] == m
    ensures var key := x.keys[From(KEY_BITS, |x.keys|, m) + s];
            && key / 64 < |x.bitMap|
            && ScanPipeline.RowBit(x.bits, KEY_BITS, |x.keys|, m, s, JoinPipeline.MapBit(x.bitMap, key))
  {
    hide DrainInv, NoneAdding, DrainRun, OnlyAdder, Begun, PartsOf, JoinPipeline.KeySent,
         JoinPipeline.JoinLoaded, JoinPipeline.JoinCollected, JoinSystem.JoinSysRun;
    PartitionsInOrder(ds, moves, c, p, i, part, |x.bufs|);
    JoinPipeline.EndToEndJoin(x, ss, es, j, |ds[0].q.m.Queue()| + m, s);
  }
}
