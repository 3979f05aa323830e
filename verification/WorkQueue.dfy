/** The lock-free work queue: a linked list behind a dummy node, with a tail pointer that may
    lag and is helped forward. Any number of threads run `add`, `nextElement` and `isNotEmpty`;
    every transition below performs at most one access to shared memory, so interleaving the
    transitions gives every sequentially consistent execution. */
module WorkQueue {

  /** Node addresses; nodes are freshly allocated for every `add` and never recycled. */
  type Ptr = nat
  type Tid = nat
  const NULL: Ptr := 0

  /** Where a thread is, with the local snapshot it has taken so far. The numbers in the
      comments are the source lines about to be executed. */
  datatype Pc =
    | Idle
    | AddReadTail(node: Ptr)                        // 81
    | AddReadNext(node: Ptr, last: Ptr)             // 82
    | AddCheck(node: Ptr, last: Ptr, next: Ptr)     // 83-84
    | AddLink(node: Ptr, last: Ptr)                 // 85
    | AddSwing(node: Ptr, last: Ptr)                // 88
    | AddHelp(node: Ptr, last: Ptr, next: Ptr)      // 93
    | TakeReadHead                                  // 101
    | TakeReadTail(first: Ptr)                      // 102
    | TakeReadNext(first: Ptr, last: Ptr)           // 103
    | TakeCheck(first: Ptr, last: Ptr, next: Ptr)   // 104-109
    | TakeHelp(last: Ptr, next: Ptr)                // 111
    | TakeHead(first: Ptr, next: Ptr)               // 113
    | TestReadHead                                  // 65, left operand
    | TestReadTail(seenHead: Ptr)                   // 65, right operand
  {
    predicate Taking() { TakeReadHead? || TakeReadTail? || TakeReadNext? || TakeCheck? || TakeHelp? || TakeHead? }

    predicate Adding() { AddReadTail? || AddReadNext? || AddCheck? || AddLink? || AddSwing? || AddHelp? }

    /** The node this thread has allocated but not linked yet. */
    function Unlinked(): Ptr { if Adding() && !AddSwing? then node else NULL }
  }

  /** What a thread does next: start a call, or execute its next statement. A weak
      compare-exchange may fail spuriously; other statements ignore the flag. */
  datatype Action = BeginAdd(newNode: Ptr) | BeginTake | BeginTest | Run(spurious: bool)

  datatype Ret = NoRet | Added(node: Ptr) | Took(node: Ptr) | TookNull | Tested(notEmpty: bool)

  datatype Event = Enq(node: Ptr) | Deq(node: Ptr)

  /** `head`, `tail` and `next` are the shared memory. The rest is history: `link` is the order
      in which nodes were linked (from the dummy on), `pos` its inverse, `hist` the successful
      link and head CASes in execution order, and `swingLost` whether the last tail swing on
      line 88 failed spuriously and nobody has moved the tail since. */
  datatype Mem = Mem(
    head: Ptr, tail: Ptr, next: map<Ptr, Ptr>,
    link: seq<Ptr>, pos: map<Ptr, nat>, hist: seq<Event>, swingLost: bool)
  {
    function Load(p: Ptr): Ptr { if p in next then next[p] else NULL }

    /** The nodes linked after the current head: the abstract queue. */
    function Queue(): seq<Ptr> {
      if head in pos && pos[head] < |link| then link[pos[head] + 1..] else []
    }

    /** `compare_exchange_weak` on the tail. */
    function CasTail(expected: Ptr, desired: Ptr, spurious: bool): Mem {
      if !spurious && tail == expected then this.(tail := desired, swingLost := false) else this
    }

    /** Line 88: the swing that a spurious failure loses. */
    function Swing(expected: Ptr, desired: Ptr, spurious: bool): Mem {
      if spurious && tail == expected then this.(swingLost := true) else CasTail(expected, desired, spurious)
    }

    /** A successful CAS of `last->next` from NULL to `n`. */
    function Linked(last: Ptr, n: Ptr): Mem {
      this.(next := next[last := n], link := link + [n], pos := pos[n := |link|], hist := hist + [Enq(n)])
    }

    /** A successful CAS of the head. */
    function HeadMoved(n: Ptr): Mem { this.(head := n, hist := hist + [Deq(n)]) }
  }

  datatype State = State(m: Mem, pcs: map<Tid, Pc>)
  {
    function Pc(t: Tid): Pc { if t in pcs then pcs[t] else Idle }
  }

  function Init(dummy: Ptr): State {
    State(Mem(dummy, dummy, map[dummy := NULL], [dummy], map[dummy := 0], [], false), map[])
  }

  predicate Enabled(m: Mem, pc: Pc, a: Action) {
    match a
    case BeginAdd(n) => pc.Idle? && n != NULL && n !in m.next
    case BeginTake => pc.Idle?
    case BeginTest => pc.Idle?
    case Run(_) => !pc.Idle?
  }

  /** One step of a thread at `pc`: the new memory, the thread's new place, and its answer. */
  function Exec(m: Mem, pc: Pc, a: Action): (Mem, Pc, Ret)
    requires Enabled(m, pc, a)
  {
    match a
    case BeginAdd(n) => (m.(next := m.next[n := NULL]), AddReadTail(n), NoRet)
    case BeginTake => (m, TakeReadHead, NoRet)
    case BeginTest => (m, TestReadHead, NoRet)
    case Run(spurious) =>
      if pc.Adding() then ExecAdd(m, pc, spurious)
      else if pc.Taking() then ExecTake(m, pc, spurious)
      else if pc.TestReadHead? then (m, TestReadTail(m.head), NoRet)
      else (m, Idle, Tested(pc.seenHead != m.tail))
  }

  /** One statement of `add`. */
  function ExecAdd(m: Mem, pc: Pc, spurious: bool): (Mem, Pc, Ret)
    requires pc.Adding()
  {
    match pc
    case AddReadTail(n) => (m, AddReadNext(n, m.tail), NoRet)
    case AddReadNext(n, last) => (m, AddCheck(n, last, m.Load(last)), NoRet)
    case AddCheck(n, last, next) =>
      (m, if last != m.tail then AddReadTail(n)
          else if next == NULL then AddLink(n, last) else AddHelp(n, last, next), NoRet)
    case AddLink(n, last) =>
      if !spurious && m.Load(last) == NULL then (m.Linked(last, n), AddSwing(n, last), NoRet)
      else (m, AddReadTail(n), NoRet)
    case AddSwing(n, last) =>
      (m.Swing(last, n, spurious), Idle, Added(n))
    case AddHelp(n, last, next) => (m.CasTail(last, next, spurious), AddReadTail(n), NoRet)
  }

  /** One statement of `nextElement`. */
  function ExecTake(m: Mem, pc: Pc, spurious: bool): (Mem, Pc, Ret)
    requires pc.Taking()
  {
    match pc
    case TakeReadHead => (m, TakeReadTail(m.head), NoRet)
    case TakeReadTail(first) => (m, TakeReadNext(first, m.tail), NoRet)
    case TakeReadNext(first, last) => (m, TakeCheck(first, last, m.Load(first)), NoRet)
    case TakeCheck(first, last, next) =>
      if first != m.head then (m, TakeReadHead, NoRet)
      else if first != last then (m, TakeHead(first, next), NoRet)
      else if next != NULL then (m, TakeHelp(last, next), NoRet)
      else (m, Idle, TookNull)
    case TakeHelp(last, next) => (m.CasTail(last, next, spurious), TakeReadHead, NoRet)
    case TakeHead(first, next) =>
      if !spurious && m.head == first then (m.HeadMoved(next), Idle, Took(next))
      else (m, TakeReadHead, NoRet)
  }

  /** One interleaved step of the system: thread `t` does `a`. */
  function Next(s: State, t: Tid, a: Action): (State, Ret)
    requires Enabled(s.m, s.Pc(t), a)
  {
    var (m', pc', r) := Exec(s.m, s.Pc(t), a);
    (State(m', s.pcs[t := pc']), r)
  }

  /** The queue object itself, updated in place by the statement each thread executes. */
  class LockFreeQueue {
    var head: Ptr
    var tail: Ptr
    var next: map<Ptr, Ptr>
    var pcs: map<Tid, Pc>
    ghost var link: seq<Ptr>
    ghost var pos: map<Ptr, nat>
    ghost var hist: seq<Event>
    ghost var swingLost: bool

    ghost function Snapshot(): State
      reads this
    {
      State(Mem(head, tail, next, link, pos, hist, swingLost), pcs)
    }

    constructor (dummy: Ptr)
      ensures Snapshot() == Init(dummy)
    {
      head, tail := dummy, dummy;
      next, pcs := map[dummy := NULL], map[];
      link, pos, hist, swingLost := [dummy], map[dummy := 0], [], false;
    }

    method Begin(t: Tid, a: Action)
      requires Enabled(Snapshot().m, Snapshot().Pc(t), a) && !a.Run?
      modifies this
      ensures (Snapshot(), NoRet) == Next(old(Snapshot()), t, a)
    {
      match a {
        case BeginAdd(n) =>
          next := next[n := NULL];
          pcs := pcs[t := AddReadTail(n)];
        case BeginTake => pcs := pcs[t := TakeReadHead];
        case BeginTest => pcs := pcs[t := TestReadHead];
      }
    }

    method CompareExchangeTail(expected: Ptr, desired: Ptr, spurious: bool) returns (ok: bool)
      modifies this`tail, this`swingLost
      ensures ok == (!spurious && old(tail) == expected)
      ensures tail == (if ok then desired else old(tail)) && swingLost == (old(swingLost) && !ok)
    {
      ok := !spurious && tail == expected;
      if ok {
        tail := desired;
        swingLost := false;
      }
    }

    /** One statement of `add`. */
    method RunAdd(t: Tid, spurious: bool) returns (r: Ret)
      requires t in pcs && pcs[t].Adding()
      modifies this
      ensures (Snapshot(), r) == Next(old(Snapshot()), t, Run(spurious))
    {
      r := NoRet;
      match pcs[t] {
        case AddReadTail(n) => pcs := pcs[t := AddReadNext(n, tail)];
        case AddReadNext(n, last) =>
          pcs := pcs[t := AddCheck(n, last, if last in next then next[last] else NULL)];
        case AddCheck(n, last, nx) =>
          if last == tail {
            if nx == NULL { pcs := pcs[t := AddLink(n, last)]; } else { pcs := pcs[t := AddHelp(n, last, nx)]; }
          } else {
            pcs := pcs[t := AddReadTail(n)];
          }
        case AddLink(n, last) =>
          if !spurious && (last in next ==> next[last] == NULL) {
            next := next[last := n];
            link, pos, hist := link + [n], pos[n := |link|], hist + [Enq(n)];
            pcs := pcs[t := AddSwing(n, last)];
          } else {
            pcs := pcs[t := AddReadTail(n)];
          }
        case AddSwing(n, last) =>
          var swung := CompareExchangeTail(last, n, spurious);
          swingLost := swingLost || (!swung && tail == last);
          pcs := pcs[t := Idle];
          r := Added(n);
        case AddHelp(n, last, nx) =>
          var _ := CompareExchangeTail(last, nx, spurious);
          pcs := pcs[t := AddReadTail(n)];
      }
    }

    /** One statement of `isNotEmpty`. */
    method RunTest(t: Tid) returns (r: Ret)
      requires t in pcs && (pcs[t].TestReadHead? || pcs[t].TestReadTail?)
      modifies this
      ensures (Snapshot(), r) == Next(old(Snapshot()), t, Run(false))
    {
      if pcs[t].TestReadHead? {
        r := NoRet;
        pcs := pcs[t := TestReadTail(head)];
      } else {
        r := Tested(pcs[t].seenHead != tail);
        pcs := pcs[t := Idle];
      }
    }

    /** One statement of `nextElement`. */
    method RunTake(t: Tid, spurious: bool) returns (r: Ret)
      requires t in pcs && pcs[t].Taking()
      modifies this
      ensures (Snapshot(), r) == Next(old(Snapshot()), t, Run(spurious))
    {
      r := NoRet;
      match pcs[t] {
        case TakeReadHead => pcs := pcs[t := TakeReadTail(head)];
        case TakeReadTail(first) => pcs := pcs[t := TakeReadNext(first, tail)];
        case TakeReadNext(first, last) =>
          pcs := pcs[t := TakeCheck(first, last, if first in next then next[first] else NULL)];
        case TakeCheck(first, last, nx) =>
          if first == head {
            if first == last {
              if nx == NULL {
                pcs := pcs[t := Idle];
                r := TookNull;
              } else {
                pcs := pcs[t := TakeHelp(last, nx)];
              }
            } else {
              pcs := pcs[t := TakeHead(first, nx)];
            }
          } else {
            pcs := pcs[t := TakeReadHead];
          }
        case TakeHelp(last, nx) =>
          var _ := CompareExchangeTail(last, nx, spurious);
          pcs := pcs[t := TakeReadHead];
        case TakeHead(first, nx) =>
          if !spurious && head == first {
            head := nx;
            hist := hist + [Deq(nx)];
            pcs := pcs[t := Idle];
            r := Took(nx);
          } else {
            pcs := pcs[t := TakeReadHead];
          }
      }
    }
  }

  // ---------------------------------------------------------------------------------------
  // The sequential specification

  /** The queue left by a history, if every `Deq` in it removed the then-first element. */
  function Replay(h: seq<Event>): (q: (bool, seq<Ptr>)) {
    if h == [] then (true, []) else
    var (legal, q) := Replay(h[..|h| - 1]);
    match h[|h| - 1]
    case Enq(n) => (legal, q + [n])
    case Deq(n) => if legal && q != [] && q[0] == n then (true, q[1..]) else (false, q)
  }

  function Enqueued(h: seq<Event>): seq<Ptr> {
    if h == [] then [] else
    Enqueued(h[..|h| - 1]) + (if h[|h| - 1].Enq? then [h[|h| - 1].node] else [])
  }

  function Dequeued(h: seq<Event>): seq<Ptr> {
    if h == [] then [] else
    Dequeued(h[..|h| - 1]) + (if h[|h| - 1].Deq? then [h[|h| - 1].node] else [])
  }

  /** A legal history loses and duplicates nothing: what was removed, followed by what is
      left, is what was inserted, in order. */
  lemma {:induction false} LegalHistoryIsFifo(h: seq<Event>)
    requires Replay(h).0
    ensures Enqueued(h) == Dequeued(h) + Replay(h).1
  {
    if h != [] {
      var h' := h[..|h| - 1];
      LegalHistoryIsFifo(h');
      var q' := Replay(h').1;
      match h[|h| - 1]
      case Enq(n) =>
        assert Dequeued(h') + (q' + [n]) == (Dequeued(h') + q') + [n];
      case Deq(n) =>
        assert q' == [n] + q'[1..];
        assert Dequeued(h') + q' == (Dequeued(h') + [n]) + q'[1..];
    }
  }

  // ---------------------------------------------------------------------------------------
  // The inductive invariant

  /** Following `next` from the dummy visits exactly `link`, once each, and ends in NULL. */
  ghost predicate Chain(link: seq<Ptr>, pos: map<Ptr, nat>, next: map<Ptr, Ptr>) {
    && |link| >= 1
    && (forall i :: 0 <= i < |link| ==> link[i] in pos && pos[link[i]] == i)
    && (forall p :: p in pos ==> pos[p] < |link| && link[pos[p]] == p && p in next)
    && (forall i, j :: 0 <= i < |link| && j == i + 1 && j < |link| ==> next[link[i]] == link[j])
    && next[link[|link| - 1]] == NULL
    && NULL !in next
  }

  ghost predicate ListInv(m: Mem) {
    && Chain(m.link, m.pos, m.next)
    && m.head in m.pos && m.tail in m.pos
    && m.pos[m.head] <= m.pos[m.tail]
    && |m.link| <= m.pos[m.tail] + 2
    && Replay(m.hist).0 && Replay(m.hist).1 == m.Queue()
  }

  /** `p` was linked no later than `q`. */
  ghost predicate Behind(m: Mem, p: Ptr, q: Ptr) {
    p in m.pos && q in m.pos && m.pos[p] <= m.pos[q]
  }

  /** `n` is allocated and not linked. */
  ghost predicate Fresh(m: Mem, n: Ptr) { n != NULL && n in m.next && n !in m.pos && m.next[n] == NULL }

  /** What stays true of a thread's snapshot however stale it gets. */
  ghost predicate ThreadInv(m: Mem, pc: Pc) {
    && (pc.Unlinked() != NULL ==> Fresh(m, pc.node))
    && match pc
       case Idle => true
       case AddReadTail(n) => n != NULL
       case AddReadNext(n, last) => n != NULL && Behind(m, last, m.tail)
       case AddCheck(n, last, next) =>
         n != NULL && Behind(m, last, m.tail) && (next != NULL ==> m.Load(last) == next)
       case AddLink(n, last) => n != NULL && Behind(m, last, m.tail)
       case AddSwing(n, last) => n != NULL && last in m.pos && m.Load(last) == n
       case AddHelp(n, last, next) =>
         n != NULL && last in m.pos && next != NULL && m.Load(last) == next
       case TakeReadHead => true
       case TakeReadTail(first) => Behind(m, first, m.head)
       case TakeReadNext(first, last) =>
         Behind(m, first, m.head) && Behind(m, last, m.tail) && Behind(m, first, last)
       case TakeCheck(first, last, next) =>
         && Behind(m, first, m.head) && Behind(m, last, m.tail) && Behind(m, first, last)
         && (if next == NULL then first == last else m.Load(first) == next)
       case TakeHelp(last, next) => last in m.pos && next != NULL && m.Load(last) == next
       case TakeHead(first, next) =>
         && Behind(m, first, m.head) && Behind(m, first, m.tail) && first != m.tail
         && next != NULL && m.Load(first) == next
       case TestReadHead => true
       case TestReadTail(h) => Behind(m, h, m.head)
  }

  ghost predicate OwnershipInv(pcs: map<Tid, Pc>) {
    forall t, u :: t in pcs && u in pcs && t != u && pcs[t].Unlinked() != NULL
      ==> pcs[t].Unlinked() != pcs[u].Unlinked()
  }

  /** The tail lags behind the last node linked. */
  ghost predicate Lagging(m: Mem) { m.tail in m.pos && m.pos[m.tail] + 1 < |m.link| }

  /** A lost swing has left the tail lagging. */
  ghost predicate LostInv(m: Mem) { m.swingLost ==> Lagging(m) }

  /** The thread that linked last is still about to swing the tail. */
  ghost predicate Owed(s: State) {
    s.m.link != [] && exists t :: t in s.pcs && s.pcs[t] == AddSwing(s.m.link[|s.m.link| - 1], s.m.tail)
  }

  /** A lagging tail is owed a swing, unless that swing was lost to a spurious failure. */
  ghost predicate OwedInv(s: State) { Lagging(s.m) ==> s.m.swingLost || Owed(s) }

  ghost predicate SwingInv(s: State) { LostInv(s.m) && OwedInv(s) }

  ghost predicate Inv(s: State) {
    && ListInv(s.m)
    && (forall t :: t in s.pcs ==> ThreadInv(s.m, s.pcs[t]))
    && OwnershipInv(s.pcs)
    && SwingInv(s)
  }

  lemma InitInv(dummy: Ptr)
    requires dummy != NULL
    ensures Inv(Init(dummy)) && Init(dummy).m.Queue() == []
  {
  }

  lemma ChainNext(m: Mem, p: Ptr)
    requires ListInv(m) && p in m.pos
    ensures m.next[p] == NULL <==> m.pos[p] + 1 == |m.link|
    ensures m.next[p] != NULL ==> m.next[p] in m.pos && m.pos[m.next[p]] == m.pos[p] + 1
  {
    if m.pos[p] + 1 < |m.link| {
      assert m.next[m.link[m.pos[p]]] == m.link[m.pos[p] + 1];
    }
  }

  lemma PosInjective(m: Mem, p: Ptr, q: Ptr)
    requires ListInv(m) && p in m.pos && q in m.pos && m.pos[p] == m.pos[q]
    ensures p == q
  {
    assert m.link[m.pos[p]] == p;
  }

  // ---------------------------------------------------------------------------------------
  // One step: effect on memory, on the mover's snapshot, on everyone else's

  /** How shared memory may evolve: nodes stay linked, links are written once, head and tail
      only move forward, and only node `mine` may become linked. */
  ghost predicate Grows(m: Mem, m': Mem, mine: Ptr) {
    && (forall p :: p in m.pos ==> p in m'.pos && m'.pos[p] == m.pos[p])
    && (forall p :: p in m.next ==> p in m'.next && (m.next[p] != NULL ==> m'.next[p] == m.next[p]))
    && (forall p :: p in m'.pos && p !in m.pos ==> p == mine)
    && (forall p :: p in m.next && p !in m.pos ==> m'.next[p] == m.next[p])
    && Behind(m', m.head, m'.head)
    && Behind(m', m.tail, m'.tail)
  }

  ghost predicate GoodStep(m: Mem, pc: Pc, m': Mem, pc': Pc) {
    && ListInv(m') && Grows(m, m', pc.Unlinked())
    && ThreadInv(m', pc')
    && (pc'.Unlinked() == NULL || pc'.Unlinked() == pc.Unlinked() || pc'.Unlinked() !in m.next)
  }

  /** The step acts on the abstract queue as at most one atomic FIFO operation, recorded in
      the history: the link CAS inserts the node being added, the head CAS removes the node it
      hands out, no other step hands one out, and `add` only returns from its swing. */
  ghost predicate FifoStep(m: Mem, pc: Pc, m': Mem, r: Ret) {
    if m'.hist == m.hist then
      m'.Queue() == m.Queue() && !r.Took? && (r.Added? ==> pc.AddSwing? && pc.node == r.node)
    else
      && |m'.hist| == |m.hist| + 1 && m'.hist[..|m.hist|] == m.hist
      && match m'.hist[|m.hist|]
         case Enq(n) => pc.AddLink? && pc.node == n && r == NoRet && m'.Queue() == m.Queue() + [n]
         case Deq(n) => pc.TakeHead? && r == Took(n) && m.Queue() == [n] + m'.Queue()
  }

  /** A swing moves the tail to the successor of the node it held. */
  lemma TailMoves(m: Mem, n: Ptr)
    requires ListInv(m) && n != NULL && m.Load(m.tail) == n
    ensures var m' := m.(tail := n, swingLost := false);
            ListInv(m') && Grows(m, m', NULL) && m'.Queue() == m.Queue()
  {
    ChainNext(m, m.tail);
  }

  lemma ChainAppend(m: Mem, last: Ptr, n: Ptr)
    requires ListInv(m) && last in m.pos && m.next[last] == NULL && Fresh(m, n)
    ensures var m' := m.Linked(last, n); Chain(m'.link, m'.pos, m'.next)
    ensures m.pos[last] == |m.link| - 1
  {
    ChainNext(m, last);
    var m' := m.Linked(last, n);
    assert m'.link[|m.link| - 1] == last;
    forall i, j | 0 <= i < |m'.link| && j == i + 1 && j < |m'.link| ensures m'.next[m'.link[i]] == m'.link[j] {
      if j < |m.link| {
        assert m.next[m.link[i]] == m.link[j];
      }
    }
  }

  /** The link CAS (line 85) appends to the abstract queue. */
  lemma LinkAppends(m: Mem, last: Ptr, n: Ptr)
    requires ListInv(m) && Behind(m, last, m.tail) && m.next[last] == NULL && Fresh(m, n)
    ensures var m' := m.Linked(last, n);
            ListInv(m') && Grows(m, m', n) && FifoStep(m, AddLink(n, last), m', NoRet) && m'.tail == last
  {
    hide Replay;
    var m' := m.Linked(last, n);
    ChainAppend(m, last, n);
    PosInjective(m, last, m.tail);
    ReplayEnq(m.hist, n);
    hide Chain;
    assert m'.hist[..|m.hist|] == m.hist;
    assert m'.Queue() == m.Queue() + [n];
  }

  lemma ReplayEnq(h: seq<Event>, n: Ptr)
    ensures Replay(h + [Enq(n)]) == (Replay(h).0, Replay(h).1 + [n])
  {
    assert (h + [Enq(n)])[..|h|] == h;
  }

  /** The head CAS (line 113) removes and returns the first element. */
  lemma HeadRemoves(m: Mem, n: Ptr)
    requires ListInv(m) && m.Load(m.head) == n && n != NULL && m.head != m.tail
    ensures var m' := m.HeadMoved(n);
            ListInv(m') && Grows(m, m', NULL) && FifoStep(m, TakeHead(m.head, n), m', Took(n))
  {
    var m' := m.HeadMoved(n);
    ChainNext(m, m.head);
    if m.pos[m.head] == m.pos[m.tail] { PosInjective(m, m.head, m.tail); }
    assert m.link[m.pos[m.head] + 1] == n;
    assert m'.hist[..|m.hist|] == m.hist;
    assert m.Queue() == [n] + m'.Queue();
  }

  /** A step that leaves shared memory alone. */
  lemma LocalIsGood(m: Mem, pc: Pc, pc': Pc, r: Ret)
    requires ListInv(m) && ThreadInv(m, pc') && pc'.Unlinked() in {NULL, pc.Unlinked()}
    requires !r.Took? && (r.Added? ==> pc.AddSwing? && pc.node == r.node)
    ensures GoodStep(m, pc, m, pc') && FifoStep(m, pc, m, r)
  {
  }

  lemma AddIsGood(m: Mem, pc: Pc, spurious: bool)
    requires ListInv(m) && ThreadInv(m, pc) && pc.Adding()
    ensures var (m', pc', r) := ExecAdd(m, pc, spurious); GoodStep(m, pc, m', pc') && FifoStep(m, pc, m', r)
  {
    hide Replay, GoodStep, FifoStep;
    if pc.AddLink? && !spurious && m.Load(pc.last) == NULL {
      AddLinkIsGood(m, pc);
    } else if pc.AddSwing? {
      AddSwingIsGood(m, pc, spurious);
    } else if pc.AddHelp? && !spurious && m.tail == pc.last {
      AddHelpIsGood(m, pc);
    } else {
      var (m', pc', r) := ExecAdd(m, pc, spurious);
      assert m' == m;
      LocalIsGood(m, pc, pc', r);
    }
  }

  lemma AddLinkIsGood(m: Mem, pc: Pc)
    requires ListInv(m) && ThreadInv(m, pc) && pc.AddLink? && m.Load(pc.last) == NULL
    ensures var (m', pc', r) := ExecAdd(m, pc, false); GoodStep(m, pc, m', pc') && FifoStep(m, pc, m', r)
  {
    LinkAppends(m, pc.last, pc.node);
  }

  lemma AddHelpIsGood(m: Mem, pc: Pc)
    requires ListInv(m) && ThreadInv(m, pc) && pc.AddHelp? && m.tail == pc.last
    ensures var (m', pc', r) := ExecAdd(m, pc, false); GoodStep(m, pc, m', pc') && FifoStep(m, pc, m', r)
  {
    TailMoves(m, pc.next);
  }

  lemma AddSwingIsGood(m: Mem, pc: Pc, spurious: bool)
    requires ListInv(m) && ThreadInv(m, pc) && pc.AddSwing?
    ensures var (m', pc', r) := ExecAdd(m, pc, spurious); GoodStep(m, pc, m', pc') && FifoStep(m, pc, m', r)
  {
    hide Replay, Chain;
    var (m', _, _) := ExecAdd(m, pc, spurious);
    if !spurious && m.tail == pc.last {
      TailMoves(m, pc.node);
    } else {
      SwingFails(m, m'.swingLost);
      assert m' == m.(swingLost := m'.swingLost);
    }
  }

  lemma SwingFails(m: Mem, lost: bool)
    requires ListInv(m)
    ensures var m' := m.(swingLost := lost);
            ListInv(m') && Grows(m, m', NULL) && m'.Queue() == m.Queue()
  {
  }

  /** `first->next` read as NULL means `first` is the last node linked (so `first == last`);
      distinct `first` and `last` mean `first` has a successor. */
  lemma TakeSnapshot(m: Mem, pc: Pc, spurious: bool)
    requires ListInv(m) && ThreadInv(m, pc) && pc.Taking()
    requires !pc.TakeHelp? && !pc.TakeHead?
    ensures ThreadInv(m, ExecTake(m, pc, spurious).1)
  {
    match pc {
      case TakeReadNext(first, last) =>
        ChainNext(m, first);
        if m.pos[first] == m.pos[last] { PosInjective(m, first, last); }
      case TakeCheck(first, last, _) =>
        if m.pos[first] == m.pos[last] { PosInjective(m, first, last); }
      case _ =>
    }
  }

  lemma TakeReadIsGood(m: Mem, pc: Pc)
    requires ListInv(m) && ThreadInv(m, pc) && pc.Taking() && !pc.TakeHelp? && !pc.TakeHead?
    ensures var (m', pc', r) := ExecTake(m, pc, false); GoodStep(m, pc, m', pc') && FifoStep(m, pc, m', r)
  {
    var (m', pc', r) := ExecTake(m, pc, false);
    TakeSnapshot(m, pc, false);
    LocalIsGood(m, pc, pc', r);
  }

  lemma TakeCasIsGood(m: Mem, pc: Pc, spurious: bool)
    requires ListInv(m) && ThreadInv(m, pc) && (pc.TakeHelp? || pc.TakeHead?)
    ensures var (m', pc', r) := ExecTake(m, pc, spurious); GoodStep(m, pc, m', pc') && FifoStep(m, pc, m', r)
  {
    hide Replay, Chain;
    if pc.TakeHelp? && !spurious && m.tail == pc.last {
      TailMoves(m, pc.next);
    } else if pc.TakeHead? && !spurious && m.head == pc.first {
      HeadRemoves(m, pc.next);
    } else {
      LocalIsGood(m, pc, TakeReadHead, NoRet);
    }
  }

  lemma TakeIsGood(m: Mem, pc: Pc, spurious: bool)
    requires ListInv(m) && ThreadInv(m, pc) && pc.Taking()
    ensures var (m', pc', r) := ExecTake(m, pc, spurious); GoodStep(m, pc, m', pc') && FifoStep(m, pc, m', r)
  {
    if pc.TakeHelp? || pc.TakeHead? {
      TakeCasIsGood(m, pc, spurious);
    } else {
      TakeReadIsGood(m, pc);
      assert ExecTake(m, pc, spurious) == ExecTake(m, pc, false);
    }
  }

  lemma BeginAddIsGood(m: Mem, n: Ptr)
    requires ListInv(m) && n != NULL && n !in m.next
    ensures var m' := m.(next := m.next[n := NULL]);
            GoodStep(m, Idle, m', AddReadTail(n)) && FifoStep(m, Idle, m', NoRet)
  {
    hide Replay, Chain;
    NewNodeKeepsChain(m, n);
  }

  lemma NewNodeKeepsChain(m: Mem, n: Ptr)
    requires Chain(m.link, m.pos, m.next) && n != NULL && n !in m.next
    ensures Chain(m.link, m.pos, m.next[n := NULL]) && n !in m.pos
  {
  }

  lemma StepIsGood(m: Mem, pc: Pc, a: Action)
    requires ListInv(m) && ThreadInv(m, pc) && Enabled(m, pc, a)
    ensures var (m', pc', r) := Exec(m, pc, a); GoodStep(m, pc, m', pc') && FifoStep(m, pc, m', r)
  {
    hide ExecAdd, ExecTake, Chain, Replay, GoodStep, FifoStep;
    match a {
      case BeginAdd(n) => BeginAddIsGood(m, n);
      case BeginTake => LocalIsGood(m, pc, TakeReadHead, NoRet);
      case BeginTest => LocalIsGood(m, pc, TestReadHead, NoRet);
      case Run(spurious) =>
        if pc.Adding() { AddIsGood(m, pc, spurious); }
        else if pc.Taking() { TakeIsGood(m, pc, spurious); }
        else { LocalIsGood(m, pc, Exec(m, pc, a).1, Exec(m, pc, a).2); }
    }
  }

  /** What a thread knows about linked nodes and about its own node outlives any step. */
  lemma LinksStay(m: Mem, m': Mem, mine: Ptr, p: Ptr)
    requires ListInv(m) && Grows(m, m', mine)
    ensures p in m.pos && m.Load(p) != NULL ==> m'.Load(p) == m.Load(p)
    ensures Fresh(m, p) && p != mine ==> Fresh(m', p)
  {
    hide Replay;
  }

  lemma BehindStays(m: Mem, m': Mem, mine: Ptr, p: Ptr)
    requires Grows(m, m', mine) && p in m.pos
    ensures p in m'.pos
    ensures Behind(m, p, m.head) ==> Behind(m', p, m'.head)
    ensures Behind(m, p, m.tail) ==> Behind(m', p, m'.tail)
    ensures forall q :: Behind(m, p, q) ==> Behind(m', p, q)
  {
  }

  lemma BeforeTailStays(m: Mem, m': Mem, mine: Ptr, p: Ptr)
    requires ListInv(m) && Grows(m, m', mine) && Behind(m, p, m.tail) && p != m.tail
    ensures p != m'.tail
  {
    if m.pos[p] == m.pos[m.tail] { PosInjective(m, p, m.tail); }
  }

  lemma StaleAddStaysValid(m: Mem, m': Mem, mine: Ptr, pc: Pc)
    requires ListInv(m) && Grows(m, m', mine) && ThreadInv(m, pc) && pc.Adding()
    requires pc.Unlinked() != NULL ==> pc.Unlinked() != mine
    ensures ThreadInv(m', pc)
  {
    LinksStay(m, m', mine, pc.node);
    if !pc.AddReadTail? {
      LinksStay(m, m', mine, pc.last);
      BehindStays(m, m', mine, pc.last);
    }
    hide ListInv, Grows, Fresh, Behind;
  }

  lemma StaleTakeStaysValid(m: Mem, m': Mem, mine: Ptr, pc: Pc)
    requires ListInv(m) && Grows(m, m', mine) && ThreadInv(m, pc) && pc.Taking()
    ensures ThreadInv(m', pc)
  {
    hide ListInv, Grows;
    if pc.TakeReadTail? || pc.TakeReadNext? || pc.TakeCheck? || pc.TakeHead? {
      BehindStays(m, m', mine, pc.first);
      LinksStay(m, m', mine, pc.first);
    }
    if pc.TakeReadNext? || pc.TakeCheck? || pc.TakeHelp? {
      BehindStays(m, m', mine, pc.last);
      LinksStay(m, m', mine, pc.last);
    }
    if pc.TakeHead? { BeforeTailStays(m, m', mine, pc.first); }
  }

  lemma StaleSnapshotsStayValid(m: Mem, m': Mem, mine: Ptr, pc: Pc)
    requires ListInv(m) && Grows(m, m', mine) && ThreadInv(m, pc)
    requires pc.Unlinked() != NULL ==> pc.Unlinked() != mine
    ensures ThreadInv(m', pc)
  {
    hide ListInv;
    if pc.Adding() { StaleAddStaysValid(m, m', mine, pc); }
    else if pc.Taking() { StaleTakeStaysValid(m, m', mine, pc); }
    else if pc.TestReadTail? { BehindStays(m, m', mine, pc.seenHead); }
  }

  /** Only a spurious failure of line 88 loses a swing, and then the tail lags; while it lags
      no node can be linked, and whoever moves it makes up for the loss. */
  lemma LostStays(m: Mem, pc: Pc, a: Action)
    requires ListInv(m) && ThreadInv(m, pc) && Enabled(m, pc, a) && LostInv(m)
    ensures LostInv(Exec(m, pc, a).0)
  {
    hide Replay;
    if pc.AddSwing? || pc.AddLink? { ChainNext(m, m.tail); }
    if pc.AddLink? && m.Load(pc.last) == NULL { AtTheTail(m, pc.last); }
    if pc.AddSwing? { ChainNext(m, pc.last); }
  }

  lemma AtTheTail(m: Mem, p: Ptr)
    requires ListInv(m) && Behind(m, p, m.tail) && m.Load(p) == NULL
    ensures p == m.tail && !Lagging(m)
  {
    hide Replay;
    ChainNext(m, p);
    PosInjective(m, p, m.tail);
  }

  lemma SwingStaysOwed(s: State, t: Tid, a: Action)
    requires Inv(s) && Enabled(s.m, s.Pc(t), a)
    ensures OwedInv(Next(s, t, a).0)
  {
    hide Replay, Grows, FifoStep, OwnershipInv;
    var (m, pc) := (s.m, s.Pc(t));
    assert ThreadInv(m, pc);
    var s' := Next(s, t, a).0;
    if a.Run? && pc.AddLink? && s'.pcs[t].AddSwing? {
      LinkAppends(m, pc.last, pc.node);
      LinkerOwesSwing(s', t, pc.last, pc.node);
    } else if Lagging(s'.m) && !s'.m.swingLost {
      LaggingTailUnmoved(m, pc, a);
      SwingStillOwed(s, t, s'.m, s'.pcs[t]);
    }
  }

  lemma LinkerOwesSwing(s: State, t: Tid, last: Ptr, n: Ptr)
    requires t in s.pcs && s.pcs[t] == AddSwing(n, last)
    requires |s.m.link| > 0 && s.m.link[|s.m.link| - 1] == n && s.m.tail == last
    ensures OwedInv(s)
  {
  }

  lemma SwingStillOwed(s: State, t: Tid, m': Mem, pc': Pc)
    requires OwedInv(s) && Lagging(s.m) && !s.m.swingLost && m'.tail == s.m.tail && m'.link == s.m.link
    requires s.Pc(t) != AddSwing(s.m.link[|s.m.link| - 1], s.m.tail)
    ensures OwedInv(State(m', s.pcs[t := pc']))
  {
    var u :| u in s.pcs && s.pcs[u] == AddSwing(s.m.link[|s.m.link| - 1], s.m.tail);
    assert s.pcs[t := pc'][u] == s.pcs[u];
  }

  /** When exactly the tail lags. */
  lemma LaggingExactlyWhen(s: State)
    requires Inv(s)
    ensures Lagging(s.m) <==> s.m.swingLost || Owed(s)
  {
    hide Replay, OwnershipInv;
    ChainNext(s.m, s.m.tail);
    if Owed(s) {
      var t :| t in s.pcs && s.pcs[t] == AddSwing(s.m.link[|s.m.link| - 1], s.m.tail);
      assert ThreadInv(s.m, s.pcs[t]);
    }
  }

  /** What line 88 does: unless it fails spuriously, it moves the tail it expects to the node; and
      what makes a swing lost: nothing but that failure, until the tail moves. */
  lemma SwingExactly(m: Mem, pc: Pc, a: Action)
    requires ListInv(m) && ThreadInv(m, pc) && Enabled(m, pc, a)
    ensures var m' := Exec(m, pc, a).0;
      && (pc.AddSwing? ==> m'.tail == if a == Run(false) && m.tail == pc.last then pc.node else m.tail)
      && (m'.swingLost <==>
            (m.swingLost && m'.tail == m.tail) || (pc.AddSwing? && a == Run(true) && m.tail == pc.last))
  {
    hide Replay;
    if pc.AddSwing? || pc.AddHelp? || pc.TakeHelp? { ChainNext(m, pc.last); }
  }

  lemma LaggingTailUnmoved(m: Mem, pc: Pc, a: Action)
    requires ListInv(m) && ThreadInv(m, pc) && Enabled(m, pc, a)
    requires var (m', pc', _) := Exec(m, pc, a);
             Lagging(m') && !m'.swingLost && !(pc.AddLink? && pc'.AddSwing?)
    ensures var m' := Exec(m, pc, a).0; m'.tail == m.tail && m'.link == m.link
    ensures Lagging(m) && !m.swingLost
    ensures pc != AddSwing(m.link[|m.link| - 1], m.tail)
  {
    ChainNext(m, m.tail);
  }

  lemma KnownPlaces(s: State, t: Tid)
    requires Inv(s)
    ensures ListInv(s.m) && ThreadInv(s.m, s.Pc(t))
  {
    hide ListInv, OwnershipInv, SwingInv;
    if t in s.pcs { assert ThreadInv(s.m, s.pcs[t]); }
  }

  lemma InvIsInductive(s: State, t: Tid, a: Action)
    requires Inv(s) && Enabled(s.m, s.Pc(t), a)
    ensures Inv(Next(s, t, a).0)
  {
    hide Exec, Enabled, ListInv, Grows, FifoStep, OwedInv, ThreadInv;
    KnownPlaces(s, t);
    StepIsGood(s.m, s.Pc(t), a);
    LostStays(s.m, s.Pc(t), a);
    SwingStaysOwed(s, t, a);
    var s' := Next(s, t, a).0;
    forall u | u in s'.pcs ensures ThreadInv(s'.m, s'.pcs[u]) {
      if u != t { StaleSnapshotsStayValid(s.m, s'.m, s.Pc(t).Unlinked(), s.pcs[u]); }
    }
    OwnershipKept(s, t, a);
  }

  lemma OwnershipKept(s: State, t: Tid, a: Action)
    requires Inv(s) && Enabled(s.m, s.Pc(t), a)
    ensures OwnershipInv(Next(s, t, a).0.pcs)
  {
    hide Exec, ListInv, Grows, SwingInv, FifoStep;
    assert ThreadInv(s.m, s.Pc(t));
    StepIsGood(s.m, s.Pc(t), a);
    var s' := Next(s, t, a).0;
    forall u | u in s.pcs && u != t && s'.pcs[t].Unlinked() != NULL
      ensures s.pcs[u].Unlinked() != s'.pcs[t].Unlinked()
    {
      assert ThreadInv(s.m, s.pcs[u]);
    }
  }

  // ---------------------------------------------------------------------------------------
  // Refinement of an atomic FIFO, over whole runs

  /** Every step of every thread acts on the abstract queue as at most one atomic FIFO
      operation: the link CAS inserts at the back, the head CAS removes and returns the front,
      and everything else (all helping included) leaves it alone. */
  lemma StepRefinesFifo(s: State, t: Tid, a: Action)
    requires Inv(s) && Enabled(s.m, s.Pc(t), a)
    ensures var (s', r) := Next(s, t, a); Inv(s') && FifoStep(s.m, s.Pc(t), s'.m, r)
  {
    assert ThreadInv(s.m, s.Pc(t));
    InvIsInductive(s, t, a);
    StepIsGood(s.m, s.Pc(t), a);
  }

  datatype Move = Move(t: Tid, a: Action)

  /** A run: states[i] moves to states[i + 1] by moves[i]. */
  ghost predicate IsRun(states: seq<State>, moves: seq<Move>, dummy: Ptr) {
    && |states| == |moves| + 1
    && dummy != NULL && states[0] == Init(dummy)
    && forall i :: 0 <= i < |moves| ==>
         && Enabled(states[i].m, states[i].Pc(moves[i].t), moves[i].a)
         && Next(states[i], moves[i].t, moves[i].a).0 == states[i + 1]
  }

  lemma {:induction false} RunInv(states: seq<State>, moves: seq<Move>, dummy: Ptr, i: nat)
    requires IsRun(states, moves, dummy) && i < |states|
    ensures Inv(states[i])
  {
    if i == 0 {
      InitInv(dummy);
    } else {
      RunInv(states, moves, dummy, i - 1);
      InvIsInductive(states[i - 1], moves[i - 1].t, moves[i - 1].a);
    }
  }

  /** The list itself: `next` leads from each linked node to the following one, never back, and
      ends in the only NULL; the tail is the last or second-last node and not before the head. */
  ghost predicate WellLinked(m: Mem) {
    && m.link != []
    && (forall j, k :: 0 <= j < k < |m.link| ==> m.link[j] != m.link[k])
    && (forall j, k :: 0 <= j < |m.link| && k == j + 1 && k < |m.link| ==> m.Load(m.link[j]) == m.link[k] != NULL)
    && m.Load(m.link[|m.link| - 1]) == NULL
    && exists h, t :: 0 <= h <= t < |m.link| <= t + 2 && m.link[h] == m.head && m.link[t] == m.tail
  }

  /** In every reachable state: the history is legal; the nodes already handed out followed by
      the nodes still queued are the nodes inserted, which are the nodes linked, in link order
      and without repetition; and a thread about to move the head holds a successor. */
  lemma ReachableStates(states: seq<State>, moves: seq<Move>, dummy: Ptr, i: nat)
    requires IsRun(states, moves, dummy) && i < |states|
    ensures var m := states[i].m;
      && WellLinked(m) && Replay(m.hist) == (true, m.Queue())
      && Enqueued(m.hist) == Dequeued(m.hist) + m.Queue()
      && m.link[0] == dummy && Enqueued(m.hist) == m.link[1..]
    ensures forall t :: t in states[i].pcs && states[i].pcs[t].TakeHead? ==> states[i].pcs[t].next != NULL
  {
    hide Replay, Enqueued, Dequeued, ListInv, OwnershipInv, SwingInv, WellLinked;
    RunInv(states, moves, dummy, i);
    ListShape(states[i].m);
    LegalHistoryIsFifo(states[i].m.hist);
    LinkIsHistory(states, moves, dummy, i);
    HeadMoversHoldSuccessor(states[i]);
    hide Inv;
  }

  lemma ListShape(m: Mem)
    requires ListInv(m)
    ensures WellLinked(m) && Replay(m.hist) == (true, m.Queue())
  {
    hide Replay;
    assert m.link[m.pos[m.head]] == m.head && m.link[m.pos[m.tail]] == m.tail;
  }

  lemma HeadMoversHoldSuccessor(s: State)
    requires Inv(s)
    ensures forall t :: t in s.pcs && s.pcs[t].TakeHead? ==> s.pcs[t].next != NULL
  {
    hide ListInv, OwnershipInv, SwingInv, Behind;
  }

  /** The link order and the history grow together. */
  lemma LinkedAndRecorded(m: Mem, pc: Pc, a: Action)
    requires Enabled(m, pc, a)
    ensures var m' := Exec(m, pc, a).0;
      || (m'.link == m.link && m'.hist == m.hist)
      || (m'.link == m.link && m'.hist[..|m'.hist| - 1] == m.hist && |m'.hist| > 0 && m'.hist[|m'.hist| - 1].Deq?)
      || (pc.AddLink? && m'.link == m.link + [pc.node] && m'.hist == m.hist + [Enq(pc.node)])
  {
  }

  lemma NothingEnqueued()
    ensures Enqueued([]) == []
  {
  }

  lemma EnqueuedNext(h: seq<Event>, e: Event)
    ensures Enqueued(h + [e]) == Enqueued(h) + if e.Enq? then [e.node] else []
  {
    assert (h + [e])[..|h|] == h;
  }

  lemma {:induction false} LinkIsHistory(states: seq<State>, moves: seq<Move>, dummy: Ptr, i: nat)
    requires IsRun(states, moves, dummy) && i < |states|
    ensures var m := states[i].m; m.link != [] && m.link[0] == dummy && Enqueued(m.hist) == m.link[1..]
  {
    hide Exec, Replay, Enqueued;
    if i == 0 {
      assert Enqueued([]) == [] by { NothingEnqueued(); }
    } else {
      var s, mv := states[i - 1], moves[i - 1];
      LinkIsHistory(states, moves, dummy, i - 1);
      LinkedAndRecorded(s.m, s.Pc(mv.t), mv.a);
      var m, m' := s.m, states[i].m;
      if m'.hist != m.hist {
        EnqueuedNext(m.hist, m'.hist[|m.hist|]);
        assert m'.hist == m.hist + [m'.hist[|m.hist|]];
      }
    }
  }

  // ---------------------------------------------------------------------------------------
  // Linearizability of `add`

  /** A thread about to swing the tail has linked its node in the same call. */
  lemma {:induction false} LinkInstant(states: seq<State>, moves: seq<Move>, dummy: Ptr, i: nat, t: Tid)
      returns (k: nat)
    requires IsRun(states, moves, dummy) && i < |states| && states[i].Pc(t).AddSwing?
    ensures var n := states[i].Pc(t).node;
      && k < i && moves[k].t == t && states[k].Pc(t).AddLink? && states[k].Pc(t).node == n
      && states[k + 1].m.hist == states[k].m.hist + [Enq(n)]
      && forall j :: k <= j <= i ==> states[j].Pc(t).Adding() && states[j].Pc(t).node == n
  {
    assert i > 0;
    var s, mv := states[i - 1], moves[i - 1];
    if mv.t == t {
      SwingFollowsLink(s, t, mv.a);
      k := i - 1;
    } else {
      OthersKeepTheirPlace(s, mv.t, mv.a, t);
      k := LinkInstant(states, moves, dummy, i - 1, t);
    }
  }

  lemma SwingFollowsLink(s: State, t: Tid, a: Action)
    requires Enabled(s.m, s.Pc(t), a) && Next(s, t, a).0.Pc(t).AddSwing?
    ensures s.Pc(t).AddLink? && s.Pc(t).node == Next(s, t, a).0.Pc(t).node
    ensures Next(s, t, a).0.m.hist == s.m.hist + [Enq(s.Pc(t).node)]
  {
  }

  /** Whenever `add` returns, its node was inserted, by the link CAS, at an instant of that very
      call. */
  lemma AddIsLinearizable(states: seq<State>, moves: seq<Move>, dummy: Ptr, i: nat)
      returns (k: nat)
    requires IsRun(states, moves, dummy) && i < |moves| && Next(states[i], moves[i].t, moves[i].a).1.Added?
    ensures var t, n := moves[i].t, Next(states[i], moves[i].t, moves[i].a).1.node;
      && k < i && moves[k].t == t && states[k].Pc(t).AddLink? && states[k].Pc(t).node == n
      && states[k + 1].m.hist == states[k].m.hist + [Enq(n)]
      && forall j :: k <= j <= i ==> states[j].Pc(t).Adding() && states[j].Pc(t).node == n
  {
    AddedFromSwing(states[i], moves[i].t, moves[i].a);
    k := LinkInstant(states, moves, dummy, i, moves[i].t);
  }

  lemma AddedFromSwing(s: State, t: Tid, a: Action)
    requires Enabled(s.m, s.Pc(t), a) && Next(s, t, a).1.Added?
    ensures s.Pc(t).AddSwing? && s.Pc(t).node == Next(s, t, a).1.node
  {
  }

  lemma {:induction false} LinkOnlyGrows(states: seq<State>, moves: seq<Move>, dummy: Ptr, i: nat, l: nat)
    requires IsRun(states, moves, dummy) && i <= l < |states|
    ensures states[i].m.link <= states[l].m.link
  {
    hide Exec;
    if i < l {
      LinkOnlyGrows(states, moves, dummy, i, l - 1);
      LinkedAndRecorded(states[l - 1].m, states[l - 1].Pc(moves[l - 1].t), moves[l - 1].a);
    }
  }

  /** Nothing added is lost: from the return of an `add` on, its node is among the inserted
      nodes, exactly once; by `ReachableStates` it has then been handed out or is still queued. */
  lemma ReturnedAddIsEnqueued(states: seq<State>, moves: seq<Move>, dummy: Ptr, i: nat, l: nat)
      returns (p: nat)
    requires IsRun(states, moves, dummy) && i < l < |states|
    requires Next(states[i], moves[i].t, moves[i].a).1.Added?
    ensures var n, inserted := Next(states[i], moves[i].t, moves[i].a).1.node, Enqueued(states[l].m.hist);
      p < |inserted| && inserted[p] == n && forall q :: 0 <= q < |inserted| && inserted[q] == n ==> q == p
  {
    hide Exec, Enqueued, Next;
    var k := AddIsLinearizable(states, moves, dummy, i);
    LinkIsHistory(states, moves, dummy, k);
    LinkIsHistory(states, moves, dummy, k + 1);
    LinkIsHistory(states, moves, dummy, l);
    EnqueuedNext(states[k].m.hist, Enq(states[k].Pc(moves[i].t).node));
    LinkOnlyGrows(states, moves, dummy, k + 1, l);
    LinkedOnce(states, moves, dummy, l);
    hide IsRun;
    p := |states[k + 1].m.link| - 2;
    OnceInTail(states[k].m.link, states[k + 1].m.link, states[l].m.link,
               Next(states[i], moves[i].t, moves[i].a).1.node);
  }

  lemma LinkedOnce(states: seq<State>, moves: seq<Move>, dummy: Ptr, l: nat)
    requires IsRun(states, moves, dummy) && l < |states|
    ensures forall j, k :: 0 <= j < k < |states[l].m.link| ==> states[l].m.link[j] != states[l].m.link[k]
  {
    RunInv(states, moves, dummy, l);
    hide IsRun, Replay;
  }

  lemma OnceInTail(before: seq<Ptr>, after: seq<Ptr>, now: seq<Ptr>, n: Ptr)
    requires before != [] && after != [] && after[1..] == before[1..] + [n] && after <= now
    requires forall j, k :: 0 <= j < k < |now| ==> now[j] != now[k]
    ensures var p, inserted := |after| - 2, now[1..];
      0 <= p < |inserted| && inserted[p] == n && forall q :: 0 <= q < |inserted| && inserted[q] == n ==> q == p
  {
    assert |after[1..]| == |before[1..]| + 1;
    assert after[|after| - 1] == after[1..][|after| - 2] == n;
  }

  /** No tail swing of line 88 fails spuriously. */
  predicate SwingsSucceed(states: seq<State>, moves: seq<Move>) {
    && |moves| <= |states|
    && forall i :: 0 <= i < |moves| && states[i].Pc(moves[i].t).AddSwing? ==> moves[i].a != Run(true)
  }

  lemma {:induction false} NothingLost(states: seq<State>, moves: seq<Move>, dummy: Ptr, i: nat)
    requires IsRun(states, moves, dummy) && SwingsSucceed(states, moves) && i < |states|
    ensures !states[i].m.swingLost
  {
    hide Exec, Inv, Enabled;
    if i > 0 {
      NothingLost(states, moves, dummy, i - 1);
      RunInv(states, moves, dummy, i - 1);
      KnownPlaces(states[i - 1], moves[i - 1].t);
      SwingExactly(states[i - 1].m, states[i - 1].Pc(moves[i - 1].t), moves[i - 1].a);
    }
  }

  /** Then the tail is the last node linked whenever nobody is about to swing it. */
  lemma TailIsLast(states: seq<State>, moves: seq<Move>, dummy: Ptr, i: nat)
    requires IsRun(states, moves, dummy) && SwingsSucceed(states, moves) && i < |states|
    requires forall t :: t in states[i].pcs ==> !states[i].pcs[t].AddSwing?
    ensures states[i].m.link != [] && states[i].m.tail == states[i].m.link[|states[i].m.link| - 1]
  {
    RunInv(states, moves, dummy, i);
    NothingLost(states, moves, dummy, i);
    LaggingExactlyWhen(states[i]);
    NotLagging(states[i].m);
  }

  lemma NotLagging(m: Mem)
    requires ListInv(m) && !Lagging(m)
    ensures m.tail == m.link[|m.link| - 1]
  {
    hide Replay;
    assert m.link[m.pos[m.tail]] == m.tail;
  }

  lemma NullSnapshotMeansEmpty(s: State, t: Tid, a: Action)
    requires Inv(s) && Enabled(s.m, s.Pc(t), a)
    requires var pc' := Next(s, t, a).0.Pc(t); pc'.TakeCheck? && pc'.next == NULL
    ensures s.Pc(t).Taking() && s.m.Queue() == []
  {
    assert s.Pc(t).TakeReadNext?;
    assert ThreadInv(s.m, s.pcs[t]);
    ChainNext(s.m, s.Pc(t).first);
  }

  /** A snapshot holding `next == NULL` was taken at an instant of the same call at which the
      queue was empty. */
  lemma {:induction false} EmptyInstant(states: seq<State>, moves: seq<Move>, dummy: Ptr, i: nat, t: Tid)
      returns (k: nat)
    requires IsRun(states, moves, dummy) && i < |states|
    requires states[i].Pc(t).TakeCheck? && states[i].Pc(t).next == NULL
    ensures k <= i && states[k].m.Queue() == []
    ensures forall j :: k <= j <= i ==> states[j].Pc(t).Taking()
  {
    hide Exec, Inv, Enabled;
    assert i > 0;
    var s, mv := states[i - 1], moves[i - 1];
    RunInv(states, moves, dummy, i - 1);
    if mv.t == t {
      NullSnapshotMeansEmpty(s, t, mv.a);
      k := i - 1;
    } else {
      OthersKeepTheirPlace(s, mv.t, mv.a, t);
      k := EmptyInstant(states, moves, dummy, i - 1, t);
    }
  }

  lemma OthersKeepTheirPlace(s: State, t: Tid, a: Action, u: Tid)
    requires Enabled(s.m, s.Pc(t), a) && t != u
    ensures Next(s, t, a).0.Pc(u) == s.Pc(u)
  {
  }

  /** Linearizability of the NULL answer: whenever `nextElement` returns NULL, the queue was
      empty at some instant of that very call. The answers that carry a node are covered by
      StepRefinesFifo: the head CAS itself is their instant. */
  lemma NullAnswerIsLinearizable(states: seq<State>, moves: seq<Move>, dummy: Ptr, i: nat)
      returns (k: nat)
    requires IsRun(states, moves, dummy) && i < |moves|
    requires Next(states[i], moves[i].t, moves[i].a).1 == TookNull
    ensures k <= i && states[k].m.Queue() == []
    ensures forall j :: k <= j <= i ==> states[j].Pc(moves[i].t).Taking()
  {
    k := EmptyInstant(states, moves, dummy, i, moves[i].t);
  }
}
