/** The reusable barrier built on a mutex and a condition variable. Any number of threads call
    `pthread_barrier_wait` any number of times; each transition is one statement, with
    `pthread_cond_wait` split into its atomic release-and-block and the later re-acquisition of
    the mutex. POSIX lets a condition wait wake up spuriously, so that is a transition too. */
module Barrier {
  import opened Wrappers

  type Tid = nat

  /** Where a thread is. A call belongs to the generation in which it incremented `count`. */
  datatype Pc =
    | Outside
    | WantEntry                          // 59: blocked on the mutex
    | Entered                            // 60
    | Counted(gen: nat)                  // 61
    | Tripped(gen: nat)                  // 63
    | Resetted(gen: nat)                 // 64
    | Leaving(gen: nat)                  // 65-66
    | Waiting(gen: nat)                  // 70: blocked on the condition variable
    | Woken(gen: nat, spurious: bool)    // 70: blocked on re-acquiring the mutex
    | Resumed(gen: nat, spurious: bool)  // 71-72
  {
    predicate Holds() { Entered? || Counted? || Tripped? || Resetted? || Leaving? || Resumed? }
  }

  datatype Action = Call | Proceed | SpuriousWake

  datatype Ret = NoRet | Returned(value: int, gen: nat, spurious: bool)

  /** `mutex`, `count` and `trip` are the barrier object. The rest is history: the current
      generation `gen`, how many calls of each generation have arrived, how many calls of each
      generation returned 1, the threads blocked on the condition variable, and how many calls
      of the current generation were woken spuriously. */
  datatype State = State(
    mutex: Option<Tid>, count: int, trip: int, pcs: map<Tid, Pc>,
    gen: nat, arrivals: seq<nat>, ones: seq<nat>, waiters: set<Tid>, early: nat)
  {
    function Pc(t: Tid): Pc { if t in pcs then pcs[t] else Outside }

    function Goto(t: Tid, pc: Pc): State { this.(pcs := pcs[t := pc]) }

    /** The place of the thread that holds the mutex. */
    function Holder(): Pc { if mutex.Some? then Pc(mutex.value) else Outside }
  }

  /** `pthread_barrier_init`: a zero count is refused (EINVAL, -1). */
  function Init(count: nat): (r: (int, State))
    ensures r.0 == if count == 0 then -1 else 0
  {
    (if count == 0 then -1 else 0, State(None, 0, count, map[], 0, [0], [0], {}, 0))
  }

  predicate Enabled(s: State, t: Tid, a: Action) {
    match a
    case Call => s.Pc(t).Outside?
    case SpuriousWake => s.Pc(t).Waiting?
    case Proceed =>
      if s.Pc(t).WantEntry? || s.Pc(t).Woken? then s.mutex.None?
      else !s.Pc(t).Outside? && !s.Pc(t).Waiting?
  }

  function WakeAll(pcs: map<Tid, Pc>): map<Tid, Pc> {
    map t | t in pcs :: if pcs[t].Waiting? then Woken(pcs[t].gen, false) else pcs[t]
  }

  function Next(s: State, t: Tid, a: Action): (State, Ret)
    requires Enabled(s, t, a)
  {
    match a
    case Call => (s.Goto(t, WantEntry), NoRet)
    case SpuriousWake =>
      (s.(waiters := s.waiters - {t}, early := s.early + 1).Goto(t, Woken(s.Pc(t).gen, true)), NoRet)
    case Proceed =>
      match s.Pc(t)
      case WantEntry => (s.(mutex := Some(t)).Goto(t, Entered), NoRet)
      case Entered =>
        (s.(count := s.count + 1,
            arrivals := if s.gen < |s.arrivals| then s.arrivals[s.gen := s.arrivals[s.gen] + 1] else s.arrivals)
         .Goto(t, Counted(s.gen)), NoRet)
      case Counted(g) =>
        if s.count >= s.trip then (s.Goto(t, Tripped(g)), NoRet)
        else (s.(mutex := None, waiters := s.waiters + {t}).Goto(t, Waiting(g)), NoRet)
      case Tripped(g) =>
        (s.(count := 0, gen := s.gen + 1, arrivals := s.arrivals + [0], ones := s.ones + [0]).Goto(t, Resetted(g)),
         NoRet)
      case Resetted(g) => (s.(waiters := {}, early := 0, pcs := WakeAll(s.pcs)).Goto(t, Leaving(g)), NoRet)
      case Leaving(g) =>
        (s.(mutex := None, ones := if g < |s.ones| then s.ones[g := s.ones[g] + 1] else s.ones).Goto(t, Outside),
         Returned(1, g, false))
      case Woken(g, sp) => (s.(mutex := Some(t)).Goto(t, Resumed(g, sp)), NoRet)
      case Resumed(g, sp) => (s.(mutex := None).Goto(t, Outside), Returned(0, g, sp))
      case _ => (s, NoRet)
  }

  /** The barrier object, updated in place by the statement a thread executes. */
  class PThreadBarrier {
    var mutex: Option<Tid>
    var count: int
    var trip: int
    var pcs: map<Tid, Pc>
    var gen: nat
    ghost var arrivals: seq<nat>
    ghost var ones: seq<nat>
    ghost var waiters: set<Tid>
    ghost var early: nat

    ghost function Snapshot(): State
      reads this
    {
      State(mutex, count, trip, pcs, gen, arrivals, ones, waiters, early)
    }

    constructor (n: nat)
      ensures Snapshot() == Init(n).1
    {
      mutex, count, trip, pcs := None, 0, n, map[];
      gen, arrivals, ones, waiters, early := 0, [0], [0], {}, 0;
    }

    /** Statements executed before the mutex is released or given up. */
    method Arrive(t: Tid)
      requires Enabled(Snapshot(), t, Proceed) && t in pcs
      requires pcs[t].WantEntry? || pcs[t].Entered? || pcs[t].Counted? || pcs[t].Tripped? || pcs[t].Resetted?
      modifies this
      ensures (Snapshot(), NoRet) == Next(old(Snapshot()), t, Proceed)
    {
      match pcs[t] {
        case WantEntry =>
          mutex := Some(t);
          pcs := pcs[t := Entered];
        case Entered =>
          count := count + 1;
          if gen < |arrivals| { arrivals := arrivals[gen := arrivals[gen] + 1]; }
          pcs := pcs[t := Counted(gen)];
        case Counted(g) =>
          if count >= trip {
            pcs := pcs[t := Tripped(g)];
          } else {
            mutex, waiters := None, waiters + {t};
            pcs := pcs[t := Waiting(g)];
          }
        case Tripped(g) =>
          count := 0;
          gen, arrivals, ones := gen + 1, arrivals + [0], ones + [0];
          pcs := pcs[t := Resetted(g)];
        case Resetted(g) =>
          waiters, early := {}, 0;
          pcs := WakeAll(pcs)[t := Leaving(g)];
      }
    }

    /** Re-acquiring the mutex after the wait, and returning. */
    method Depart(t: Tid) returns (r: Ret)
      requires Enabled(Snapshot(), t, Proceed) && t in pcs
      requires pcs[t].Leaving? || pcs[t].Woken? || pcs[t].Resumed?
      modifies this
      ensures (Snapshot(), r) == Next(old(Snapshot()), t, Proceed)
    {
      match pcs[t] {
        case Leaving(g) =>
          mutex := None;
          if g < |ones| { ones := ones[g := ones[g] + 1]; }
          pcs := pcs[t := Outside];
          r := Returned(1, g, false);
        case Woken(g, sp) =>
          mutex := Some(t);
          pcs := pcs[t := Resumed(g, sp)];
          r := NoRet;
        case Resumed(g, sp) =>
          mutex := None;
          pcs := pcs[t := Outside];
          r := Returned(0, g, sp);
      }
    }
  }

  // ---------------------------------------------------------------------------------------
  // The inductive invariant

  /** What a thread's place says about the barrier. */
  ghost predicate ThreadInv(s: State, pc: Pc) {
    match pc
    case Counted(g) => g == s.gen && s.count <= s.trip
    case Tripped(g) => g == s.gen && s.count == s.trip
    case Resetted(g) => g + 1 == s.gen && s.count == 0
    case Leaving(g) => g + 1 == s.gen
    case Woken(g, sp) => g <= s.gen && (!sp ==> g < s.gen)
    case Resumed(g, sp) => g <= s.gen && (!sp ==> g < s.gen)
    case Waiting(g) => g == if s.Holder().Resetted? then s.gen - 1 else s.gen
    case _ => true
  }

  ghost predicate HolderInv(s: State) {
    && (forall t :: t in s.pcs && s.pcs[t].Holds() ==> s.mutex == Some(t))
    && (s.mutex.Some? ==> s.mutex.value in s.pcs && s.pcs[s.mutex.value].Holds())
  }

  /** The holder has incremented `count` and is neither blocked nor through yet. */
  ghost predicate InFlight(s: State) { s.Holder().Counted? || s.Holder().Tripped? }

  ghost predicate WaiterSetInv(s: State) {
    forall t :: t in s.waiters <==> t in s.pcs && s.pcs[t].Waiting?
  }

  /** While no trip is in progress, `count` is the number of calls of the current generation
      that are blocked (or were woken spuriously), plus the holder if it has just arrived. */
  ghost predicate WaiterCountInv(s: State) {
    !s.Holder().Resetted? ==> |s.waiters| + s.early + (if InFlight(s) then 1 else 0) == s.count
  }

  /** The tripping call of generation `g` has not returned yet. */
  ghost predicate Pending(s: State, g: nat) { s.Holder() == Resetted(g) || s.Holder() == Leaving(g) }

  ghost predicate ArrivalsInv(s: State) {
    && s.trip >= 1
    && (!InFlight(s) ==> s.count < s.trip)
    && |s.arrivals| == s.gen + 1 && s.arrivals[s.gen] == s.count
    && (forall g :: 0 <= g < s.gen ==> s.arrivals[g] == s.trip)
  }

  ghost predicate OnesInv(s: State) {
    && |s.ones| == s.gen + 1 && s.ones[s.gen] == 0
    && (forall g :: 0 <= g < s.gen ==> s.ones[g] == if Pending(s, g) then 0 else 1)
  }

  ghost predicate CountInv(s: State) { ArrivalsInv(s) && OnesInv(s) }

  ghost predicate Inv(s: State) {
    && HolderInv(s) && WaiterSetInv(s) && WaiterCountInv(s) && CountInv(s)
    && forall t :: t in s.pcs ==> ThreadInv(s, s.pcs[t])
  }

  lemma InitInv(n: nat)
    requires n >= 1
    ensures Inv(Init(n).1)
  {
  }

  lemma HolderKept(s: State, t: Tid, a: Action)
    requires Inv(s) && Enabled(s, t, a)
    ensures HolderInv(Next(s, t, a).0)
  {
    hide WaiterSetInv, WaiterCountInv, CountInv, ThreadInv;
  }

  lemma CountKept(s: State, t: Tid, a: Action)
    requires Inv(s) && Enabled(s, t, a)
    ensures CountInv(Next(s, t, a).0)
  {
    ArrivalsKept(s, t, a);
    OnesKept(s, t, a);
    hide Next, Inv;
  }

  lemma ArrivalsKept(s: State, t: Tid, a: Action)
    requires Inv(s) && Enabled(s, t, a)
    ensures ArrivalsInv(Next(s, t, a).0)
  {
    hide WaiterSetInv, WaiterCountInv, OnesInv, WakeAll;
  }

  lemma OnesKept(s: State, t: Tid, a: Action)
    requires Inv(s) && Enabled(s, t, a)
    ensures OnesInv(Next(s, t, a).0)
  {
    hide WaiterSetInv, WaiterCountInv, ArrivalsInv, WakeAll;
  }

  predicate Broadcasting(s: State, t: Tid, a: Action) { a.Proceed? && s.Pc(t).Resetted? }

  lemma WaiterSetKept(s: State, t: Tid, a: Action)
    requires WaiterSetInv(s) && Enabled(s, t, a) && !Broadcasting(s, t, a)
    ensures WaiterSetInv(Next(s, t, a).0)
  {
  }

  lemma WaiterCountKept(s: State, t: Tid, a: Action)
    requires HolderInv(s) && WaiterSetInv(s) && WaiterCountInv(s) && CountInv(s)
    requires Enabled(s, t, a) && !Broadcasting(s, t, a) && ThreadInv(s, s.Pc(t))
    ensures WaiterCountInv(Next(s, t, a).0)
  {
  }

  lemma ThreadsKept(s: State, t: Tid, a: Action)
    requires Inv(s) && Enabled(s, t, a) && !Broadcasting(s, t, a)
    ensures var s' := Next(s, t, a).0; forall u :: u in s'.pcs ==> ThreadInv(s', s'.pcs[u])
  {
    var s' := Next(s, t, a).0;
    MoverKept(s, t, a);
    forall u | u in s'.pcs && u != t ensures ThreadInv(s', s'.pcs[u]) {
      OtherKept(s, t, a, u);
    }
  }

  lemma MoverKept(s: State, t: Tid, a: Action)
    requires Inv(s) && Enabled(s, t, a) && !Broadcasting(s, t, a)
    ensures var s' := Next(s, t, a).0; ThreadInv(s', s'.Pc(t))
  {
    if t in s.pcs { assert ThreadInv(s, s.pcs[t]); }
  }

  lemma OtherKept(s: State, t: Tid, a: Action, u: Tid)
    requires HolderInv(s) && Enabled(s, t, a) && !Broadcasting(s, t, a)
    requires u in s.pcs && u != t && ThreadInv(s, s.pcs[u]) && ThreadInv(s, s.Pc(t))
    ensures var s' := Next(s, t, a).0; u in s'.pcs && ThreadInv(s', s'.pcs[u])
  {
  }

  lemma BroadcastKeeps(s: State, t: Tid)
    requires Inv(s) && s.Pc(t).Resetted?
    ensures var s' := Next(s, t, Proceed).0;
            WaiterSetInv(s') && WaiterCountInv(s') && forall u :: u in s'.pcs ==> ThreadInv(s', s'.pcs[u])
  {
    var s' := Next(s, t, Proceed).0;
    assert s'.Holder() == Leaving(s.Pc(t).gen);
    forall u | u in s'.pcs ensures ThreadInv(s', s'.pcs[u]) {
      assert ThreadInv(s, s.pcs[u]);
    }
  }

  lemma InvIsInductive(s: State, t: Tid, a: Action)
    requires Inv(s) && Enabled(s, t, a)
    ensures Inv(Next(s, t, a).0)
  {
    HolderKept(s, t, a);
    CountKept(s, t, a);
    if Broadcasting(s, t, a) {
      BroadcastKeeps(s, t);
    } else {
      assert ThreadInv(s, s.Pc(t));
      WaiterSetKept(s, t, a);
      WaiterCountKept(s, t, a);
      ThreadsKept(s, t, a);
    }
  }

  // ---------------------------------------------------------------------------------------
  // Whole runs

  datatype Move = Move(t: Tid, a: Action)

  ghost predicate IsRun(states: seq<State>, moves: seq<Move>, n: nat) {
    && |states| == |moves| + 1
    && n >= 1 && states[0] == Init(n).1
    && forall i :: 0 <= i < |moves| ==>
         && Enabled(states[i], moves[i].t, moves[i].a)
         && Next(states[i], moves[i].t, moves[i].a).0 == states[i + 1]
  }

  lemma {:induction false} RunInv(states: seq<State>, moves: seq<Move>, n: nat, i: nat)
    requires IsRun(states, moves, n) && i < |states|
    ensures Inv(states[i]) && states[i].trip == n
  {
    if i == 0 {
      InitInv(n);
    } else {
      RunInv(states, moves, n, i - 1);
      InvIsInductive(states[i - 1], moves[i - 1].t, moves[i - 1].a);
    }
  }

  function Answer(states: seq<State>, moves: seq<Move>, i: nat): Ret
    requires i < |moves| <= |states| && Enabled(states[i], moves[i].t, moves[i].a)
  {
    Next(states[i], moves[i].t, moves[i].a).1
  }

  /** How many calls of generation `g` have arrived (executed line 60) in the first `i` moves. */
  ghost function Arrived(states: seq<State>, moves: seq<Move>, i: nat, g: nat): nat
    requires i <= |moves| <= |states|
  {
    if i == 0 then 0 else
    Arrived(states, moves, i - 1, g)
    + if moves[i - 1].a.Proceed? && states[i - 1].Pc(moves[i - 1].t).Entered? && states[i - 1].gen == g then 1 else 0
  }

  /** A call of generation `g` returning 1, however it was woken. */
  predicate IsOne(r: Ret, g: nat) { r.Returned? && r.value == 1 && r.gen == g }

  /** How many calls of generation `g` have returned 1 in the first `i` moves. */
  ghost function ReturnedOne(states: seq<State>, moves: seq<Move>, i: nat, g: nat): nat
    requires i <= |moves| <= |states|
    requires forall j :: 0 <= j < |moves| ==> Enabled(states[j], moves[j].t, moves[j].a)
  {
    if i == 0 then 0 else
    ReturnedOne(states, moves, i - 1, g)
    + if IsOne(Answer(states, moves, i - 1), g) then 1 else 0
  }

  function At(tally: seq<nat>, g: nat): nat { if g < |tally| then tally[g] else 0 }

  lemma StepTallies(s: State, t: Tid, a: Action, g: nat)
    requires Inv(s) && Enabled(s, t, a)
    ensures var (s', r) := Next(s, t, a);
      && At(s'.arrivals, g) == At(s.arrivals, g) + (if a.Proceed? && s.Pc(t).Entered? && s.gen == g then 1 else 0)
      && At(s'.ones, g) == At(s.ones, g) + if IsOne(r, g) then 1 else 0
  {
    assert ThreadInv(s, s.Pc(t));
  }

  lemma {:induction false} TalliesAreRight(states: seq<State>, moves: seq<Move>, n: nat, i: nat, g: nat)
    requires IsRun(states, moves, n) && i <= |moves|
    ensures Arrived(states, moves, i, g) == At(states[i].arrivals, g)
    ensures ReturnedOne(states, moves, i, g) == At(states[i].ones, g)
  {
    if i > 0 {
      RunInv(states, moves, n, i - 1);
      TalliesAreRight(states, moves, n, i - 1, g);
      StepTallies(states[i - 1], moves[i - 1].t, moves[i - 1].a, g);
    }
  }

  /** In every reachable state with the mutex free, `count` is the number of blocked calls of
      the current generation (plus the spuriously woken ones), it is below the trip count, and
      nobody is left blocked on a generation that has tripped. */
  lemma AtRest(states: seq<State>, moves: seq<Move>, n: nat, i: nat)
    requires IsRun(states, moves, n) && i < |states| && states[i].mutex.None?
    ensures var s := states[i];
      && s.count == |s.waiters| + s.early && s.count < n
      && (forall t :: t in s.waiters <==> t in s.pcs && s.pcs[t] == Waiting(s.gen))
      && (forall t :: t in s.pcs && s.pcs[t].Waiting? ==> s.pcs[t].gen == s.gen)
  {
    RunInv(states, moves, n, i);
    var s := states[i];
    forall t | t in s.pcs && s.pcs[t].Waiting? ensures s.pcs[t].gen == s.gen {
      assert ThreadInv(s, s.pcs[t]);
    }
  }

  /** No call returns before all `n` calls of its generation have arrived, unless it was woken
      spuriously while its generation was still open; and then it does return early. */
  lemma ReturnsOnlyAfterAllArrived(states: seq<State>, moves: seq<Move>, n: nat, i: nat)
    requires IsRun(states, moves, n) && i < |moves| && Answer(states, moves, i).Returned?
    ensures var Returned(value, g, spurious) := Answer(states, moves, i);
      && Arrived(states, moves, i, g) <= n
      && (Arrived(states, moves, i, g) < n <==> g == states[i].gen)
      && (g == states[i].gen ==> spurious && value == 0)
  {
    RunInv(states, moves, n, i);
    assert ThreadInv(states[i], states[i].Pc(moves[i].t));
    TalliesAreRight(states, moves, n, i, Answer(states, moves, i).gen);
  }

  /** Of the calls of one generation, at most one ever returns 1, and exactly one has returned
      1 as soon as the generation has tripped and the mutex is free again; every other return, of
      any call, is 0. */
  lemma ExactlyOneReturnsOne(states: seq<State>, moves: seq<Move>, n: nat, i: nat, g: nat)
    requires IsRun(states, moves, n) && i <= |moves|
    ensures ReturnedOne(states, moves, i, g) <= 1
    ensures states[i].mutex.None? ==>
              (ReturnedOne(states, moves, i, g) == 1 <==> Arrived(states, moves, i, g) == n)
    ensures forall l :: 0 <= l < i && Answer(states, moves, l).Returned? ==> Answer(states, moves, l).value in {0, 1}
  {
    RunInv(states, moves, n, i);
    TalliesAreRight(states, moves, n, i, g);
    TallyBounds(states[i], g);
  }

  predicate PastArrival(pc: Pc) { pc.Counted? || pc.Tripped? || pc.Resetted? || pc.Leaving? }

  lemma NotArrivedYet(n: nat, t: Tid)
    ensures !PastArrival(Init(n).1.Pc(t))
  {
  }

  lemma ArrivalCounts(s: State, t: Tid, a: Action)
    requires Enabled(s, t, a) && s.Pc(t).Entered?
    ensures Next(s, t, a).0.Pc(t) == Counted(s.gen)
  {
  }

  lemma NobodyElseArrives(s: State, u: Tid, a: Action, t: Tid)
    requires Inv(s) && Enabled(s, u, a) && PastArrival(Next(s, u, a).0.Pc(t)) && !(u == t && s.Pc(t).Entered?)
    ensures PastArrival(s.Pc(t)) && s.Pc(t).gen == Next(s, u, a).0.Pc(t).gen
    ensures !(a.Proceed? && s.Pc(u).Entered?)
  {
  }

  /** Between its arrival and its return of 1, or its blocking, a call holds the mutex, so nobody
      else arrives. */
  lemma {:induction false} ArrivalOf(states: seq<State>, moves: seq<Move>, n: nat, i: nat, t: Tid) returns (k: nat)
    requires IsRun(states, moves, n) && i < |states| && PastArrival(states[i].Pc(t))
    ensures k < i && moves[k].t == t && states[k].Pc(t).Entered? && states[k].gen == states[i].Pc(t).gen
    ensures Arrived(states, moves, k + 1, states[i].Pc(t).gen) == Arrived(states, moves, i, states[i].Pc(t).gen)
  {
    hide Next, Inv, Enabled, PastArrival;
    NotArrivedYet(n, t);
    var s, mv := states[i - 1], moves[i - 1];
    RunInv(states, moves, n, i - 1);
    if mv.t == t && s.Pc(t).Entered? {
      ArrivalCounts(s, t, mv.a);
      k := i - 1;
    } else {
      NobodyElseArrives(s, mv.t, mv.a, t);
      k := ArrivalOf(states, moves, n, i - 1, t);
    }
  }

  /** The call that returns 1 is the one that arrived last. */
  lemma LastArrivalReturnsOne(states: seq<State>, moves: seq<Move>, n: nat, i: nat) returns (k: nat)
    requires IsRun(states, moves, n) && i < |moves|
    requires Answer(states, moves, i).Returned? && Answer(states, moves, i).value == 1
    ensures var g := Answer(states, moves, i).gen;
      && k < i && moves[k].t == moves[i].t && states[k].Pc(moves[k].t).Entered? && states[k].gen == g
      && Arrived(states, moves, k + 1, g) == n
  {
    var g := Answer(states, moves, i).gen;
    RunInv(states, moves, n, i);
    assert states[i].Pc(moves[i].t) == Leaving(g);
    assert ThreadInv(states[i], states[i].Pc(moves[i].t));
    k := ArrivalOf(states, moves, n, i, moves[i].t);
    TalliesAreRight(states, moves, n, i, g);
  }

  lemma TallyBounds(s: State, g: nat)
    requires Inv(s)
    ensures At(s.ones, g) <= 1
    ensures s.mutex.None? ==> (At(s.ones, g) == 1 <==> At(s.arrivals, g) == s.trip)
  {
  }

  // ---------------------------------------------------------------------------------------
  // Every call arrives once and returns

  /** A call that has arrived in generation `g` and not returned. */
  predicate InCallOf(pc: Pc, g: nat) { !pc.Outside? && !pc.WantEntry? && !pc.Entered? && pc.gen == g }

  lemma ComesFromArrival(s: State, u: Tid, a: Action, t: Tid, g: nat)
    requires Enabled(s, u, a) && InCallOf(Next(s, u, a).0.Pc(t), g)
    ensures InCallOf(s.Pc(t), g) || (u == t && s.Pc(t).Entered? && s.gen == g)
  {
  }

  /** Only a call leads to the mutex. */
  lemma ComesFromCall(s: State, u: Tid, a: Action, t: Tid)
    requires Enabled(s, u, a)
    requires var pc' := Next(s, u, a).0.Pc(t); pc'.WantEntry? || pc'.Entered?
    ensures (u == t && a.Call?) || ((s.Pc(t).WantEntry? || s.Pc(t).Entered?) && !(u == t && s.Pc(t).Entered?))
  {
  }

  lemma {:induction false} ArrivedAt(states: seq<State>, moves: seq<Move>, n: nat, i: nat, t: Tid, g: nat)
      returns (k: nat)
    requires IsRun(states, moves, n) && i < |states| && InCallOf(states[i].Pc(t), g)
    ensures k < i && moves[k].t == t && states[k].Pc(t).Entered? && states[k].gen == g
    ensures forall j :: k < j <= i ==> InCallOf(states[j].Pc(t), g)
  {
    hide Next, Enabled;
    assert i > 0;
    ComesFromArrival(states[i - 1], moves[i - 1].t, moves[i - 1].a, t, g);
    if InCallOf(states[i - 1].Pc(t), g) {
      k := ArrivedAt(states, moves, n, i - 1, t, g);
    } else {
      k := i - 1;
    }
  }

  lemma {:induction false} CalledAt(states: seq<State>, moves: seq<Move>, n: nat, i: nat, t: Tid) returns (c: nat)
    requires IsRun(states, moves, n) && i < |states| && (states[i].Pc(t).WantEntry? || states[i].Pc(t).Entered?)
    ensures c < i && moves[c] == Move(t, Call)
    ensures forall j :: c < j <= i ==> states[j].Pc(t).WantEntry? || states[j].Pc(t).Entered?
    ensures forall j :: c < j < i && moves[j].t == t ==> !states[j].Pc(t).Entered?
  {
    hide Next, Enabled;
    assert i > 0;
    ComesFromCall(states[i - 1], moves[i - 1].t, moves[i - 1].a, t);
    if moves[i - 1].t == t && moves[i - 1].a.Call? {
      c := i - 1;
    } else {
      c := CalledAt(states, moves, n, i - 1, t);
    }
  }

  /** Between a call and its return the call arrives exactly once, and its return carries the
      generation it arrived in. */
  lemma CallArrivesOnce(states: seq<State>, moves: seq<Move>, n: nat, i: nat) returns (c: nat, k: nat)
    requires IsRun(states, moves, n) && i < |moves| && Answer(states, moves, i).Returned?
    ensures var t := moves[i].t;
      && c < k < i && moves[c] == Move(t, Call)
      && moves[k].t == t && states[k].Pc(t).Entered? && states[k].gen == Answer(states, moves, i).gen
      && (forall j :: c < j <= i ==> !states[j].Pc(t).Outside?)
      && (forall j :: c <= j <= i && moves[j].t == t && states[j].Pc(t).Entered? ==> j == k)
  {
    var t, g := moves[i].t, Answer(states, moves, i).gen;
    ReturnsFromCall(states[i], t, moves[i].a);
    hide Next, Enabled;
    k := ArrivedAt(states, moves, n, i, t, g);
    c := CalledAt(states, moves, n, k, t);
    CallsFromOutside(states, moves, n, c, t);
  }

  lemma ReturnsFromCall(s: State, t: Tid, a: Action)
    requires Enabled(s, t, a) && Next(s, t, a).1.Returned?
    ensures InCallOf(s.Pc(t), Next(s, t, a).1.gen)
  {
  }

  lemma CallsFromOutside(states: seq<State>, moves: seq<Move>, n: nat, c: nat, t: Tid)
    requires IsRun(states, moves, n) && c < |moves| && moves[c] == Move(t, Call)
    ensures states[c].Pc(t).Outside?
  {
    hide Next;
  }

  ghost function Returns(states: seq<State>, moves: seq<Move>, i: nat, g: nat): nat
    requires i <= |moves| <= |states|
    requires forall j :: 0 <= j < |moves| ==> Enabled(states[j], moves[j].t, moves[j].a)
  {
    if i == 0 then 0 else
    Returns(states, moves, i - 1, g)
    + if Answer(states, moves, i - 1).Returned? && Answer(states, moves, i - 1).gen == g then 1 else 0
  }

  /** The threads whose calls have arrived in generation `g` and not returned. */
  function Inside(s: State, g: nat): set<Tid> { set t | t in s.pcs && InCallOf(s.pcs[t], g) }

  lemma InsideStep(s: State, t: Tid, a: Action, g: nat)
    requires Enabled(s, t, a)
    ensures var (s', r) := Next(s, t, a);
      if a.Proceed? && s.Pc(t).Entered? && s.gen == g then t !in Inside(s, g) && Inside(s', g) == Inside(s, g) + {t}
      else if r.Returned? && r.gen == g then t in Inside(s, g) && Inside(s', g) == Inside(s, g) - {t}
      else Inside(s', g) == Inside(s, g)
    ensures Next(s, t, a).1.Returned? ==> !s.Pc(t).Entered?
  {
    hide Inside;
    var s' := Next(s, t, a).0;
    MembersInside(s, g);
    MembersInside(s', g);
    assert forall u :: u in Inside(s', g) ==> u in Inside(s, g) || u == t;
  }

  lemma MembersInside(s: State, g: nat)
    ensures forall u :: u in Inside(s, g) <==> InCallOf(s.Pc(u), g)
  {
  }

  /** No call gets lost: the calls that arrived in a generation are those that have returned and
      those still inside. */
  lemma {:induction false} ArrivedAreAccountedFor(states: seq<State>, moves: seq<Move>, n: nat, i: nat, g: nat)
    requires IsRun(states, moves, n) && i <= |moves|
    ensures Arrived(states, moves, i, g) == Returns(states, moves, i, g) + |Inside(states[i], g)|
  {
    hide Inside, Next, Enabled;
    if i == 0 {
      assert Inside(states[0], g) == {} by { NobodyInside(n, g); }
    } else {
      ArrivedAreAccountedFor(states, moves, n, i - 1, g);
      InsideStep(states[i - 1], moves[i - 1].t, moves[i - 1].a, g);
    }
  }

  lemma NobodyInside(n: nat, g: nat)
    ensures Inside(Init(n).1, g) == {}
  {
  }

  /** Once a generation has tripped, as many of its `n` calls are still inside as have not returned,
      and each of those has been let go; when none is left inside, all `n` have returned, one of
      them 1 and, by `ExactlyOneReturnsOne`, the others 0. */
  lemma EveryCallReturns(states: seq<State>, moves: seq<Move>, n: nat, i: nat, g: nat)
    requires IsRun(states, moves, n) && i <= |moves| && g < states[i].gen
    ensures Returns(states, moves, i, g) + |Inside(states[i], g)| == n
    ensures states[i].mutex.None? ==> forall t :: t in Inside(states[i], g) ==> states[i].Pc(t).Woken?
    ensures Inside(states[i], g) == {} ==>
              Returns(states, moves, i, g) == n && ReturnedOne(states, moves, i, g) == 1
  {
    hide Next, Enabled;
    RunInv(states, moves, n, i);
    ArrivedAreAccountedFor(states, moves, n, i, g);
    TalliesAreRight(states, moves, n, i, g);
    LetGo(states[i], g);
    hide Inv, IsRun;
  }

  lemma LetGo(s: State, g: nat)
    requires Inv(s) && g < s.gen
    ensures At(s.arrivals, g) == s.trip
    ensures s.mutex.None? ==> forall t :: t in Inside(s, g) ==> s.Pc(t).Woken?
    ensures Inside(s, g) == {} ==> At(s.ones, g) == 1
  {
    if s.mutex.None? {
      forall t | t in Inside(s, g) ensures s.Pc(t).Woken? { assert ThreadInv(s, s.pcs[t]); }
    } else if Pending(s, g) {
      assert s.mutex.value in Inside(s, g);
    }
  }

  /** What another thread does leaves a call that has been let go where it is. */
  lemma StaysLetGo(s: State, u: Tid, a: Action, t: Tid)
    requires Enabled(s, u, a) && u != t && (s.Pc(t).Woken? || s.Pc(t).Resumed?)
    ensures Next(s, u, a).0.Pc(t) == s.Pc(t)
  {
  }

  lemma {:induction false} WaitsForItsMove(states: seq<State>, moves: seq<Move>, n: nat, i: nat, j: nat, t: Tid)
    requires IsRun(states, moves, n) && i <= j < |states| && (states[i].Pc(t).Woken? || states[i].Pc(t).Resumed?)
    requires forall l :: i <= l < j ==> moves[l].t != t
    ensures states[j].Pc(t) == states[i].Pc(t)
  {
    hide Next, Enabled;
    if i < j {
      WaitsForItsMove(states, moves, n, i, j - 1, t);
      StaysLetGo(states[j - 1], moves[j - 1].t, moves[j - 1].a, t);
    }
  }

  /** A call that has been let go, by the broadcast or spuriously, returns 0 with its generation on
      exactly the second of its own moves, whatever happens in between. */
  lemma ReleasedReturns(states: seq<State>, moves: seq<Move>, n: nat, i: nat, j: nat, l: nat)
    requires IsRun(states, moves, n) && i <= j < l < |moves|
    requires moves[j].t == moves[l].t && states[i].Pc(moves[j].t).Woken?
    requires forall m :: i <= m < l && m != j ==> moves[m].t != moves[j].t
    ensures var Woken(g, sp) := states[i].Pc(moves[j].t);
      Answer(states, moves, j) == NoRet && Answer(states, moves, l) == Returned(0, g, sp)
  {
    var t := moves[j].t;
    WaitsForItsMove(states, moves, n, i, j, t);
    OwnMove(states[j], t, moves[j].a);
    assert states[j + 1] == Next(states[j], t, moves[j].a).0;
    WaitsForItsMove(states, moves, n, j + 1, l, t);
    OwnMove(states[l], t, moves[l].a);
    hide Next, Enabled;
  }

  lemma OwnMove(s: State, t: Tid, a: Action)
    requires Enabled(s, t, a) && (s.Pc(t).Woken? || s.Pc(t).Resumed?)
    ensures var (s', r) := Next(s, t, a); var pc := s.Pc(t);
      if pc.Woken? then r == NoRet && s'.Pc(t) == Resumed(pc.gen, pc.spurious)
      else r == Returned(0, pc.gen, pc.spurious)
  {
  }

  /** Statements until the holder has released the mutex, at most. */
  function UntilFree(pc: Pc): nat {
    match pc
    case Entered => 5
    case Counted(_) => 4
    case Tripped(_) => 3
    case Resetted(_) => 2
    case Leaving(_) => 1
    case Resumed(_, _) => 1
    case _ => 0
  }

  /** And it is never kept from its next move: while the mutex is taken the holder can move, and
      five of its moves at most free it, which no other thread's move delays; once it is free,
      whoever waits for it can move. */
  lemma MutexIsFreed(s: State, t: Tid, a: Action)
    requires Inv(s) && Enabled(s, t, a)
    ensures s.mutex.Some? ==> Enabled(s, s.mutex.value, Proceed) && UntilFree(s.Holder()) <= 5
    ensures s.mutex.Some? ==> var s' := Next(s, t, a).0;
              if t == s.mutex.value
              then s'.mutex.None? || (s'.mutex == s.mutex && UntilFree(s'.Holder()) < UntilFree(s.Holder()))
              else s'.mutex == s.mutex && s'.Holder() == s.Holder()
    ensures s.mutex.None? ==> forall u :: s.Pc(u).Woken? || s.Pc(u).WantEntry? ==> Enabled(s, u, Proceed)
  {
  }

  /** Without a loop around the condition wait the exception is real: any call that is blocked
      while the mutex is free can, by one spurious wake-up and two more of its own statements,
      return 0 before its generation is complete. */
  lemma SpuriousWakeReturnsEarly(s: State, t: Tid) returns (s1: State, s2: State, g: nat)
    requires Inv(s) && s.mutex.None? && s.Pc(t).Waiting?
    ensures Enabled(s, t, SpuriousWake) && s1 == Next(s, t, SpuriousWake).0
    ensures Enabled(s1, t, Proceed) && s2 == Next(s1, t, Proceed).0
    ensures Enabled(s2, t, Proceed) && Next(s2, t, Proceed).1 == Returned(0, g, true)
    ensures g == s.Pc(t).gen == s2.gen && g < |s2.arrivals| && s2.arrivals[g] < s2.trip
  {
    s1 := Next(s, t, SpuriousWake).0;
    s2 := Next(s1, t, Proceed).0;
    g := s.Pc(t).gen;
    assert ThreadInv(s, s.Pc(t));
  }

  /** A run can be continued by any enabled move. */
  lemma Continue(states: seq<State>, moves: seq<Move>, n: nat, t: Tid, a: Action)
      returns (states': seq<State>, moves': seq<Move>)
    requires IsRun(states, moves, n) && Enabled(states[|moves|], t, a)
    ensures moves' == moves + [Move(t, a)] && states' == states + [Next(states[|moves|], t, a).0]
    ensures IsRun(states', moves', n)
  {
    states', moves' := states + [Next(states[|moves|], t, a).0], moves + [Move(t, a)];
  }

  /** A single arrival at a new barrier for two blocks. */
  lemma FirstArrivalBlocks() returns (states: seq<State>, moves: seq<Move>)
    ensures IsRun(states, moves, 2) && |moves| == 4 && forall i :: 0 <= i < 4 ==> moves[i].t == 5
    ensures states[4].mutex.None? && states[4].Pc(5) == Waiting(0)
  {
    hide IsRun;
    states, moves := [Init(2).1], [];
    assert IsRun(states, moves, 2) by { NewRun(); }
    states, moves := Continue(states, moves, 2, 5, Call);
    states, moves := Continue(states, moves, 2, 5, Proceed);
    states, moves := Continue(states, moves, 2, 5, Proceed);
    states, moves := Continue(states, moves, 2, 5, Proceed);
  }

  lemma NewRun()
    ensures IsRun([Init(2).1], [], 2)
  {
  }

  /** And it happens from the start: with two parties, a single arrival that blocks and is woken
      spuriously returns 0 although the second party has never called. */
  lemma EarlyReturnRun() returns (states: seq<State>, moves: seq<Move>)
    ensures IsRun(states, moves, 2) && |moves| == 7 && forall i :: 0 <= i < 7 ==> moves[i].t == 5
    ensures Answer(states, moves, 6) == Returned(0, 0, true)
  {
    states, moves := FirstArrivalBlocks();
    RunInv(states, moves, 2, 4);
    var s1, s2, g := SpuriousWakeReturnsEarly(states[4], 5);
    hide Next, Inv;
    states, moves := Continue(states, moves, 2, 5, SpuriousWake);
    states, moves := Continue(states, moves, 2, 5, Proceed);
    states, moves := Continue(states, moves, 2, 5, Proceed);
  }
}
