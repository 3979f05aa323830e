/** Where queue nodes come from (`Thread::returnNextNode`, `putFreeNode`): the premise of the work
    queue's model that an added node has never been in the queue before. */
module NodePool {
  import opened WorkQueue

  const POOL_THRESHOLD := 50

  /** A thread's node pool and the nodes allocated by anyone so far. */
  datatype Pool = Pool(nextSlot: int, nodes: seq<Ptr>, heap: set<Ptr>)

  datatype Request = Put(node: Ptr) | Next(answer: Ptr)

  /** `Next` carries the address the allocator would answer: not one in use. A pool that has to
      serve a request must not be empty. */
  predicate Possible(p: Pool, q: Request) {
    q.Next? ==> q.answer !in p.heap && (p.nextSlot < POOL_THRESHOLD || p.nodes != [])
  }

  /** The pool after a request, and the node handed out. */
  function Serve(p: Pool, q: Request): (Pool, Ptr)
    requires Possible(p, q)
  {
    match q
    case Put(n) => (p.(nodes := p.nodes + [n]), NULL)
    case Next(n) =>
      if p.nextSlot < POOL_THRESHOLD then (p.(heap := p.heap + {n}), n)
      else (p.(nodes := p.nodes[..|p.nodes| - 1], nextSlot := p.nextSlot - 1), p.nodes[|p.nodes| - 1])
  }

  class Thread {
    var nextSlot: int
    var nodePool: seq<Ptr>
    ghost var heap: set<Ptr>

    ghost function Snapshot(): Pool
      reads this
    {
      Pool(nextSlot, nodePool, heap)
    }

    constructor (ghost heap: set<Ptr>)
      ensures Snapshot() == Pool(0, [], heap)
    {
      nextSlot, nodePool := 0, [];
      this.heap := heap;
    }

    method PutFreeNode(node: Ptr)
      modifies this
      ensures Snapshot() == Serve(old(Snapshot()), Put(node)).0
    {
      nodePool := nodePool + [node];
    }

    method ReturnNextNode(answer: Ptr) returns (n: Ptr)
      requires Possible(Snapshot(), Next(answer))
      modifies this
      ensures (Snapshot(), n) == Serve(old(Snapshot()), Next(answer))
    {
      if nextSlot < POOL_THRESHOLD {
        n := answer;
        heap := heap + {answer};
      } else {
        n := nodePool[|nodePool| - 1];
        nodePool := nodePool[..|nodePool| - 1];
        nextSlot := nextSlot - 1;
      }
    }
  }

  ghost predicate IsServed(pools: seq<Pool>, asked: seq<Request>) {
    && |pools| == |asked| + 1 && pools[0].nextSlot == 0
    && forall i :: 0 <= i < |asked| ==> Possible(pools[i], asked[i]) && Serve(pools[i], asked[i]).0 == pools[i + 1]
  }

  lemma {:induction false} SlotNeverGrows(pools: seq<Pool>, asked: seq<Request>, i: nat, k: nat)
    requires IsServed(pools, asked) && i <= k < |pools|
    ensures pools[k].nextSlot <= 0 && pools[i].heap <= pools[k].heap
  {
    if k > 0 {
      SlotNeverGrows(pools, asked, if i < k then i else k - 1, k - 1);
      assert Serve(pools[k - 1], asked[k - 1]).0 == pools[k];
    }
  }

  /** Whatever is put back, the pool is never used: every node handed out is newly allocated and
      different from every node handed out before. */
  lemma NodesAreNeverRecycled(pools: seq<Pool>, asked: seq<Request>, i: nat, k: nat)
    requires IsServed(pools, asked) && i < k < |asked| && asked[i].Next? && asked[k].Next?
    ensures Serve(pools[k], asked[k]).1 !in pools[k].heap
    ensures Serve(pools[i], asked[i]).1 in pools[k].heap
    ensures Serve(pools[i], asked[i]).1 != Serve(pools[k], asked[k]).1
  {
    SlotNeverGrows(pools, asked, i, i);
    SlotNeverGrows(pools, asked, i + 1, k);
    assert Serve(pools[i], asked[i]).0 == pools[i + 1];
  }
}
