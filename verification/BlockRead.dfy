/** The counter-driven block reader: no state machine guards its requests, only the interplay of
    `reads_allowed` and two seven-bit counters. */
module BlockRead {
  import opened ScanAfu
  import opened ScanSession

  const COUNTER_RANGE := 128

  /** `new_block_received`, `read_buff_address`, `total_cls`. */
  datatype BlockCsrs = BlockCsrs(newBlock: bool, readBuff: nat, total: nat)

  /** `cl_offset` counts requests made, `cls_processed` responses seen. */
  datatype Counters = Counters(offset: nat, processed: nat)

  datatype ReaderRegs = ReaderRegs(csr: BlockCsrs, allowed: bool, count: Counters, valid: bool, addr: nat)

  predicate RequestsDone(r: ReaderRegs) { r.count.offset == r.csr.total }
  predicate ReadsDone(r: ReaderRegs) { r.count.processed == r.csr.total }

  function NextBlockCsrs(c: BlockCsrs, wr: Pulse): BlockCsrs {
    if wr.NoPulse? then c.(newBlock := false)
    else match wr.idx
      case 0 => c.(newBlock := false, total := wr.data % COUNTER_RANGE)
      case 3 => c.(newBlock := true, readBuff := ClAddr(wr.data))
      case _ => c.(newBlock := false)
  }

  function NextAllowed(r: ReaderRegs, reset: bool, full: bool, rsp: bool): bool {
    if reset then false
    else if r.allowed then full else r.csr.newBlock || (!ReadsDone(r) && !RequestsDone(r) && rsp)
  }

  /** A request and a response in the same cycle: the request is counted, the response is not. */
  function NextCounters(r: ReaderRegs, rsp: bool): Counters {
    if r.csr.newBlock then Counters(0, 0)
    else if r.valid then r.count.(offset := (r.count.offset + 1) % COUNTER_RANGE)
    else if rsp then r.count.(processed := (r.count.processed + 1) % COUNTER_RANGE)
    else r.count
  }

  function ReaderStep(r: ReaderRegs, reset: bool, wr: Pulse, full: bool, rsp: bool): ReaderRegs {
    ReaderRegs(NextBlockCsrs(r.csr, wr), NextAllowed(r, reset, full, rsp), NextCounters(r, rsp),
               !reset && !ReadsDone(r) && r.allowed && !full,
               if reset then r.addr else LineAddr(r.csr.readBuff, r.count.offset))
  }

  class BlockReader {
    var csr: BlockCsrs
    var allowed: bool
    var count: Counters
    var valid: bool
    var addr: nat

    function Snapshot(): ReaderRegs
      reads this
    {
      ReaderRegs(csr, allowed, count, valid, addr)
    }

    constructor ()
      ensures Snapshot() == ReaderRegs(BlockCsrs(false, 0, 0), false, Counters(0, 0), false, 0)
    {
      csr, allowed, count, valid, addr := BlockCsrs(false, 0, 0), false, Counters(0, 0), false, 0;
    }

    method Count(rsp: bool) returns (c: Counters)
      ensures c == NextCounters(Snapshot(), rsp)
    {
      c := count;
      if csr.newBlock {
        c := c.(processed := 0);
        c := c.(offset := 0);
      } else if valid {
        c := c.(offset := (count.offset + 1) % COUNTER_RANGE);
      } else if rsp {
        c := c.(processed := (count.processed + 1) % COUNTER_RANGE);
      }
    }

    method Tick(reset: bool, wr: Pulse, full: bool, rsp: bool)
      modifies this
      ensures Snapshot() == ReaderStep(old(Snapshot()), reset, wr, full, rsp)
    {
      var readsDone, requestsDone := count.processed == csr.total, count.offset == csr.total;
      var allowed', valid', addr' := false, false, addr;
      if !reset {
        allowed' := if allowed then full else csr.newBlock || (!readsDone && !requestsDone && rsp);
        valid', addr' := !readsDone && allowed && !full, LineAddr(csr.readBuff, count.offset);
      }
      var count' := Count(rsp);
      var csr' := NextBlockCsrs(csr, wr);
      csr, allowed, count, valid, addr := csr', allowed', count', valid', addr';
    }
  }

  // ---------------------------------------------------------------------------------------
  // The reader against a memory that answers after one cycle or more

  datatype ReaderWorld = ReaderWorld(r: ReaderRegs, pending: seq<nat>, fetched: seq<seq<nat>>)

  predicate Answers(w: ReaderWorld, e: Env) { e.answer.Some? && e.answer.value < |w.pending| }

  function ReaderCycle(w: ReaderWorld, e: Env): ReaderWorld {
    var r' := ReaderStep(w.r, false, e.wr, e.c0Full, Answers(w, e));
    var fetched := if w.r.csr.newBlock then w.fetched + [[]] else w.fetched;
    ReaderWorld(r', Answered(w.pending, e.answer) + (if w.r.valid then [w.r.addr] else []),
                if r'.valid then AppendLast(fetched, r'.addr) else fetched)
  }

  ghost predicate ReaderIdle(w: ReaderWorld) { !w.r.allowed && !w.r.valid && w.pending == [] }

  ghost predicate BlockIs(c: BlockCsrs, base: nat, total: nat) {
    c.readBuff == base && c.total == total && 1 <= total < 128
  }

  /** Exactly one of: a request is wanted, on the port, or unanswered; or everything is read. */
  ghost predicate ReaderPhase(w: ReaderWorld, base: nat, total: nat) {
    var r, m := w.r, w.r.count.processed;
    if m == total then
      ReaderIdle(w) && r.count.offset == total && |Last(w.fetched)| == total
    else if r.allowed then
      m < total && !r.valid && w.pending == [] && r.count.offset == m && |Last(w.fetched)| == m
    else
      && m < total && |Last(w.fetched)| == m + 1
      && if r.valid then w.pending == [] && r.count.offset == m && r.addr == LineAddr(base, m)
         else |w.pending| == 1 && r.count.offset == m + 1
  }

  ghost predicate ReaderInv(w: ReaderWorld, base: nat, total: nat) {
    && BlockIs(w.r.csr, base, total) && !w.r.csr.newBlock && w.fetched != []
    && ReaderPhase(w, base, total)
    && forall j :: 0 <= j < |Last(w.fetched)| ==> Last(w.fetched)[j] == LineAddr(base, j)
  }

  /** A reset tick stops the requests, whatever went before. */
  lemma ResetStopsReader(r: ReaderRegs, wr: Pulse, full: bool, rsp: bool)
    ensures var r' := ReaderStep(r, true, wr, full, rsp); ReaderIdle(ReaderWorld(r', [], []))
  {
  }

  predicate ReaderQuiet(wr: Pulse) { wr.Pulse? ==> wr.idx !in {0, 3} }

  lemma ReaderAccepts(w: ReaderWorld, e: Env, base: nat, total: nat)
    requires BlockIs(w.r.csr, base, total) && w.r.csr.newBlock && ReaderIdle(w) && ReaderQuiet(e.wr)
    ensures ReaderInv(ReaderCycle(w, e), base, total) && !ReadsDone(ReaderCycle(w, e).r)
    ensures ReaderCycle(w, e).r.allowed
  {
  }

  lemma ReaderKeeps(w: ReaderWorld, e: Env, base: nat, total: nat)
    requires ReaderInv(w, base, total) && ReaderQuiet(e.wr)
    ensures ReaderInv(ReaderCycle(w, e), base, total)
    ensures ReadsDone(w.r) ==> ReadsDone(ReaderCycle(w, e).r) && ReaderCycle(w, e).fetched == w.fetched
    ensures w.r.valid ==> !Answers(w, e)
  {
    LastAppended(w.fetched, LineAddr(base, w.r.count.offset));
  }

  ghost predicate ReaderRun(ws: seq<ReaderWorld>, es: seq<Env>) {
    && |ws| == |es| + 1 && ReaderIdle(ws[0]) && ws[0].r.csr.newBlock && 1 <= ws[0].r.csr.total < 128
    && forall i :: 0 <= i < |es| ==> ReaderQuiet(es[i].wr) && ws[i + 1] == ReaderCycle(ws[i], es[i])
  }

  lemma {:induction false} ReaderRunInv(ws: seq<ReaderWorld>, es: seq<Env>, i: nat)
    requires ReaderRun(ws, es) && 1 <= i < |ws|
    ensures ReaderInv(ws[i], ws[0].r.csr.readBuff, ws[0].r.csr.total)
  {
    if i == 1 {
      ReaderAccepts(ws[0], es[0], ws[0].r.csr.readBuff, ws[0].r.csr.total);
    } else {
      ReaderRunInv(ws, es, i - 1);
      ReaderKeeps(ws[i - 1], es[i - 1], ws[0].r.csr.readBuff, ws[0].r.csr.total);
    }
  }

  /** In every state of a block: at most one request is outstanding, none coincides with a
      response (so no response is lost to the `else if`), the requests so far are lines
      0, 1, ... of the buffer, and `reads_done` means all of them have been made. */
  lemma BlockReads(ws: seq<ReaderWorld>, es: seq<Env>, i: nat)
    requires ReaderRun(ws, es) && 1 <= i < |ws|
    ensures |ws[i].pending| + (if ws[i].r.valid then 1 else 0) <= 1
    ensures i < |es| && ws[i].r.valid ==> !Answers(ws[i], es[i])
    ensures |Last(ws[i].fetched)| <= ws[0].r.csr.total
    ensures forall j :: 0 <= j < |Last(ws[i].fetched)| ==>
              Last(ws[i].fetched)[j] == LineAddr(ws[0].r.csr.readBuff, j)
    ensures ReadsDone(ws[i].r) ==> |Last(ws[i].fetched)| == ws[0].r.csr.total
  {
    ReaderRunInv(ws, es, i);
    if i < |es| { ReaderKeeps(ws[i], es[i], ws[0].r.csr.readBuff, ws[0].r.csr.total); }
  }

  /** And these are the block's bytes: line by line, those from the byte address written to CSR 3 on. */
  lemma BlockBytes(w: ReaderWorld, e: Env, buff: nat, ws: seq<ReaderWorld>, es: seq<Env>, i: nat, o: nat)
    requires ReaderRun(ws, es) && 1 <= i < |ws| && e.wr == Pulse(3, buff) && ws[0] == ReaderCycle(w, e)
    requires buff % 64 == 0 && o / 64 < |Last(ws[i].fetched)|
    ensures ByteOf(buff, o) == 64 * Last(ws[i].fetched)[o / 64] + o % 64
  {
    BlockReads(ws, es, i);
    LineOfByte(buff, o);
  }

  /** Until the next block `reads_done` stays up and no further request is made. */
  lemma {:induction false} ReadsDoneHolds(ws: seq<ReaderWorld>, es: seq<Env>, i: nat, k: nat)
    requires ReaderRun(ws, es) && 1 <= i <= k < |ws| && ReadsDone(ws[i].r)
    ensures ReadsDone(ws[k].r) && ws[k].fetched == ws[i].fetched
  {
    if i < k {
      ReadsDoneHolds(ws, es, i, k - 1);
      ReaderRunInv(ws, es, k - 1);
      ReaderKeeps(ws[k - 1], es[k - 1], ws[0].r.csr.readBuff, ws[0].r.csr.total);
    }
  }

  /** A block and a partition at the same address with the same number of lines: when both are
      done, both have made the same sequence of requests. */
  lemma SameReadsAsScan(d: Design, mem: Memory, ws: seq<World>, es: seq<Env>, dest: nat, i: nat,
                        bs: seq<ReaderWorld>, bes: seq<Env>, k: nat)
    requires PartitionRun(d, mem, ws, es, dest) && CanFinish(d, ws[0].r.csr) && 1 <= i < |ws|
    requires ReaderRun(bs, bes) && 1 <= k < |bs|
    requires ws[0].r.csr.readBuff == bs[0].r.csr.readBuff && ws[0].r.csr.totalCls == bs[0].r.csr.total
    requires ws[i].r.prog.partitionDone && ReadsDone(bs[k].r)
    ensures Last(ws[i].fetched) == Last(bs[k].fetched)
  {
    PartitionTraffic(d, mem, ws, es, dest, i);
    BlockReads(bs, bes, k);
  }

  // ---------------------------------------------------------------------------------------
  // Progress: three unstalled cycles per line

  function ReaderLeft(r: ReaderRegs): int {
    if ReadsDone(r) then 0
    else 3 * (r.csr.total - r.count.processed) - if r.allowed then 0 else if r.valid then 1 else 2
  }

  predicate ReaderStalled(w: ReaderWorld, e: Env) {
    if w.r.allowed then e.c0Full else !w.r.valid && !Answers(w, e)
  }

  lemma ReaderProgress(w: ReaderWorld, e: Env, base: nat, total: nat)
    requires ReaderInv(w, base, total) && ReaderQuiet(e.wr)
    ensures CountsDown(ReaderLeft(w.r), ReaderLeft(ReaderCycle(w, e).r), ReaderStalled(w, e))
  {
  }

  ghost function ReaderStalls(ws: seq<ReaderWorld>, es: seq<Env>): (flags: seq<bool>)
    requires |es| <= |ws|
    ensures |flags| == |es|
  {
    seq(|es|, i requires 0 <= i < |es| => ReaderStalled(ws[i], es[i]))
  }

  /** The block is read exactly from the `3 * total`-th unstalled cycle after acceptance on. */
  lemma BlockDoneExactlyWhen(ws: seq<ReaderWorld>, es: seq<Env>, i: nat)
    requires ReaderRun(ws, es) && 1 <= i <= |es|
    ensures ReadsDone(ws[i].r) <==> Unstalled(ReaderStalls(ws, es), i) >= 3 * ws[0].r.csr.total
  {
    var base, total := ws[0].r.csr.readBuff, ws[0].r.csr.total;
    var left := seq(|ws|, k requires 0 <= k < |ws| => ReaderLeft(ws[k].r));
    ReaderRunInv(ws, es, 1);
    ReaderAccepts(ws[0], es[0], base, total);
    assert ws[1] == ReaderCycle(ws[0], es[0]);
    forall j, k | 1 <= j < k <= i && k == j + 1 ensures CountsDown(left[j], left[k], ReaderStalls(ws, es)[j]) {
      ReaderRunInv(ws, es, j);
      ReaderProgress(ws[j], es[j], base, total);
      assert ws[k] == ReaderCycle(ws[j], es[j]);
    }
    CountDown(left, ReaderStalls(ws, es), 3 * total, i);
    ReaderRunInv(ws, es, i);
    assert left[i] == ReaderLeft(ws[i].r);
  }
}
