/** A scan from raw values to result bits and back to a count: packing, the accelerator's run
    over all pages, what it leaves in memory, and the host's gathering of the result words. */
module ScanPipeline {
  import opened Bits
  import opened Filters
  import opened Partition
  import opened RoundTrip
  import opened Lines
  import opened Column
  import opened JobWrapper
  import opened ScanAfu
  import opened ScanSession
  import opened ScanSystem
  import opened ResultMemory
  import Compressor
  import Encoding

  // ---------------------------------------------------------------------------------------
  // The host's gathering loop

  ghost predicate SliceHolds<T>(all: seq<T>, at: nat, g: seq<T>) {
    at + |g| <= |all| && forall i :: 0 <= i < |g| ==> all[at + i] == g[i]
  }

  lemma SpliceKeepsSlice<T>(a: seq<T>, at: nat, b: seq<T>, lo: nat, g: seq<T>)
    requires at + |b| <= |a| && SliceHolds(a, lo, g) && lo + |g| <= at
    ensures SliceHolds(Splice(a, at, b), lo, g)
  {
  }

  lemma SpliceHolds<T>(a: seq<T>, at: nat, b: seq<T>)
    requires at + |b| <= |a|
    ensures SliceHolds(Splice(a, at, b), at, b)
  {
  }

  /** The words of a copy that lie in a slice of `len` words. */
  function InSlice<T>(g: seq<T>, len: nat): seq<T> { if |g| <= len then g else g[..len] }

  lemma SliceHoldsPart<T>(all: seq<T>, at: nat, g: seq<T>, len: nat)
    requires SliceHolds(all, at, g)
    ensures SliceHolds(all, at, InSlice(g, len))
  {
  }

  /** After the accelerator is through, every partition's result words are copied to its slice.
      No copy disturbs what belongs to another partition's slice, not even one that is longer than
      its own: what it leaves beyond is overwritten by the next. The copies must stay inside the
      array, which only the last could leave. */
  method GatherResults(job: JobWrapper, writeBuffers: seq<array<Word>>, totalCls: nat)
    requires Width(job.bitEncoding) && job.bitResult != null && totalCls <= 64
    requires job.numOfPartitions <= |writeBuffers|
    requires forall p :: 0 <= p < |writeBuffers| ==>
               writeBuffers[p] != job.bitResult && writeBuffers[p].Length == 512
    requires forall p :: 0 <= p < job.numOfPartitions ==>
               p * job.resBuffLen + |Gathered(writeBuffers[p][..], totalCls, job.bitEncoding)| <= job.bitResult.Length
    modifies job.bitResult
    ensures forall p :: 0 <= p < job.numOfPartitions ==>
              SliceHolds(job.bitResult[..], p * job.resBuffLen,
                         InSlice(Gathered(writeBuffers[p][..], totalCls, job.bitEncoding), job.resBuffLen))
  {
    hide Gathered, Splice, SliceHolds, InSlice;
    for buffId := 0 to job.numOfPartitions
      invariant forall p :: 0 <= p < buffId ==>
        SliceHolds(job.bitResult[..], p * job.resBuffLen,
                   InSlice(Gathered(writeBuffers[p][..], totalCls, job.bitEncoding), job.resBuffLen))
    {
      ghost var was := job.bitResult[..];
      ghost var g := Gathered(writeBuffers[buffId][..], totalCls, job.bitEncoding);
      job.CopyFPGAWriteBuffer(writeBuffers[buffId], buffId, totalCls);
      SpliceHolds(was, buffId * job.resBuffLen, g);
      SliceHoldsPart(job.bitResult[..], buffId * job.resBuffLen, g, job.resBuffLen);
      forall p | 0 <= p < buffId
        ensures SliceHolds(job.bitResult[..], p * job.resBuffLen,
                           InSlice(Gathered(writeBuffers[p][..], totalCls, job.bitEncoding), job.resBuffLen))
      {
        SliceInside(p, buffId, job.resBuffLen);
        ghost var mine := Gathered(writeBuffers[p][..], totalCls, job.bitEncoding);
        InSliceFits(mine, job.resBuffLen);
        SpliceKeepsSlice(was, buffId * job.resBuffLen, g, p * job.resBuffLen, InSlice(mine, job.resBuffLen));
      }
    }
  }

  lemma InSliceFits<T>(g: seq<T>, len: nat)
    ensures |InSlice(g, len)| <= len
  {
  }

  // ---------------------------------------------------------------------------------------
  // From result lines to result bits

  function LineIndex(w: nat, s: nat): nat
    requires Width(w)
  {
    if w == 4 then s / 128 else if w == 8 then s / 64 else if w == 16 then s / 32 else s / 16
  }

  function LaneIndex(w: nat, s: nat): (i: nat)
    requires Width(w)
    ensures i < Lanes(w)
  {
    if w == 4 then s % 128 else if w == 8 then s % 64 else if w == 16 then s % 32 else s % 16
  }

  /** The gathered bit of slot `s` is the comparison of the code packed in slot `s`. */
  lemma ResultBit(p: Pred, w: nat, words: seq<Word>, results: seq<Word>, cls: nat, s: nat)
    requires (w == 4 || w == 8) && |words| == 512 && |results| == 512 && cls <= 64 && LineIndex(w, s) < cls
    requires LineOf(results, LineIndex(w, s)) == WideFilter(p, w, LineOf(words, LineIndex(w, s)))
    ensures WordIndex(w, s) < 512 && Offset(w, Position(w, s)) + w <= WORD_BITS
    ensures s / 64 < |Gathered(results, cls, w)|
    ensures Gathered(results, cls, w)[s / 64][s % 64]
            == p.Holds(Val(words[WordIndex(w, s)][Offset(w, Position(w, s))..Offset(w, Position(w, s)) + w]))
  {
    hide LineOf, Gathered, WideFilter, Val, LineIndex, LaneIndex, Position, WordIndex, Offset;
    GatheredBit(w, results, cls, s);
    FilterBit(p, w, words, s);
  }

  lemma GatheredBit(w: nat, results: seq<Word>, cls: nat, s: nat)
    requires (w == 4 || w == 8) && |results| == 512 && cls <= 64 && LineIndex(w, s) < cls
    ensures s / 64 < |Gathered(results, cls, w)|
    ensures Gathered(results, cls, w)[s / 64][s % 64] == LineOf(results, LineIndex(w, s))[LaneIndex(w, s)]
  {
    hide LineOf, Gathered;
    var j, i := LineIndex(w, s), LaneIndex(w, s);
    var k := i / 64;
    GatheredWord(results, cls, w, j, k);
    LineWord(results, j, k);
    var line := LineOf(results, j);
    assert line[64 * k..64 * k + 64][s % 64] == line[64 * k + s % 64];
    assert 64 * k + s % 64 == i;
  }

  lemma FilterBit(p: Pred, w: nat, words: seq<Word>, s: nat)
    requires Width(w) && |words| == 512 && LineIndex(w, s) < 64
    ensures WordIndex(w, s) < 512 && Offset(w, Position(w, s)) + w <= WORD_BITS
    ensures WideFilter(p, w, LineOf(words, LineIndex(w, s)))[LaneIndex(w, s)]
            == p.Holds(Val(words[WordIndex(w, s)][Offset(w, Position(w, s))..Offset(w, Position(w, s)) + w]))
  {
    hide LineOf, Val, Field, Offset, Position, WordIndex, LineIndex, LaneIndex;
    SlotField(w, words, s);
  }

  lemma SlotField(w: nat, words: seq<Word>, s: nat)
    requires Width(w) && |words| == 512 && LineIndex(w, s) < 64
    ensures WordIndex(w, s) < 512 && Offset(w, Position(w, s)) + w <= WORD_BITS
    ensures LaneIndex(w, s) < LINE_BITS / w && (LaneIndex(w, s) + 1) * w <= LINE_BITS
    ensures Field(LineOf(words, LineIndex(w, s)), LaneIndex(w, s), w)
            == words[WordIndex(w, s)][Offset(w, Position(w, s))..Offset(w, Position(w, s)) + w]
  {
    hide LineOf, Field;
    var j, i := LineIndex(w, s), LaneIndex(w, s);
    SlotLane(w, j, i);
    LineField(words, w, j, i);
  }

  /** The page's slot `s` holds row `From + s`'s code. */
  lemma PageSlotCode(words: seq<Word>, codes: seq<nat>, w: nat, k: nat, s: nat)
    requires Width(w) && PageHolds(words, codes, w, k) && Fit(codes, w, 0, |codes|) && s < Taken(w, |codes|, k)
    ensures WordIndex(w, s) < |words| && Offset(w, Position(w, s)) + w <= WORD_BITS
    ensures Val(words[WordIndex(w, s)][Offset(w, Position(w, s))..Offset(w, Position(w, s)) + w])
            == codes[From(w, |codes|, k) + s]
  {
    hide Packed, ToBits;
    var mine, n := codes[From(w, |codes|, k)..], Taken(w, |codes|, k);
    var packed := Packed(mine, n, w);
    assert words == packed + words[|packed|..];
    SlotHolds(mine, n, w, words[|packed|..], s);
    ValFits(mine[s], w);
  }

  // ---------------------------------------------------------------------------------------
  // The whole scan

  /** Memory once the run's writes have been performed. */
  function Final(mem: Memory, s: Sys): Memory { a => After(mem, s.w.writes, a) }

  /** The predicate and width a configuration selects. */
  function Query(cfg: Config): (Pred, nat) {
    UnitPred(Ssb, Params(false, 0, 0, cfg.total, cfg.pred % 256, cfg.column), cfg.column)
  }

  /** `FilterPredicate` for equality and `<=`, `RangePredicate` (upper bound in the high
      nibble) for ranges: the accelerator evaluates what was asked. */
  lemma QueryMeaning(cfg: Config, lower: nat, upper: nat)
    requires lower < 16 && upper < 16
    ensures cfg.column == 0 && cfg.pred == lower ==> Query(cfg) == (Equals(lower), 4)
    ensures cfg.column == 1 && cfg.pred == Val(Or(ToBits(lower, 32), Shl(ToBits(upper, 32), 4))) ==>
              Query(cfg) == (Between(lower, upper), 4)
    ensures cfg.column == 2 && cfg.pred < 256 ==> Query(cfg) == (AtMost(cfg.pred), 8)
  {
    hide Or, Shl, Val, ToBits;
    RangePadded(lower, upper);
  }

  lemma RangePadded(lower: nat, upper: nat)
    requires lower < 16 && upper < 16
    ensures Val(Or(ToBits(lower, 32), Shl(ToBits(upper, 32), 4))) == 16 * upper + lower
  {
    hide Or, Shl, Val, ToBits, Zeros, Pow2;
    NibbleBound(lower);
    NibbleBound(upper);
    PackedWordIs32(lower, upper);
    ValZeroExtend(ToBits(lower, 4) + ToBits(upper, 4), 24);
    NibblesVal(lower, upper);
  }

  lemma NibbleBound(x: nat)
    requires x < 16
    ensures x < Pow2(4)
  {
  }

  lemma NibblesVal(lower: nat, upper: nat)
    requires lower < 16 && upper < 16
    ensures Val(ToBits(lower, 4) + ToBits(upper, 4)) == 16 * upper + lower
  {
    hide Val, ToBits, Pow2;
    NibbleBound(lower);
    NibbleBound(upper);
    ValFits(lower, 4);
    ValFits(upper, 4);
    ValConcat(ToBits(lower, 4), ToBits(upper, 4));
    assert Doubled(2, upper) == 2 * Doubled(1, upper) == 4 * upper;
    assert Doubled(4, upper) == 2 * Doubled(3, upper) == 4 * Doubled(2, upper);
  }

  lemma PackedWordIs32(lower: nat, upper: nat)
    requires lower < Pow2(4) && upper < Pow2(4)
    ensures Or(ToBits(lower, 32), Shl(ToBits(upper, 32), 4)) == ToBits(lower, 4) + ToBits(upper, 4) + Zeros(24)
  {
    hide ToBits;
    ToBitsPrefix(lower, 4, 32);
    ToBitsHigh(lower, 4, 32);
    ToBitsPrefix(upper, 4, 32);
    ToBitsHigh(upper, 4, 32);
    var l, u := ToBits(lower, 32), ToBits(upper, 32);
    assert l == l[..4] + l[4..] && u == u[..4] + u[4..];
    assert Shl(u, 4) == Zeros(4) + u[..4] + Zeros(24);
    OrAbove(l[..4], u[..4], 24);
  }

  function Doubled(times: nat, v: nat): nat { if times == 0 then v else 2 * Doubled(times - 1, v) }

  lemma {:induction false} ValConcat(a: Bits, b: Bits)
    ensures Val(a + b) == Val(a) + Doubled(|a|, Val(b))
  {
    if a == [] {
      assert a + b == b;
    } else {
      assert (a + b)[1..] == a[1..] + b;
      ValConcat(a[1..], b);
    }
  }

  /** A scan's inputs and outputs: the column, its pages as words and their buffers, by partition;
      the partitions in the order in which they are sent, which may be any; the memory before the
      run, and the result buffers and gathered words after it. */
  datatype Scan = Scan(
    cfg: Config, mem: Memory, codes: seq<nat>, bufs: seq<Page>, parts: seq<nat>,
    pages: seq<seq<Word>>, results: seq<seq<Word>>, bits: seq<Word>)

  /** The pages the host sends are buffers of partitions. */
  ghost predicate Sent(pages: seq<Page>, bufs: seq<Page>, parts: seq<nat>) {
    |pages| == |parts| && forall k :: 0 <= k < |parts| ==> parts[k] < |bufs| && pages[k] == bufs[parts[k]]
  }

  /** The result buffers are line-aligned, and different partitions' share no byte. */
  ghost predicate Separate(bufs: seq<Page>) {
    && (forall p :: 0 <= p < |bufs| ==> bufs[p].writeBuff % 64 == 0)
    && (forall g, k :: 0 <= g < k < |bufs| ==> Apart(bufs[g].writeBuff, bufs[k].writeBuff))
  }

  /** The column is packed into the pages, the pages are in memory, and the query is sent with
      the number of lines the host computes. */
  ghost predicate Loaded(x: Scan) {
    var (_, w) := Query(x.cfg);
    && ValidConfig(x.cfg) && x.cfg.total == TotalCls(w, |x.codes|) && Fit(x.codes, w, 0, |x.codes|)
    && |x.pages| == |x.bufs| && Sent(x.cfg.pages, x.bufs, x.parts) && Separate(x.bufs)
    && (forall p :: 0 <= p < |x.pages| ==> PageHolds(x.pages[p], x.codes, w, p))
    && (forall p :: 0 <= p < |x.pages| ==> Holds(x.mem, x.bufs[p].readBuff, x.pages[p]))
  }

  ghost predicate InItsSlice(bits: seq<Word>, result: seq<Word>, total: nat, w: nat, n: nat, k: nat)
    requires Width(w) && total <= 64
  {
    var len := ResBuffLen(w, n);
    |result| == 512 && SliceHolds(bits, k * len, InSlice(Gathered(result, total, w), len))
  }

  /** The result buffers after the run, and their words in the partitions' slices, as
      `GatherResults` leaves them. */
  ghost predicate Collected(x: Scan, s: Sys) {
    var (_, w) := Query(x.cfg);
    && x.cfg.total <= 64 && |x.results| == |x.bufs|
    && (forall p :: 0 <= p < |x.results| ==> Holds(Final(x.mem, s), x.bufs[p].writeBuff, x.results[p]))
    && (forall p :: 0 <= p < |x.results| ==> InItsSlice(x.bits, x.results[p], x.cfg.total, w, |x.codes|, p))
  }

  lemma QueryWidth(cfg: Config)
    requires ValidConfig(cfg)
    ensures Query(cfg).1 == 4 || Query(cfg).1 == 8
  {
  }

  /** Reading while writing: in every reachable state, a line outside the result buffers still
      holds what it held when the run began, so the reads may be taken from that memory. */
  lemma ReadsSeeInputs(cfg: Config, mem: Memory, ss: seq<Sys>, es: seq<SysEnv>, i: nat, a: nat)
    requires ValidConfig(cfg) && SysRun(cfg, mem, ss, es) && i < |ss|
    requires forall k, j :: 0 <= k < |cfg.pages| && 0 <= j < cfg.total ==>
               LineAddr(ClAddr(cfg.pages[k].writeBuff), j) != a
    ensures Final(mem, ss[i])(a) == mem(a)
  {
    hide LineAddr, ClAddr, Answer;
    RunInv(cfg, mem, ss, es, i);
    InvWritesInPlace(cfg, mem, ss[i]);
    UntouchedLine(mem, ss[i].w.attempts, a);
  }

  /** So an input buffer that shares no byte with a result buffer holds its words throughout. */
  lemma InputsStay(cfg: Config, mem: Memory, ss: seq<Sys>, es: seq<SysEnv>, i: nat, buff: nat, words: seq<Word>)
    requires ValidConfig(cfg) && cfg.total <= 64 && SysRun(cfg, mem, ss, es) && i < |ss| && Holds(mem, buff, words)
    requires forall k :: 0 <= k < |cfg.pages| ==>
               cfg.pages[k].writeBuff % 64 == 0 && Apart(cfg.pages[k].writeBuff, buff)
    ensures Holds(Final(mem, ss[i]), buff, words)
  {
    hide LineAddr, ClAddr, ByteOf, Apart, Final, SysRun;
    forall o | 0 <= o < 64 ensures Final(mem, ss[i])(LineAddr(ClAddr(buff), o)) == mem(LineAddr(ClAddr(buff), o)) {
      forall k, j | 0 <= k < |cfg.pages| && 0 <= j < cfg.total
        ensures LineAddr(ClAddr(cfg.pages[k].writeBuff), j) != LineAddr(ClAddr(buff), o)
      {
        ApartLines(cfg.pages[k].writeBuff, buff, j, o);
      }
      ReadsSeeInputs(cfg, mem, ss, es, i, LineAddr(ClAddr(buff), o));
    }
    HoldsStill(mem, Final(mem, ss[i]), buff, words);
  }

  /** A line the accelerator was not kept from writing is in the page's result buffer, also if the
      page is sent again. */
  lemma ResultLine(cfg: Config, mem: Memory, bufs: seq<Page>, parts: seq<nat>, s: Sys, k: nat, j: nat)
    requires ValidConfig(cfg) && Sent(cfg.pages, bufs, parts) && Separate(bufs)
    requires SysInv(cfg, mem, s) && s.host.Finished? && k < |cfg.pages| && j < cfg.total <= 64
    ensures k < |s.w.attempts| && j < |s.w.attempts[k]|
    ensures s.w.attempts[k][j].issued ==>
              Final(mem, s)(LineAddr(ClAddr(cfg.pages[k].writeBuff), j)) == Answer(mem, JobFor(cfg, k), j)
  {
    hide Answer;
    var groups: seq<seq<Attempt>> := s.w.attempts;
    assert PageDone(cfg, mem, s.w, k);
    InvWritesInPlace(cfg, mem, s);
    if groups[k][j].issued {
      var g, i := GroupLands(mem, groups, k, j);
      SamePlace(bufs, parts, cfg.pages, k, j, g, i);
    }
  }

  /** Only the same line of the same partition has the same place. */
  lemma SamePlace(bufs: seq<Page>, parts: seq<nat>, pages: seq<Page>, k: nat, j: nat, g: nat, i: nat)
    requires Sent(pages, bufs, parts) && Separate(bufs) && k < |pages| && g < |pages| && i < 64 && j < 64
    requires LineAddr(ClAddr(pages[k].writeBuff), j) == LineAddr(ClAddr(pages[g].writeBuff), i)
    ensures pages[k] == pages[g] && i == j
  {
    hide LineAddr, ClAddr;
    var p, q := parts[k], parts[g];
    if p < q {
      OtherPlace(bufs, p, q, j, i);
    } else if q < p {
      OtherPlace(bufs, q, p, i, j);
    } else if i < j {
      LinesOfABufferDiffer(ClAddr(pages[k].writeBuff), i, j);
    } else if j < i {
      LinesOfABufferDiffer(ClAddr(pages[k].writeBuff), j, i);
    }
  }

  lemma OtherPlace(bufs: seq<Page>, p: nat, q: nat, i: nat, j: nat)
    requires Separate(bufs) && p < q < |bufs| && i < 64 && j < 64
    ensures LineAddr(ClAddr(bufs[p].writeBuff), i) != LineAddr(ClAddr(bufs[q].writeBuff), j)
  {
    hide LineAddr, ClAddr, Apart;
    ApartLines(bufs[p].writeBuff, bufs[q].writeBuff, i, j);
  }

  ghost predicate NotBlocked(groups: seq<seq<Attempt>>, k: nat, j: nat) {
    k < |groups| && j < |groups[k]| && groups[k][j].issued
  }

  /** The write channel was not almost full when the `m`-th line completed. */
  ghost predicate FoundOpen(ss: seq<Sys>, es: seq<SysEnv>, i: nat, m: nat) {
    i < |ss| && i <= |es| && m < |SysOpenings(ss, es, i)| && SysOpenings(ss, es, i)[m]
  }

  lemma OpenIsNotBlocked(cfg: Config, mem: Memory, ss: seq<Sys>, es: seq<SysEnv>, i: nat, k: nat, j: nat)
    requires ValidConfig(cfg) && SysRun(cfg, mem, ss, es) && i < |ss| && ss[i].host.Finished?
    requires k < |cfg.pages| && j < cfg.total && FoundOpen(ss, es, i, k * cfg.total + j)
    ensures NotBlocked(ss[i].w.attempts, k, j)
  {
    hide SysRun, SysInv, SysOpenings;
    PageAnswered(cfg, mem, ss, es, i, k);
    IssuedExactlyWhen(cfg, mem, ss, es, i, k, j);
  }

  lemma PageAnswered(cfg: Config, mem: Memory, ss: seq<Sys>, es: seq<SysEnv>, i: nat, k: nat)
    requires ValidConfig(cfg) && SysRun(cfg, mem, ss, es) && i < |ss| && ss[i].host.Finished? && k < |cfg.pages|
    ensures k < |ss[i].w.attempts| && |ss[i].w.attempts[k]| == cfg.total
  {
    hide SysRun, SysInv, WritesInPlace;
    HandshakeIsSafe(cfg, mem, ss, es, i);
    assert PageDone(cfg, mem, ss[i].w, k);
  }

  /** Slot `s` of the partition sent as `k`-th holds a row, and the write channel was not almost full
      when the row's line completed. */
  ghost predicate RowSent(x: Scan, ss: seq<Sys>, es: seq<SysEnv>, i: nat, k: nat, s: nat) {
    var w := Query(x.cfg).1;
    && Width(w) && k < |x.parts| && s < Taken(w, |x.codes|, x.parts[k])
    && FoundOpen(ss, es, i, k * x.cfg.total + LineIndex(w, s))
  }

  /** The result bit of slot `s` of partition `p`. */
  ghost predicate RowBit(bits: seq<Word>, w: nat, n: nat, p: nat, s: nat, v: bool)
    requires Width(w)
  {
    var at := p * ResBuffLen(w, n) + s / 64;
    at < |bits| && bits[at][s % 64] == v
  }

  /** End to end: once the host is through, the bit of every row that was sent is the predicate on
      the row's code. */
  lemma EndToEndScan(x: Scan, ss: seq<Sys>, es: seq<SysEnv>, i: nat, k: nat, s: nat)
    requires Loaded(x) && SysRun(x.cfg, x.mem, ss, es) && i < |ss| && ss[i].host.Finished? && Collected(x, ss[i])
    requires RowSent(x, ss, es, i, k, s)
    ensures var ((p, w), part) := (Query(x.cfg), x.parts[k]);
            RowBit(x.bits, w, |x.codes|, part, s, p.Holds(x.codes[From(w, |x.codes|, part) + s]))
  {
    hide Gathered, LineOf, Final, SysRun, SysInv, WideFilter, PageHolds, Val, Query, Loaded, Collected, NotBlocked,
         LineIndex, Taken, From, TotalCls, ResBuffLen, FoundOpen, Position, WordIndex, Offset;
    var (p, w) := Query(x.cfg);
    LoadedWidth(x, ss[i], k);
    PageFacts(x, ss[i], x.parts[k], w);
    RunInv(x.cfg, x.mem, ss, es, i);
    SlotInsideLines(w, |x.codes|, x.parts[k], s);
    OpenIsNotBlocked(x.cfg, x.mem, ss, es, i, k, LineIndex(w, s));
    ResultLineIs(x, ss[i], k, LineIndex(w, s));
    ResultBit(p, w, x.pages[x.parts[k]], x.results[x.parts[k]], x.cfg.total, s);
    PageSlotCode(x.pages[x.parts[k]], x.codes, w, x.parts[k], s);
  }

  lemma LoadedWidth(x: Scan, s: Sys, k: nat)
    requires Loaded(x) && Collected(x, s) && k < |x.parts|
    ensures x.parts[k] < |x.results| == |x.pages| && k < |x.cfg.pages|
    ensures Query(x.cfg).1 == 4 || Query(x.cfg).1 == 8
  {
    QueryWidth(x.cfg);
  }

  /** What the assumptions say about partition `p`. */
  lemma PageFacts(x: Scan, s: Sys, p: nat, w: nat)
    requires Loaded(x) && Collected(x, s) && p < |x.pages| && w == Query(x.cfg).1
    requires p < |x.results| && (w == 4 || w == 8)
    ensures ValidConfig(x.cfg) && |x.pages| == |x.results| && x.cfg.total <= 64
    ensures Fit(x.codes, w, 0, |x.codes|) && x.cfg.total == TotalCls(w, |x.codes|)
    ensures PageHolds(x.pages[p], x.codes, w, p) && |x.pages[p]| == 512 == |x.results[p]|
    ensures InItsSlice(x.bits, x.results[p], x.cfg.total, w, |x.codes|, p)
  {
    hide Gathered, LineOf, Final, PageHolds, UnitPred, InItsSlice;
    assert Holds(x.mem, x.bufs[p].readBuff, x.pages[p]);
    assert Holds(Final(x.mem, s), x.bufs[p].writeBuff, x.results[p]);
  }

  /** A result line is the comparison of the partition's line. */
  lemma ResultLineIs(x: Scan, s: Sys, k: nat, j: nat)
    requires Loaded(x) && Collected(x, s) && SysInv(x.cfg, x.mem, s) && s.host.Finished?
    requires k < |x.parts| && j < x.cfg.total && NotBlocked(s.w.attempts, k, j)
    ensures var p := x.parts[k];
      && p < |x.results| == |x.pages| && |x.results[p]| == 512 == |x.pages[p]|
      && (Query(x.cfg).1 == 4 || Query(x.cfg).1 == 8)
      && LineOf(x.results[p], j) == WideFilter(Query(x.cfg).0, Query(x.cfg).1, LineOf(x.pages[p], j))
  {
    hide Gathered, LineOf, Final, WideFilter, PageHolds, SliceHolds;
    QueryWidth(x.cfg);
    ResultLine(x.cfg, x.mem, x.bufs, x.parts, s, k, j);
    HoldsLine(Final(x.mem, s), x.bufs[x.parts[k]].writeBuff, x.results[x.parts[k]], j);
    HoldsLine(x.mem, x.bufs[x.parts[k]].readBuff, x.pages[x.parts[k]], j);
  }

  /** The lines the host asks for contain every occupied slot of every page, and the slices
      every occupied slot's bit. */
  lemma SlotInsideLines(w: nat, n: nat, k: nat, s: nat)
    requires (w == 4 || w == 8) && s < Taken(w, n, k)
    ensures LineIndex(w, s) < TotalCls(w, n) <= 64 && s / 64 < ResBuffLen(w, n)
  {
  }

  // ---------------------------------------------------------------------------------------
  // Counting

  function Matching(p: Pred, codes: seq<nat>, lo: nat, hi: nat): nat
    requires lo <= hi <= |codes|
    decreases hi
  {
    if hi == lo then 0 else Matching(p, codes, lo, hi - 1) + if p.Holds(codes[hi - 1]) then 1 else 0
  }

  lemma {:induction false} MatchingSplit(p: Pred, codes: seq<nat>, lo: nat, mid: nat, hi: nat)
    requires lo <= mid <= hi <= |codes|
    ensures Matching(p, codes, lo, hi) == Matching(p, codes, lo, mid) + Matching(p, codes, mid, hi)
    decreases hi
  {
    if mid < hi { MatchingSplit(p, codes, lo, mid, hi - 1); }
  }

  /** A stretch of result bits has as many ones as its rows have matches. */
  lemma {:induction false} PopCountMatches(p: Pred, codes: seq<nat>, b: Bits, lo: nat)
    requires lo + |b| <= |codes| && forall i :: 0 <= i < |b| ==> b[i] == p.Holds(codes[lo + i])
    ensures PopCount(b) == Matching(p, codes, lo, lo + |b|)
  {
    if b != [] {
      var n := |b| - 1;
      PopCountMatches(p, codes, b[..n], lo);
      PopCountConcat(b[..n], [b[n]]);
      assert b == b[..n] + [b[n]];
    }
  }

  lemma {:induction false} TotalMatches(p: Pred, codes: seq<nat>, words: seq<Word>)
    requires 64 * |words| <= |codes|
    requires forall q, b :: 0 <= q < |words| && 0 <= b < 64 ==> words[q][b] == p.Holds(codes[64 * q + b])
    ensures TotalCount(words) == Matching(p, codes, 0, 64 * |words|)
  {
    hide PopCount, Matching;
    if words == [] {
      assert Matching(p, codes, 0, 0) == 0 by { NoMatches(p, codes); }
    } else {
      var q := |words| - 1;
      TotalMatches(p, codes, words[..q]);
      PopCountMatches(p, codes, words[q], 64 * q);
      MatchingSplit(p, codes, 0, 64 * q, 64 * q + 64);
    }
  }

  lemma NoMatches(p: Pred, codes: seq<nat>)
    ensures Matching(p, codes, 0, 0) == 0
  {
  }

  /** The write channel is never almost full when a line completes. */
  ghost predicate ChannelOpen(ss: seq<Sys>, es: seq<SysEnv>, i: nat) {
    i < |ss| && i <= |es| && forall l :: 0 <= l < i && Completing(Ssb, ss[l].w.r) ==> !es[l].c1Full
  }

  lemma {:induction false} AllFoundOpen(ss: seq<Sys>, es: seq<SysEnv>, i: nat)
    requires ChannelOpen(ss, es, i)
    ensures forall m :: 0 <= m < |SysOpenings(ss, es, i)| ==> SysOpenings(ss, es, i)[m]
  {
    if i > 0 { AllFoundOpen(ss, es, i - 1); }
  }

  /** Then every line is issued, once. */
  lemma NoFullNoBlock(cfg: Config, mem: Memory, ss: seq<Sys>, es: seq<SysEnv>, i: nat)
    requires ValidConfig(cfg) && SysRun(cfg, mem, ss, es) && i < |ss| && ChannelOpen(ss, es, i)
    ensures NoneBlocked(ss[i].w.attempts)
  {
    hide SysRun, ChannelOpen, SysOpenings;
    AllFoundOpen(ss, es, i);
    forall k, j | 0 <= k < |ss[i].w.attempts| && 0 <= j < |ss[i].w.attempts[k]|
      ensures ss[i].w.attempts[k][j].issued
    {
      IssuedExactlyWhen(cfg, mem, ss, es, i, k, j);
    }
  }

  /** Word `q` of the collected bits, by partition and slot. */
  lemma FullPageBit(x: Scan, ss: seq<Sys>, es: seq<SysEnv>, i: nat, parts: nat, q: nat, b: nat)
    requires Loaded(x) && SysRun(x.cfg, x.mem, ss, es) && i < |ss| && ss[i].host.Finished? && Collected(x, ss[i])
    requires ChannelOpen(ss, es, i) && (forall p :: 0 <= p < parts ==> p in x.parts) && b < 64
    requires PageStart(Query(x.cfg).1, parts) <= |x.codes| && 64 * q < PageStart(Query(x.cfg).1, parts)
    ensures q < |x.bits| && 64 * q + b < |x.codes|
    ensures x.bits[q][b] == Query(x.cfg).0.Holds(x.codes[64 * q + b])
  {
    hide PageHolds, SysRun, Query, Loaded, Collected, ChannelOpen, FoundOpen;
    var (p, w) := Query(x.cfg);
    QueryIsScan(x);
    var part, s := FullSlot(w, |x.codes|, parts, q, b);
    assert part in x.parts;
    var k :| 0 <= k < |x.parts| && x.parts[k] == part;
    SlotInsideLines(w, |x.codes|, part, s);
    LineFoundOpen(x, ss, es, i, k, LineIndex(w, s));
    EndToEndScan(x, ss, es, i, k, s);
  }

  /** Page and slot of bit `b` of word `q`, as long as the pages are full. */
  lemma FullSlot(w: nat, n: nat, parts: nat, q: nat, b: nat) returns (k: nat, s: nat)
    requires (w == 4 || w == 8) && PageStart(w, parts) <= n && 64 * q < PageStart(w, parts) && b < 64
    ensures k < parts && s < Taken(w, n, k) && From(w, n, k) + s == 64 * q + b < n
    ensures k * ResBuffLen(w, n) + s / 64 == q && s % 64 == b
  {
    if w == 4 {
      k, s := q / 128, 64 * (q % 128) + b;
      assert ResBuffLen(w, n) == 128;
    } else {
      k, s := q / 64, 64 * (q % 64) + b;
      assert ResBuffLen(w, n) == 64;
    }
  }

  lemma LineFoundOpen(x: Scan, ss: seq<Sys>, es: seq<SysEnv>, i: nat, k: nat, j: nat)
    requires Loaded(x) && SysRun(x.cfg, x.mem, ss, es) && i < |ss| && ss[i].host.Finished? && ChannelOpen(ss, es, i)
    requires k < |x.parts| && j < x.cfg.total
    ensures FoundOpen(ss, es, i, k * x.cfg.total + j)
  {
    hide SysRun, PageHolds, Holds, Fit, Separate, SysOpenings;
    PageAnswered(x.cfg, x.mem, ss, es, i, k);
    IssuedExactlyWhen(x.cfg, x.mem, ss, es, i, k, j);
    AllFoundOpen(ss, es, i);
  }

  /** When the counted partitions are full and were sent, and the write channel was never almost
      full when a line completed, `countBitResults` returns the number of their rows that qualify. */
  lemma CountIsMatching(x: Scan, ss: seq<Sys>, es: seq<SysEnv>, i: nat, parts: nat)
    requires Loaded(x) && SysRun(x.cfg, x.mem, ss, es) && i < |ss| && ss[i].host.Finished? && Collected(x, ss[i])
    requires ChannelOpen(ss, es, i) && forall p :: 0 <= p < parts ==> p in x.parts
    requires PageStart(Query(x.cfg).1, parts) <= |x.codes|
    ensures var (p, w) := Query(x.cfg); var words := parts * ResBuffLen(w, |x.codes|);
            words <= |x.bits| && TotalCount(x.bits[..words]) == Matching(p, x.codes, 0, PageStart(w, parts))
  {
    hide Holds, PageHolds, SliceHolds, SysRun, SysInv, UnitPred, Final, Gathered, Matching, Loaded, Collected,
         ChannelOpen;
    var (p, w) := Query(x.cfg);
    FullWidth(x, parts);
    QueryIsScan(x);
    var words := parts * ResBuffLen(w, |x.codes|);
    forall q, b | 0 <= q < words && 0 <= b < 64
      ensures q < |x.bits| && 64 * q + b < |x.codes| && x.bits[q][b] == p.Holds(x.codes[64 * q + b])
    {
      FullPageBit(x, ss, es, i, parts, q, b);
    }
    if words > 0 { assert words - 1 < |x.bits| by { FullPageBit(x, ss, es, i, parts, words - 1, 0); } }
    TotalMatches(p, x.codes, x.bits[..words]);
  }

  lemma QueryIsScan(x: Scan)
    requires Loaded(x)
    ensures (Query(x.cfg).1 == 4 || Query(x.cfg).1 == 8) && ValidConfig(x.cfg)
    ensures x.cfg.total == TotalCls(Query(x.cfg).1, |x.codes|)
  {
    QueryWidth(x.cfg);
  }

  lemma FullWidth(x: Scan, parts: nat)
    requires Loaded(x) && PageStart(Query(x.cfg).1, parts) <= |x.codes|
    ensures 64 * (parts * ResBuffLen(Query(x.cfg).1, |x.codes|)) == PageStart(Query(x.cfg).1, parts)
  {
    QueryWidth(x.cfg);
    var w := Query(x.cfg).1;
    if parts > 0 {
      assert |x.codes| >= PageSlots(w);
      assert parts * ResBuffLen(w, |x.codes|) == if w == 4 then 128 * parts else 64 * parts;
    }
  }

  // ---------------------------------------------------------------------------------------
  // From raw values

  /** With order-preserving codes the accelerator's comparisons mean the same on raw values. */
  lemma RawMeaning<K(!new)>(less: (K, K) -> bool, keys: set<K>, v: K, lo: K, hi: K)
    requires Compressor.StrictTotalOrder(less) && v in keys && lo in keys && hi in keys
    ensures Equals(Compressor.Rank(less, keys, lo)).Holds(Compressor.Rank(less, keys, v)) <==> v == lo
    ensures AtMost(Compressor.Rank(less, keys, hi)).Holds(Compressor.Rank(less, keys, v)) <==> !less(hi, v)
    ensures AtLeast(Compressor.Rank(less, keys, lo)).Holds(Compressor.Rank(less, keys, v)) <==> !less(v, lo)
    ensures Between(Compressor.Rank(less, keys, lo), Compressor.Rank(less, keys, hi))
              .Holds(Compressor.Rank(less, keys, v))
            <==> !less(v, lo) && !less(hi, v)
  {
    Compressor.RankIsMonotone(less, keys, v, lo);
    Compressor.RankIsMonotone(less, keys, hi, v);
    Compressor.RankIsMonotone(less, keys, lo, v);
  }

  /** A selection on raw values, and what it asks of a value. */
  datatype RawQuery<K> = Is(v: K) | Within(lo: K, hi: K) | UpTo(hi: K)

  ghost predicate RawHolds<K(!new)>(less: (K, K) -> bool, q: RawQuery<K>, v: K) {
    match q
    case Is(x) => v == x
    case Within(lo, hi) => !less(v, lo) && !less(hi, v)
    case UpTo(hi) => !less(hi, v)
  }

  /** The configuration that a selection by values of the dictionary leads to. */
  ghost predicate Sends<K(!new)>(cfg: Config, less: (K, K) -> bool, keys: set<K>, q: RawQuery<K>) {
    match q
    case Is(x) =>
      && x in keys && Compressor.Rank(less, keys, x) < 16
      && cfg.column == 0 && cfg.pred == Compressor.Rank(less, keys, x)
    case Within(lo, hi) =>
      var l, h := Compressor.Rank(less, keys, lo), Compressor.Rank(less, keys, hi);
      && lo in keys && hi in keys && l < 16 && h < 16 && cfg.column == 1
      && cfg.pred == Val(Or(ToBits(l, 32), Shl(ToBits(h, 32), 4)))
    case UpTo(hi) =>
      && hi in keys && Compressor.Rank(less, keys, hi) < 256
      && cfg.column == 2 && cfg.pred == Compressor.Rank(less, keys, hi)
  }

  lemma SentMeaning<K(!new)>(cfg: Config, less: (K, K) -> bool, keys: set<K>, q: RawQuery<K>, v: K)
    requires Compressor.StrictTotalOrder(less) && Sends(cfg, less, keys, q) && v in keys
    ensures Query(cfg).0.Holds(Compressor.Rank(less, keys, v)) <==> RawHolds(less, q, v)
  {
    hide Val, Or, Shl, ToBits, UnitPred, Compressor.StrictTotalOrder, Compressor.Rank;
    match q {
      case Is(x) =>
        QueryMeaning(cfg, cfg.pred, 0);
        RawMeaning(less, keys, v, x, x);
      case Within(lo, hi) =>
        QueryMeaning(cfg, Compressor.Rank(less, keys, lo), Compressor.Rank(less, keys, hi));
        RawMeaning(less, keys, v, lo, hi);
      case UpTo(hi) =>
        QueryMeaning(cfg, 0, 0);
        RawMeaning(less, keys, v, hi, hi);
    }
  }

  /** The whole way: a column of raw values, encoded by rank and packed, and a selection by raw
      values; after any run the bit of a row says whether its raw value qualifies. */
  lemma EndToEndRaw<K(!new)>(x: Scan, ss: seq<Sys>, es: seq<SysEnv>, i: nat, k: nat, s: nat,
                             less: (K, K) -> bool, values: seq<K>, q: RawQuery<K>)
    requires Loaded(x) && SysRun(x.cfg, x.mem, ss, es) && i < |ss| && ss[i].host.Finished? && Collected(x, ss[i])
    requires RowSent(x, ss, es, i, k, s)
    requires Compressor.StrictTotalOrder(less) && Sends(x.cfg, less, Compressor.Keys(values), q)
    requires Encoding.Encodes(x.codes, less, values)
    ensures var (w, part) := (Query(x.cfg).1, x.parts[k]);
            RowBit(x.bits, w, |x.codes|, part, s, RawHolds(less, q, values[From(w, |x.codes|, part) + s]))
  {
    hide Loaded, Collected, SysRun, Query, Sends, RawHolds, Compressor.Rank, Compressor.StrictTotalOrder, FoundOpen;
    QueryIsScan(x);
    EndToEndScan(x, ss, es, i, k, s);
    SentMeaning(x.cfg, less, Compressor.Keys(values), q, values[From(Query(x.cfg).1, |x.codes|, x.parts[k]) + s]);
  }
}
