/** A semi-join from the bitmap and the packed foreign keys to the merged result words. */
module JoinPipeline {
  import opened Bits
  import opened Filters
  import opened RoundTrip
  import opened Lines
  import opened Column
  import opened JobWrapper
  import opened ScanAfu
  import opened ScanSession
  import opened JoinAfu
  import opened JoinSession
  import opened JoinSystem
  import opened ResultMemory
  import opened ScanPipeline

  /** A result buffer read as 32-bit values, byte by byte. */
  ghost predicate HoldsHalves(mem: Memory, buff: nat, halves: seq<Half>) {
    && |halves| == 1024 && buff % 64 == 0
    && forall o :: 0 <= o < 4096 ==> ByteAt(mem, ByteOf(buff, o)) == halves[o / 4][8 * (o % 4)..8 * (o % 4) + 8]
  }

  /** The first value of each line is the line's low half word. */
  lemma FirstHalf(mem: Memory, buff: nat, halves: seq<Half>, j: nat)
    requires HoldsHalves(mem, buff, halves) && j < 64
    ensures halves[16 * j] == mem(LineAddr(ClAddr(buff), j))[..32]
  {
    hide LineAddr, ClAddr, ByteOf, ByteAt;
    var line := mem(LineAddr(ClAddr(buff), j));
    forall i | 0 <= i < 32 ensures halves[16 * j][i] == line[i] {
      var t := i / 8;
      HalfByte(mem, buff, halves, j, t);
      assert line[8 * t..8 * t + 8][i % 8] == halves[16 * j][8 * t..8 * t + 8][i % 8];
    }
  }

  lemma HalfByte(mem: Memory, buff: nat, halves: seq<Half>, j: nat, t: nat)
    requires HoldsHalves(mem, buff, halves) && j < 64 && t < 4
    ensures mem(LineAddr(ClAddr(buff), j))[8 * t..8 * t + 8] == halves[16 * j][8 * t..8 * t + 8]
  {
    hide LineAddr, ClAddr, ByteOf;
    var o := 64 * j + t;
    LineOfByte(buff, o);
    assert o / 64 == j && o % 64 == t && o / 4 == 16 * j && o % 4 == t;
  }

  /** A join's inputs and outputs; `bitMap` is the bitmap's buffer as words, `size` its bits. As for
      a scan, pages and results go by partition, and `parts` is the order of sending. */
  datatype Join = Join(
    cfg: JoinConfig, mem: Memory, bitMap: seq<Word>, size: nat, keys: seq<nat>, bufs: seq<ScanSystem.Page>,
    parts: seq<nat>, pages: seq<seq<Word>>, results: seq<seq<Half>>, bits: seq<Word>)

  /** The bitmap and the packed keys are in memory, every key is a bitmap position, and the
      bitmap has at most the register file's size. */
  ghost predicate JoinLoaded(x: Join) {
    && x.cfg.mapLines == MapLines(x.size) && x.size <= 2560 && Holds(x.mem, x.cfg.mapBuff, x.bitMap)
    && (forall r :: 0 <= r < |x.keys| ==> x.keys[r] < x.size)
    && |x.pages| == |x.bufs| && Sent(x.cfg.pages, x.bufs, x.parts) && Separate(x.bufs)
    && (forall p :: 0 <= p < |x.pages| ==> PageHolds(x.pages[p], x.keys, KEY_BITS, p))
    && (forall p :: 0 <= p < |x.pages| ==> Holds(x.mem, x.bufs[p].readBuff, x.pages[p]))
  }

  ghost predicate MergedInto(bits: seq<Word>, k: nat, len: nat, halves: seq<Half>) {
    |halves| == 1024 && len <= 32 && SliceHolds(bits, k * len, Merged(halves, len))
  }

  function JoinFinal(mem: Memory, s: JoinSys): Memory { a => After(mem, s.w.writes, a) }

  /** The result buffers after the run, merged into the partitions' slices. */
  ghost predicate JoinCollected(x: Join, s: JoinSys) {
    && |x.results| == |x.bufs|
    && (forall p :: 0 <= p < |x.results| ==> HoldsHalves(JoinFinal(x.mem, s), x.bufs[p].writeBuff, x.results[p]))
    && (forall p :: 0 <= p < |x.results| ==> MergedInto(x.bits, p, ResBuffLen(KEY_BITS, |x.keys|), x.results[p]))
  }

  function MapBit(words: seq<Word>, b: nat): bool
    requires b / 64 < |words|
  {
    words[b / 64][b % 64]
  }

  /** The register file after the bitmap phase holds the bitmap, whatever it held before. */
  lemma LoadedMap(x: Join, initial: BitMap, b: nat)
    requires JoinLoaded(x) && b < x.size
    ensures b / 64 < |x.bitMap| && TheMap(x.cfg, x.mem, initial)[b] == MapBit(x.bitMap, b)
  {
    hide LineOf;
    var j, o := b / 512, b % 512;
    LoadedBit(x.mem, MapJob(x.cfg, initial), x.cfg.mapLines, j, o);
    HoldsLine(x.mem, x.cfg.mapBuff, x.bitMap, j);
    LineWord(x.bitMap, j, o / 64);
    var line := LineOf(x.bitMap, j);
    assert line[64 * (o / 64)..64 * (o / 64) + 64][o % 64] == line[o];
    assert b / 64 == 8 * j + o / 64 && b % 64 == o % 64;
  }

  /** Slot `s` of a page of keys, as the accelerator selects it from its line. */
  lemma KeyOfSlot(words: seq<Word>, keys: seq<nat>, k: nat, s: nat)
    requires PageHolds(words, keys, KEY_BITS, k) && Fit(keys, KEY_BITS, 0, |keys|) && |words| == 512
    requires s < Taken(KEY_BITS, |keys|, k)
    ensures s / 32 < 64 && Key(LineOf(words, s / 32), s % 32) == keys[From(KEY_BITS, |keys|, k) + s]
  {
    hide LineOf, PageHolds, Val, Field;
    SlotField(KEY_BITS, words, s);
    PageSlotCode(words, keys, KEY_BITS, k, s);
  }

  /** Reading while writing: in every reachable state, a line outside the result buffers still
      holds what it held when the run began. */
  lemma JoinReadsSeeInputs(cfg: JoinConfig, mem: Memory, ss: seq<JoinSys>, es: seq<JoinSysEnv>, i: nat, a: nat)
    requires ValidJoin(cfg) && JoinSysRun(cfg, mem, ss, es) && i < |ss|
    requires forall k, j :: 0 <= k < |cfg.pages| && 0 <= j < KEY_LINES ==>
               LineAddr(ClAddr(cfg.pages[k].writeBuff), j) != a
    ensures JoinFinal(mem, ss[i])(a) == mem(a)
  {
    hide LineAddr, ClAddr, Answers, TheMap;
    JoinIsSafe(cfg, mem, ss, es, i);
    var groups: seq<seq<Attempt>> := ss[i].w.attempts;
    forall k, j | 0 <= k < |groups| && 0 <= j < |groups[k]| ensures groups[k][j].addr != a {
      var job := GroupJob(cfg, mem, ss[0].w.r.look.bitMap, k);
      assert GroupInPlace(mem, job, ss[i].w.fetched[k], groups[k]);
      assert ProbeAttempt(mem, job, j, groups[k][j]);
    }
    UntouchedLine(mem, groups, a);
  }

  /** So an input buffer that shares no byte with a result buffer holds its words throughout. */
  lemma JoinInputsStay(cfg: JoinConfig, mem: Memory, ss: seq<JoinSys>, es: seq<JoinSysEnv>, i: nat,
                       buff: nat, words: seq<Word>)
    requires ValidJoin(cfg) && JoinSysRun(cfg, mem, ss, es) && i < |ss| && Holds(mem, buff, words)
    requires forall k :: 0 <= k < |cfg.pages| ==>
               cfg.pages[k].writeBuff % 64 == 0 && Apart(cfg.pages[k].writeBuff, buff)
    ensures Holds(JoinFinal(mem, ss[i]), buff, words)
  {
    hide LineAddr, ClAddr, ByteOf, Apart, JoinFinal, JoinSysRun;
    forall o | 0 <= o < 64
      ensures JoinFinal(mem, ss[i])(LineAddr(ClAddr(buff), o)) == mem(LineAddr(ClAddr(buff), o))
    {
      forall k, j | 0 <= k < |cfg.pages| && 0 <= j < KEY_LINES
        ensures LineAddr(ClAddr(cfg.pages[k].writeBuff), j) != LineAddr(ClAddr(buff), o)
      {
        ApartLines(cfg.pages[k].writeBuff, buff, j, o);
      }
      JoinReadsSeeInputs(cfg, mem, ss, es, i, LineAddr(ClAddr(buff), o));
    }
    HoldsStill(mem, JoinFinal(mem, ss[i]), buff, words);
  }

  /** An answered line that was not blocked, or an answer to the same page sent again, is in the
      page's result buffer. */
  lemma JoinResultLine(x: Join, initial: BitMap, s: JoinSys, k: nat, j: nat)
    requires JoinLoaded(x) && k < |x.cfg.pages| && j < 64 && NotBlocked(s.w.attempts, k + 1, j)
    requires s.w.writes == AllIssued(s.w.attempts) && |s.w.attempts| == |x.cfg.pages| + 1
    requires JoinPagesDone(x.cfg, x.mem, initial, s.w.fetched, s.w.attempts, |x.cfg.pages|)
    ensures var job := KeysJob(x.cfg, x.mem, initial, k);
            Answers(job.bits, x.mem(LineAddr(job.base, j)), JoinFinal(x.mem, s)(LineAddr(job.dest, j)))
  {
    hide Holds, PageHolds, Answers, TheMap;
    var groups: seq<seq<Attempt>> := s.w.attempts;
    var job := KeysJob(x.cfg, x.mem, initial, k);
    assert KeysDone(x.cfg, x.mem, initial, s.w.fetched, groups, k);
    assert ProbeAttempt(x.mem, job, j, groups[k + 1][j]);
    var g, i := GroupLands(x.mem, groups, k + 1, j);
    assert KeysDone(x.cfg, x.mem, initial, s.w.fetched, groups, g - 1);
    assert ProbeAttempt(x.mem, KeysJob(x.cfg, x.mem, initial, g - 1), i, groups[g][i]);
    SamePlace(x.bufs, x.parts, x.cfg.pages, k, j, g - 1, i);
  }

  /** The write channel was not almost full when the `m`-th line of keys completed. */
  ghost predicate JoinFoundOpen(ss: seq<JoinSys>, es: seq<JoinSysEnv>, i: nat, m: nat) {
    i < |ss| && i <= |es| && m < |JoinOpenings(ss, es, i)| && JoinOpenings(ss, es, i)[m]
  }

  lemma OpenKeysNotBlocked(cfg: JoinConfig, mem: Memory, ss: seq<JoinSys>, es: seq<JoinSysEnv>, i: nat, k: nat, j: nat)
    requires ValidJoin(cfg) && JoinSysRun(cfg, mem, ss, es) && i < |ss| && ss[i].host.Through?
    requires k < |cfg.pages| && j < KEY_LINES && JoinFoundOpen(ss, es, i, k * KEY_LINES + j)
    ensures NotBlocked(ss[i].w.attempts, k + 1, j)
  {
    hide JoinOpenings, JoinSysRun, LinesRead, ProbeAttempt, TheMap;
    JoinIsSafe(cfg, mem, ss, es, i);
    assert KeysDone(cfg, mem, ss[0].w.r.look.bitMap, ss[i].w.fetched, ss[i].w.attempts, k);
    KeysIssuedExactlyWhen(cfg, mem, ss, es, i, k, j);
  }

  /** The write channel is never almost full when a line of keys completes; then every line of
      answers is issued, once. */
  ghost predicate JoinChannelOpen(ss: seq<JoinSys>, es: seq<JoinSysEnv>, i: nat) {
    i < |ss| && i <= |es| && forall l :: 0 <= l < i && Emitting(ss[l].w.r) ==> !es[l].sys.c1Full
  }

  lemma {:induction false} AllKeysFoundOpen(ss: seq<JoinSys>, es: seq<JoinSysEnv>, i: nat)
    requires JoinChannelOpen(ss, es, i)
    ensures forall m :: 0 <= m < |JoinOpenings(ss, es, i)| ==> JoinOpenings(ss, es, i)[m]
  {
    if i > 0 { AllKeysFoundOpen(ss, es, i - 1); }
  }

  lemma NoFullNoJoinBlock(cfg: JoinConfig, mem: Memory, ss: seq<JoinSys>, es: seq<JoinSysEnv>, i: nat)
    requires ValidJoin(cfg) && JoinSysRun(cfg, mem, ss, es) && i < |ss| && JoinChannelOpen(ss, es, i)
    ensures NoneBlocked(ss[i].w.attempts)
  {
    hide JoinSysRun, JoinChannelOpen, JoinOpenings, ProbeAttempt, TheMap;
    AllKeysFoundOpen(ss, es, i);
    JoinIsSafe(cfg, mem, ss, es, i);
    forall k, j | 0 <= k < |ss[i].w.attempts| && 0 <= j < |ss[i].w.attempts[k]|
      ensures ss[i].w.attempts[k][j].issued
    {
      assert GroupInPlace(mem, GroupJob(cfg, mem, ss[0].w.r.look.bitMap, k), ss[i].w.fetched[k], ss[i].w.attempts[k]);
      KeysIssuedExactlyWhen(cfg, mem, ss, es, i, k - 1, j);
    }
  }

  /** The merged word has slot `s`'s answer at bit `s % 64`. */
  lemma MergedBit(halves: seq<Half>, len: nat, s: nat)
    requires |halves| == 1024 && len <= 32 && s / 64 < len
    ensures Merged(halves, len)[s / 64][s % 64] == halves[16 * (s / 32)][s % 32]
  {
    var q := s / 64;
    assert Merged(halves, len)[q] == Joined(halves[32 * q], halves[32 * q + 16]);
    if s % 64 < 32 {
      assert s / 32 == 2 * q && s % 32 == s % 64;
    } else {
      assert s / 32 == 2 * q + 1 && s % 32 == s % 64 - 32;
    }
  }

  /** Slot `s` of the partition sent as `k`-th holds a row, and the write channel was not almost full
      when the row's line completed. */
  ghost predicate KeySent(x: Join, ss: seq<JoinSys>, es: seq<JoinSysEnv>, i: nat, k: nat, s: nat) {
    && k < |x.parts| && s < Taken(KEY_BITS, |x.keys|, x.parts[k])
    && JoinFoundOpen(ss, es, i, k * KEY_LINES + s / 32)
  }

  /** End to end: once the host is through, the bit of every row that was sent is the bitmap's bit
      at the row's foreign key. */
  lemma EndToEndJoin(x: Join, ss: seq<JoinSys>, es: seq<JoinSysEnv>, i: nat, k: nat, s: nat)
    requires JoinLoaded(x) && JoinSysRun(x.cfg, x.mem, ss, es) && i < |ss| && ss[i].host.Through?
    requires JoinCollected(x, ss[i]) && KeySent(x, ss, es, i, k, s)
    ensures var p := x.parts[k]; var key := x.keys[From(KEY_BITS, |x.keys|, p) + s];
            key / 64 < |x.bitMap| && RowBit(x.bits, KEY_BITS, |x.keys|, p, s, MapBit(x.bitMap, key))
  {
    hide JoinFoundOpen, Merged, JoinFinal, LineOf, PageHolds, TheMap, JoinPagesDone, JoinSysRun, MapBit,
         JoinTrafficInPlace, PollIsOwn, JoinIdle, JoinLoaded, JoinCollected, Answers, NotBlocked, From, Taken,
         ResBuffLen, LineAddr, ClAddr, Key;
    var initial, p := ss[0].w.r.look.bitMap, x.parts[k];
    JoinPageFacts(x, ss[i], k, p, s);
    JoinIsSafe(x.cfg, x.mem, ss, es, i);
    OpenKeysNotBlocked(x.cfg, x.mem, ss, es, i, k, s / 32);
    WritesAreAllIssued(x.cfg, x.mem, initial, ss[i].w);
    JoinResultLine(x, initial, ss[i], k, s / 32);
    KeyOfSlot(x.pages[p], x.keys, p, s);
    LoadedMap(x, initial, x.keys[From(KEY_BITS, |x.keys|, p) + s]);
    MergedBit(x.results[p], ResBuffLen(KEY_BITS, |x.keys|), s);
    AnswerAt(TheMap(x.cfg, x.mem, initial), LineOf(x.pages[p], s / 32),
             JoinFinal(x.mem, ss[i])(LineAddr(ClAddr(x.cfg.pages[k].writeBuff), s / 32)), s % 32);
  }

  lemma AnswerAt(b: BitMap, line: Line, r: Line, lane: nat)
    requires Answers(b, line, r) && lane < KEYS_PER_LINE && Key(line, lane) < MAP_BITS
    ensures r[..32][lane] == b[Key(line, lane)]
  {
  }

  lemma WritesAreAllIssued(cfg: JoinConfig, mem: Memory, bits: BitMap, w: JoinWorld)
    requires JoinTrafficInPlace(cfg, mem, bits, w)
    ensures w.writes == AllIssued(w.attempts)
  {
  }

  /** What the assumptions say about slot `slot` of partition `p`, the `k`-th sent. */
  lemma JoinPageFacts(x: Join, s: JoinSys, k: nat, p: nat, slot: nat)
    requires JoinLoaded(x) && JoinCollected(x, s) && k < |x.parts| && p == x.parts[k]
    requires slot < Taken(KEY_BITS, |x.keys|, p)
    ensures ValidJoin(x.cfg) && k < |x.cfg.pages| && p < |x.pages| == |x.results| && |x.pages[p]| == 512
    ensures Fit(x.keys, KEY_BITS, 0, |x.keys|) && PageHolds(x.pages[p], x.keys, KEY_BITS, p)
    ensures From(KEY_BITS, |x.keys|, p) + slot < |x.keys|
    ensures x.keys[From(KEY_BITS, |x.keys|, p) + slot] < x.size <= MAP_BITS
    ensures slot / 64 < ResBuffLen(KEY_BITS, |x.keys|) <= 32 && slot / 32 < 64
    ensures MergedInto(x.bits, p, ResBuffLen(KEY_BITS, |x.keys|), x.results[p])
    ensures x.mem(LineAddr(ClAddr(x.cfg.pages[k].readBuff), slot / 32)) == LineOf(x.pages[p], slot / 32)
    ensures x.results[p][16 * (slot / 32)]
            == JoinFinal(x.mem, s)(LineAddr(ClAddr(x.cfg.pages[k].writeBuff), slot / 32))[..32]
  {
    hide LineOf, PageHolds, JoinFinal, Merged, LineAddr, ClAddr;
    KeysFit(x);
    HoldsLine(x.mem, x.bufs[p].readBuff, x.pages[p], slot / 32);
    FirstHalf(JoinFinal(x.mem, s), x.bufs[p].writeBuff, x.results[p], slot / 32);
    assert MergedInto(x.bits, p, ResBuffLen(KEY_BITS, |x.keys|), x.results[p]);
  }

  lemma KeysFit(x: Join)
    requires JoinLoaded(x)
    ensures Fit(x.keys, KEY_BITS, 0, |x.keys|)
  {
    assert Pow2(16) == 65536 by { Pow2Add(8, 8); assert Pow2(8) == 256; }
  }

  /** The host's merging loop after the join. */
  method GatherJoinResults(job: JobWrapper, writeBuffers: seq<array<Half>>)
    requires job.bitEncoding == KEY_BITS && job.bitResult != null && job.resBuffLen <= 32
    requires job.numOfPartitions <= |writeBuffers|
    requires forall p :: 0 <= p < |writeBuffers| ==> writeBuffers[p].Length == 1024
    requires job.numOfPartitions * job.resBuffLen <= job.bitResult.Length
    modifies job.bitResult
    ensures forall p :: 0 <= p < job.numOfPartitions ==>
              MergedInto(job.bitResult[..], p, job.resBuffLen, writeBuffers[p][..])
  {
    hide Merged, Splice, SliceHolds;
    for buffId := 0 to job.numOfPartitions
      invariant forall p :: 0 <= p < buffId ==>
        MergedInto(job.bitResult[..], p, job.resBuffLen, writeBuffers[p][..])
    {
      ghost var was := job.bitResult[..];
      ghost var m := Merged(writeBuffers[buffId][..], job.resBuffLen);
      SliceInside(buffId, job.numOfPartitions, job.resBuffLen);
      job.CopyJoinWriteBuffer(writeBuffers[buffId], buffId);
      SpliceHolds(was, buffId * job.resBuffLen, m);
      forall p | 0 <= p < buffId ensures MergedInto(job.bitResult[..], p, job.resBuffLen, writeBuffers[p][..]) {
        SliceInside(p, buffId, job.resBuffLen);
        assert MergedInto(was, p, job.resBuffLen, writeBuffers[p][..]);
        SpliceKeepsSlice(was, buffId * job.resBuffLen, m, p * job.resBuffLen,
                         Merged(writeBuffers[p][..], job.resBuffLen));
      }
    }
  }
}
