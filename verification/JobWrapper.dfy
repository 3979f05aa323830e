/** Collecting result bits: `reserveResultBuffer`, the two copies out of the accelerator's write
    buffers, and `countBitResults`. */
module JobWrapper {
  import opened Bits
  import opened Filters
  import opened Column

  const CL_SIZE := 512
  const WORDS_PER_LINE := 8

  type Half = b: Bits | |b| == 32 witness seq(32, _ => false)

  /** `res_buff_len`: result words per partition, one more than needed in a small column. */
  function ResBuffLen(w: nat, n: nat): nat
    requires Width(w)
  {
    if n < PageSlots(w) then n / 64 + 1
    else if w == 4 then 128 else if w == 8 then 64 else if w == 16 then 32 else 16
  }

  /** The slice has a bit for every row of a full page and none too many; in a column smaller than a
      page, for every row, with at most a word to spare. */
  lemma SliceIs(w: nat, n: nat)
    requires Width(w)
    ensures if n >= PageSlots(w) then 64 * ResBuffLen(w, n) == PageSlots(w) else n < 64 * ResBuffLen(w, n) <= n + 64
  {
  }

  /** Result words in a result line: whole words only, so none from 16 bits up. */
  function ResWords(w: nat): (k: nat)
    requires Width(w)
    ensures k == if w == 4 then 2 else if w == 8 then 1 else 0
  {
    CL_SIZE / w / WORD_BITS
  }

  /** `total_cls`: the lines of a column, at most those of a page. */
  function TotalCls(w: nat, n: nat): nat
    requires Width(w)
  {
    var lines := if w == 4 then (n + 127) / 128 else if w == 8 then (n + 63) / 64
                 else if w == 16 then (n + 31) / 32 else (n + 15) / 16;
    if lines < 64 then lines else 64
  }

  /** So line `j` is asked for exactly if it is a page's and, on the first page, holds a row. */
  lemma LinesAsked(w: nat, n: nat, j: nat)
    requires Width(w)
    ensures j < TotalCls(w, n) <==> j < 64 && j * (512 / w) < n
  {
    if w == 4 { } else if w == 8 { } else if w == 16 { } else { }
  }

  /** The words the `uint64_t` copy takes from `cls` lines. */
  function Gathered(buff: seq<Word>, cls: nat, w: nat): (g: seq<Word>)
    requires Width(w) && WORDS_PER_LINE * cls <= |buff|
    ensures |g| == if w == 4 then 2 * cls else if w == 8 then cls else 0
  {
    if cls == 0 then []
    else var at := WORDS_PER_LINE * (cls - 1); Gathered(buff, cls - 1, w) + buff[at..at + ResWords(w)]
  }

  lemma GatheredNone(buff: seq<Word>, w: nat)
    requires Width(w)
    ensures Gathered(buff, 0, w) == []
  {
  }

  lemma GatheredNext(buff: seq<Word>, cls: nat, w: nat)
    requires Width(w) && WORDS_PER_LINE * (cls + 1) <= |buff|
    ensures var at := WORDS_PER_LINE * cls;
            Gathered(buff, cls + 1, w) == Gathered(buff, cls, w) + buff[at..at + ResWords(w)]
  {
  }

  lemma {:induction false} GatheredWord(buff: seq<Word>, cls: nat, w: nat, j: nat, k: nat)
    requires Width(w) && WORDS_PER_LINE * cls <= |buff| && j < cls && k < ResWords(w)
    ensures var at := if w == 4 then 2 * j + k else j;
            at < |Gathered(buff, cls, w)| && Gathered(buff, cls, w)[at] == buff[WORDS_PER_LINE * j + k]
  {
    if j < cls - 1 { GatheredWord(buff, cls - 1, w, j, k); }
  }

  function Splice<T>(a: seq<T>, at: nat, b: seq<T>): (s: seq<T>)
    requires at + |b| <= |a|
    ensures |s| == |a|
  {
    a[..at] + b + a[at + |b|..]
  }

  lemma SpliceMore<T>(a: seq<T>, at: nat, b: seq<T>, x: T)
    requires at + |b| < |a|
    ensures Splice(a, at, b)[at + |b| := x] == Splice(a, at, b + [x])
  {
  }

  lemma SpliceSplice<T>(a: seq<T>, at: nat, b: seq<T>, c: seq<T>)
    requires at + |b| + |c| <= |a|
    ensures Splice(Splice(a, at, b), at + |b|, c) == Splice(a, at, b + c)
  {
  }

  lemma SpliceNone<T>(a: seq<T>, at: nat)
    requires at <= |a|
    ensures Splice(a, at, []) == a
  {
  }

  /** The words the `uint32_t` copy builds: the low halves of two lines each. */
  function Merged(buff: seq<Half>, n: nat): (m: seq<Word>)
    requires 32 * n <= |buff| + 15
    ensures |m| == n
  {
    seq(n, i requires 0 <= i < n => Joined(buff[32 * i], buff[32 * i + 16]))
  }

  function Joined(lower: Bits, higher: Bits): (word: Word)
    requires |lower| == 32 && |higher| == 32
  {
    lower + higher
  }

  /** `(temp_higher << 32) | temp_lower`. */
  lemma MergeHalves(lower: Half, higher: Half)
    ensures Or(Shl(higher + Zeros(32), 32), lower + Zeros(32)) == Joined(lower, higher)
  {
  }

  function TotalCount(words: seq<Word>): nat {
    if words == [] then 0 else TotalCount(words[..|words| - 1]) + PopCount(words[|words| - 1])
  }

  lemma CountNext(words: seq<Word>, k: nat)
    requires k < |words|
    ensures TotalCount(words[..k + 1]) == TotalCount(words[..k]) + PopCount(words[k])
  {
    assert words[..k + 1][..k] == words[..k];
  }

  class JobWrapper {
    const bitEncoding: nat
    const colSize: nat
    const columnPartitions: nat
    var numOfPartitions: nat
    var resBuffLen: nat
    var bitVectorSize: nat
    var bitResult: array?<Word>

    constructor (bitEncoding: nat, colSize: nat, columnPartitions: nat)
      ensures this.bitEncoding == bitEncoding && this.colSize == colSize && this.columnPartitions == columnPartitions
      ensures numOfPartitions == columnPartitions && bitResult == null
    {
      this.bitEncoding, this.colSize, this.columnPartitions := bitEncoding, colSize, columnPartitions;
      numOfPartitions, resBuffLen, bitVectorSize, bitResult := columnPartitions, 0, 0, null;
    }

    method SetNumOfPartitions(parts: nat)
      modifies this`numOfPartitions
      ensures numOfPartitions == parts
    {
      numOfPartitions := parts;
    }

    method ReserveResultBuffer()
      requires Width(bitEncoding)
      modifies this`resBuffLen, this`bitVectorSize, this`bitResult
      ensures resBuffLen == ResBuffLen(bitEncoding, colSize)
      ensures bitResult != null && fresh(bitResult)
      ensures bitResult.Length == bitVectorSize == resBuffLen * columnPartitions
    {
      var bitsPerPartition := PAGE_SIZE * 8 / bitEncoding;
      if colSize < bitsPerPartition {
        resBuffLen := colSize / 64 + 1;
      } else {
        resBuffLen := bitsPerPartition / 64;
      }
      bitVectorSize := resBuffLen * columnPartitions;
      bitResult := new Word[bitVectorSize];
    }

    /** The `uint64_t` form. The copy must stay inside the array; whether it stays inside the
        partition's slice is the subject of `CopyStaysInSlice`. */
    method CopyFPGAWriteBuffer(writeBuff: array<Word>, partId: nat, totalCls: nat)
      requires Width(bitEncoding) && bitResult != null && bitResult != writeBuff
      requires WORDS_PER_LINE * totalCls <= writeBuff.Length
      requires partId * resBuffLen + |Gathered(writeBuff[..], totalCls, bitEncoding)| <= bitResult.Length
      modifies bitResult
      ensures bitResult[..]
              == Splice(old(bitResult[..]), partId * resBuffLen, Gathered(writeBuff[..], totalCls, bitEncoding))
    {
      hide Splice, ResWords, Gathered;
      ghost var was, buff := bitResult[..], writeBuff[..];
      GatheredNone(buff, bitEncoding);
      ghost var start := partId * resBuffLen;
      SpliceNone(was, start);
      var partOffset := partId * resBuffLen;
      for curCl := 0 to totalCls
        invariant partOffset == start + |Gathered(buff, curCl, bitEncoding)| <= bitResult.Length
        invariant bitResult[..] == Splice(was, start, Gathered(buff, curCl, bitEncoding))
      {
        var clOffset := curCl * WORDS_PER_LINE;
        var resWordsPerCl := ResWords(bitEncoding);
        ghost var line := buff[clOffset..clOffset + resWordsPerCl];
        GatheredNext(buff, curCl, bitEncoding);
        SpliceSplice(was, start, Gathered(buff, curCl, bitEncoding), line);
        CopyLine(writeBuff, clOffset, resWordsPerCl, partOffset);
        partOffset := partOffset + resWordsPerCl;
      }
    }

    /** The inner loop: the result words of one line. */
    method CopyLine(writeBuff: array<Word>, clOffset: nat, resWordsPerCl: nat, partOffset: nat)
      requires bitResult != null && bitResult != writeBuff
      requires clOffset + resWordsPerCl <= writeBuff.Length && partOffset + resWordsPerCl <= bitResult.Length
      modifies bitResult
      ensures bitResult[..] == Splice(old(bitResult[..]), partOffset, writeBuff[clOffset..clOffset + resWordsPerCl])
    {
      hide Splice;
      ghost var was, line := bitResult[..], writeBuff[clOffset..clOffset + resWordsPerCl];
      SpliceNone(was, partOffset);
      assert line[..0] == [];
      for wordId := 0 to resWordsPerCl
        invariant bitResult[..] == Splice(was, partOffset, line[..wordId])
      {
        SpliceMore(was, partOffset, line[..wordId], line[wordId]);
        assert line[..wordId] + [line[wordId]] == line[..wordId + 1];
        bitResult[partOffset + wordId] := writeBuff[clOffset + wordId];
      }
      assert line[..resWordsPerCl] == line;
    }

    /** The `uint32_t` form. */
    method CopyJoinWriteBuffer(writeBuff: array<Half>, partId: nat)
      requires bitResult != null
      requires 32 * resBuffLen <= writeBuff.Length + 15
      requires partId * resBuffLen + resBuffLen <= bitResult.Length
      modifies bitResult
      ensures bitResult[..] == Splice(old(bitResult[..]), partId * resBuffLen, Merged(writeBuff[..], resBuffLen))
    {
      hide Or, Shl;
      ghost var was, buff := bitResult[..], writeBuff[..];
      var partOffset, wrInd := partId * resBuffLen, 0;
      for ind := partOffset to partOffset + resBuffLen
        invariant wrInd == 32 * (ind - partOffset)
        invariant bitResult[..] == Splice(was, partOffset, Merged(buff, resBuffLen)[..ind - partOffset])
      {
        var tempLower, tempHigher := writeBuff[wrInd], writeBuff[wrInd + 16];
        MergeHalves(tempLower, tempHigher);
        ghost var merged := Merged(buff, resBuffLen);
        SpliceMore(was, partOffset, merged[..ind - partOffset], merged[ind - partOffset]);
        assert merged[..ind - partOffset] + [merged[ind - partOffset]] == merged[..ind - partOffset + 1];
        bitResult[ind] := Or(Shl(tempHigher + Zeros(32), 32), tempLower + Zeros(32));
        wrInd := wrInd + 32;
      }
    }

    method CountBitResults() returns (totalCount: nat)
      requires bitResult != null && numOfPartitions * resBuffLen <= bitResult.Length
      ensures totalCount == TotalCount(bitResult[..numOfPartitions * resBuffLen])
    {
      totalCount := 0;
      for partId := 0 to numOfPartitions
        invariant partId * resBuffLen <= bitResult.Length
        invariant totalCount == TotalCount(bitResult[..partId * resBuffLen])
      {
        SliceInside(partId, numOfPartitions, resBuffLen);
        var partOffset, partCount := partId * resBuffLen, 0;
        for ind := partOffset to partOffset + resBuffLen
          invariant totalCount + partCount == TotalCount(bitResult[..ind])
        {
          CountNext(bitResult[..], ind);
          assert bitResult[..][..ind] == bitResult[..ind] && bitResult[..][..ind + 1] == bitResult[..ind + 1];
          partCount := partCount + PopCount(bitResult[ind]);
        }
        totalCount := totalCount + partCount;
      }
    }
  }

  lemma SliceInside(p: nat, parts: nat, len: nat)
    requires p < parts
    ensures p * len + len == (p + 1) * len <= parts * len
  {
  }

  /** Slices of different partitions are disjoint. */
  lemma SlicesDisjoint(p: nat, q: nat, len: nat, i: nat)
    requires p * len <= i < p * len + len && q * len <= i < q * len + len
    ensures p == q
  {
    if p < q { SliceInside(p, q, len); } else if q < p { SliceInside(q, p, len); }
  }

  /** When a partition's copy stays inside its slice: always for columns of a page or more and
      always at eight bits; for a smaller column at four bits exactly when the last line is
      empty or its first word is used up. Otherwise it writes one word past the slice. */
  lemma CopyStaysInSlice(w: nat, n: nat, buff: seq<Word>)
    requires Width(w) && WORDS_PER_LINE * TotalCls(w, n) <= |buff|
    ensures |Gathered(buff, TotalCls(w, n), w)| <= ResBuffLen(w, n)
            <==> w != 4 || n >= PageSlots(4) || n % 128 == 0 || n % 128 >= 64
    ensures |Gathered(buff, TotalCls(w, n), w)| <= ResBuffLen(w, n) + 1
  {
  }

  /** When a partition's copy stays inside the array that `ReserveResultBuffer` makes for the
      column: under the same condition, because a column smaller than a page has one partition at
      most, so that beyond its slice the array ends. */
  lemma CopyStaysInArray(w: nat, n: nat, p: nat, buff: seq<Word>)
    requires Width(w) && WORDS_PER_LINE * TotalCls(w, n) <= |buff| && p < PagesRequired(w, n)
    ensures p * ResBuffLen(w, n) + |Gathered(buff, TotalCls(w, n), w)| <= ResBuffLen(w, n) * PagesRequired(w, n)
            <==> w != 4 || n >= PageSlots(4) || n % 128 == 0 || n % 128 >= 64
  {
    hide Gathered, TotalCls, ResBuffLen, PagesRequired;
    CopyStaysInSlice(w, n, buff);
    SliceInside(p, PagesRequired(w, n), ResBuffLen(w, n));
    if w == 4 && n < PageSlots(4) { OnePage(n); }
  }

  lemma OnePage(n: nat)
    requires n < PageSlots(4)
    ensures PagesRequired(4, n) <= 1
  {
  }
}
