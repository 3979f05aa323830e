/** The SIMD scan of 8-bit codes (`simdScan8`) against the accelerator's `lo_quantity` filter. */
module SimdScan {
  import opened Bits
  import opened Filters
  import opened JobWrapper
  import opened Lines

  /** A byte as the signed number that `_mm_cmpgt_pi8` compares. */
  function Signed(x: nat): int { if x < 128 then x else x - 256 }

  function ByteAt(word: Word, i: nat): nat
    requires i < 8
  {
    Val(word[8 * i..8 * i + 8])
  }

  /** `~movemask(cmpgt(data, pred))`: bit `i` says that byte `i` is, signed, not above. */
  function NotAbove(data: Word, pred: nat): (r: Bits)
    ensures |r| == 8
  {
    seq(8, i requires 0 <= i < 8 => Signed(ByteAt(data, i)) <= Signed(pred))
  }

  /** The result word made of the comparisons of eight data words. */
  function ScannedWord(data: seq<Word>, k: nat, pred: nat): Word
    requires 8 * k + 8 <= |data|
  {
    Glue(NotAbove(data[8 * k], pred), NotAbove(data[8 * k + 1], pred), NotAbove(data[8 * k + 2], pred),
         NotAbove(data[8 * k + 3], pred), NotAbove(data[8 * k + 4], pred), NotAbove(data[8 * k + 5], pred),
         NotAbove(data[8 * k + 6], pred), NotAbove(data[8 * k + 7], pred))
  }

  function Scanned(data: seq<Word>, n: nat, pred: nat): (r: seq<Word>)
    requires 8 * n <= |data|
    ensures |r| == n
  {
    seq(n, k requires 0 <= k < n => ScannedWord(data, k, pred))
  }

  function PutByte(word: Word, i: nat, byte: Bits): (r: Word)
    requires i < 8 && |byte| == 8
  {
    var b: Bits := word;
    b[..8 * i] + byte + b[8 * i + 8..]
  }

  lemma ScannedByte(data: seq<Word>, k: nat, i: nat, pred: nat)
    requires 8 * k + 8 <= |data| && i < 8
    ensures ScannedWord(data, k, pred)[8 * i..8 * i + 8] == NotAbove(data[8 * k + i], pred)
  {
    hide NotAbove;
  }

  /** Storing the next byte of a word extends the part of it that is right. */
  lemma NextByte(word: Word, target: Word, i: nat)
    requires i < 8 && word[..8 * i] == target[..8 * i]
    ensures PutByte(word, i, target[8 * i..8 * i + 8])[..8 * i + 8] == target[..8 * i + 8]
    ensures i == 7 ==> PutByte(word, i, target[8 * i..8 * i + 8]) == target
    ensures PopCount(target[..8 * i + 8]) == PopCount(target[..8 * i]) + PopCount(target[8 * i..8 * i + 8])
  {
    hide PopCount;
    PopCountConcat(target[..8 * i], target[8 * i..8 * i + 8]);
    assert target[..8 * i] + target[8 * i..8 * i + 8] == target[..8 * i + 8];
    var put := PutByte(word, i, target[8 * i..8 * i + 8]);
    assert put[..8 * i + 8] == word[..8 * i] + target[8 * i..8 * i + 8];
    if i == 7 { assert put == put[..64] && target == target[..64]; }
  }

  /** What the array holds after `wordId` bytes. */
  ghost predicate BytesDone(words: seq<Word>, was: seq<Word>, at: nat, target: seq<Word>, wordId: nat)
    requires |words| == |was| && at + |target| <= |was| && wordId <= 8 * |target|
  {
    var k, i := wordId / 8, wordId % 8;
    && (forall m :: at <= m < at + k ==> words[m] == target[m - at])
    && (i > 0 ==> words[at + k][..8 * i] == target[k][..8 * i])
    && (forall m :: 0 <= m < |was| && (m < at || m > at + k || (m == at + k && i == 0)) ==> words[m] == was[m])
  }

  lemma ByteDone(words: seq<Word>, was: seq<Word>, at: nat, target: seq<Word>, wordId: nat)
    requires |words| == |was| && at + |target| <= |was| && wordId < 8 * |target|
    requires BytesDone(words, was, at, target, wordId)
    ensures var k, i := wordId / 8, wordId % 8;
            var byte := target[k][8 * i..8 * i + 8];
            BytesDone(words[at + k := PutByte(words[at + k], i, byte)], was, at, target, wordId + 1)
  {
    hide PutByte, PopCount;
    var k, i := wordId / 8, wordId % 8;
    assert words[at + k][..8 * i] == target[k][..8 * i];
    NextByte(words[at + k], target[k], i);
  }

  /** Result bits set after `wordId` bytes. */
  function CountTo(target: seq<Word>, wordId: nat): nat
    requires wordId <= 8 * |target|
  {
    TotalCount(target[..wordId / 8]) + if wordId % 8 > 0 then PopCount(target[wordId / 8][..8 * (wordId % 8)]) else 0
  }

  lemma CountToNext(target: seq<Word>, wordId: nat)
    requires wordId < 8 * |target|
    ensures var k, i := wordId / 8, wordId % 8;
            CountTo(target, wordId + 1) == CountTo(target, wordId) + PopCount(target[k][8 * i..8 * i + 8])
  {
    hide PutByte, TotalCount;
    var k, i := wordId / 8, wordId % 8;
    NextByte(target[k], target[k], i);
    assert target[k][..0] == [];
    if i == 7 {
      CountNext(target, k);
      assert target[k][..64] == target[k];
    }
  }

  /** Writes the comparison of every data word into the byte view of the partition's slice and
      returns how many codes qualified. The destination is the byte view starting at word
      `resOffset`, as the comment in the source describes it. */
  method SimdScan8(bitResult: array<Word>, resOffset: nat, resBuffLen: nat, data: array<Word>, lowerParam: nat)
      returns (count: nat)
    requires bitResult != data && resOffset + resBuffLen <= bitResult.Length && 8 * resBuffLen <= data.Length
    modifies bitResult
    ensures bitResult[..] == Splice(old(bitResult[..]), resOffset, Scanned(data[..], resBuffLen, lowerParam % 256))
    ensures count == TotalCount(Scanned(data[..], resBuffLen, lowerParam % 256))
  {
    hide PutByte, PopCount, NotAbove, ScannedWord, CountTo, BytesDone;
    var pred := lowerParam % 256;
    ghost var was, target := bitResult[..], Scanned(data[..], resBuffLen, pred);
    count := 0;
    NothingDone(was, resOffset, target);
    for wordId := 0 to resBuffLen * 8
      invariant BytesDone(bitResult[..], was, resOffset, target, wordId)
      invariant count == CountTo(target, wordId)
    {
      var dataVec := data[wordId];
      var byte := NotAbove(dataVec, pred);
      ScannedByte(data[..], wordId / 8, wordId % 8, pred);
      ByteDone(bitResult[..], was, resOffset, target, wordId);
      CountToNext(target, wordId);
      bitResult[resOffset + wordId / 8] := PutByte(bitResult[resOffset + wordId / 8], wordId % 8, byte);
      count := count + PopCount(byte);
    }
    AllDone(bitResult[..], was, resOffset, target);
  }

  lemma NothingDone(was: seq<Word>, at: nat, target: seq<Word>)
    requires at + |target| <= |was|
    ensures BytesDone(was, was, at, target, 0) && CountTo(target, 0) == 0
  {
  }

  lemma AllDone(words: seq<Word>, was: seq<Word>, at: nat, target: seq<Word>)
    requires |words| == |was| && at + |target| <= |was| && BytesDone(words, was, at, target, 8 * |target|)
    ensures words == Splice(was, at, target) && CountTo(target, 8 * |target|) == TotalCount(target)
  {
    hide TotalCount, PopCount, Splice;
    assert target[..|target|] == target;
    IsSplice(words, was, at, target);
  }

  lemma IsSplice<T>(words: seq<T>, was: seq<T>, at: nat, target: seq<T>)
    requires |words| == |was| && at + |target| <= |was|
    requires forall m :: at <= m < at + |target| ==> words[m] == target[m - at]
    requires forall m :: 0 <= m < |was| && (m < at || m >= at + |target|) ==> words[m] == was[m]
    ensures words == Splice(was, at, target)
  {
  }

  // ---------------------------------------------------------------------------------------
  // Agreement with the accelerator

  predicate SameSide(x: nat, pred: nat) { x < 128 <==> pred < 128 }

  /** The bits the accelerator's `<=` filter and the word copy leave for eight data words. */
  function FilteredWord(data: seq<Word>, k: nat, pred: nat): Word
    requires 8 * k + 8 <= |data|
  {
    WideFilter(AtMost(pred), 8, LineOf(data, k))[..64]
  }

  lemma SignedOrder(x: nat, pred: nat)
    requires x < 256 && pred < 256
    ensures (Signed(x) <= Signed(pred)) == (x <= pred) <==> SameSide(x, pred)
  {
  }

  /** Code `s` of the page. */
  function CodeAt(data: seq<Word>, s: nat): nat
    requires s / 8 < |data|
  {
    ByteAt(data[s / 8], s % 8)
  }

  lemma BothAt(data: seq<Word>, k: nat, x: nat, pred: nat)
    requires 8 * k + 8 <= |data| && x < 64
    ensures ScannedWord(data, k, pred)[x] == (Signed(CodeAt(data, 64 * k + x)) <= Signed(pred))
    ensures FilteredWord(data, k, pred)[x] == (CodeAt(data, 64 * k + x) <= pred)
    ensures CodeAt(data, 64 * k + x) < 256
  {
    hide ScannedWord, LineOf;
    var i, b := x / 8, x % 8;
    var w := data[8 * k + i];
    ScannedByte(data, k, i, pred);
    assert ScannedWord(data, k, pred)[8 * i..8 * i + 8][b] == NotAbove(w, pred)[b];
    LineField(data, 8, k, x);
    ValBound(w[8 * b..8 * b + 8]);
    assert Pow2(8) == 256;
    assert (64 * k + x) / 8 == 8 * k + i && (64 * k + x) % 8 == b;
  }

  /** The SIMD scan and the accelerator build the same result words exactly when every code lies
      on the predicate's side of 128, the sign bit of the byte comparison. In particular they
      agree whenever all codes and the predicate are at most 127. */
  lemma AgreeExactlyOnSameSide(data: seq<Word>, n: nat, pred: nat)
    requires 8 * n <= |data| && pred < 256
    ensures (forall k :: 0 <= k < n ==> Scanned(data, n, pred)[k] == FilteredWord(data, k, pred))
            <==> forall s :: 0 <= s < 64 * n ==> SameSide(CodeAt(data, s), pred)
  {
    hide ScannedWord, FilteredWord, CodeAt;
    forall k, x | 0 <= k < n && 0 <= x < 64
      ensures SameSide(CodeAt(data, 64 * k + x), pred)
              <==> ScannedWord(data, k, pred)[x] == FilteredWord(data, k, pred)[x]
    {
      BothAt(data, k, x, pred);
      SignedOrder(CodeAt(data, 64 * k + x), pred);
    }
    if forall s :: 0 <= s < 64 * n ==> SameSide(CodeAt(data, s), pred) {
      forall k | 0 <= k < n ensures ScannedWord(data, k, pred) == FilteredWord(data, k, pred) {
        var a, b := ScannedWord(data, k, pred), FilteredWord(data, k, pred);
        forall x | 0 <= x < 64 ensures a[x] == b[x] {
          assert SameSide(CodeAt(data, 64 * k + x), pred);
        }
      }
    } else {
      var s :| 0 <= s < 64 * n && !SameSide(CodeAt(data, s), pred);
      var k, x := s / 64, s % 64;
      assert SameSide(CodeAt(data, 64 * k + x), pred)
             <==> ScannedWord(data, k, pred)[x] == FilteredWord(data, k, pred)[x];
      assert Scanned(data, n, pred)[k] != FilteredWord(data, k, pred);
    }
  }

  /** On a full page (64 result words from 64 lines): what the host gathers from the accelerator's
      `lo_quantity` results and what `simdScan8` builds are the same words exactly when every
      code lies on the predicate's side of 128. */
  lemma SimdAgreesWithAccelerator(data: seq<Word>, results: seq<Word>, pred: nat)
    requires |data| == 512 == |results| && pred < 256
    requires forall j :: 0 <= j < 64 ==> LineOf(results, j) == WideFilter(AtMost(pred), 8, LineOf(data, j))
    ensures Scanned(data, 64, pred) == Gathered(results, 64, 8)
            <==> forall s :: 0 <= s < 4096 ==> SameSide(CodeAt(data, s), pred)
  {
    hide LineOf, WideFilter, ScannedWord, CodeAt, Gathered;
    forall k | 0 <= k < 64 ensures Gathered(results, 64, 8)[k] == FilteredWord(data, k, pred) {
      GatheredWord(results, 64, 8, k, 0);
      LineWord(results, k, 0);
      var line := LineOf(results, k);
      assert line[64 * 0..64 * 0 + 64] == line[..64];
    }
    AgreeExactlyOnSameSide(data, 64, pred);
  }
}
