/** Packing codes into 64-bit words: `Partition::initializePageAlignedPartition` and
    `Partition::compress`, and the decoding loop that reads the words back. */
module Partition {
  import opened Wrappers
  import opened Bits
  import opened Filters

  /** How many codes of `w` bits fit in a word, the slot where word `q` starts, and the bit where
      code `i` of a word starts; written out per width to stay linear. */
  function PerWord(w: nat): (n: nat)
    requires Width(w)
    ensures n > 0
  {
    if w == 4 then 16 else if w == 8 then 8 else if w == 16 then 4 else 2
  }

  function Start(w: nat, q: nat): nat
    requires Width(w)
  {
    if w == 4 then 16 * q else if w == 8 then 8 * q else if w == 16 then 4 * q else 2 * q
  }

  function Offset(w: nat, i: nat): (s: nat)
    requires Width(w)
    ensures i <= PerWord(w) ==> s <= WORD_BITS
  {
    if w == 4 then 4 * i else if w == 8 then 8 * i else if w == 16 then 16 * i else 32 * i
  }

  /** `total_words`. */
  function TotalWords(n: nat, w: nat): nat
    requires Width(w)
  {
    if w == 4 then n / 16 + (if n % 16 > 0 then 1 else 0)
    else if w == 8 then n / 8 + (if n % 8 > 0 then 1 else 0)
    else if w == 16 then n / 4 + (if n % 4 > 0 then 1 else 0)
    else n / 2 + (if n % 2 > 0 then 1 else 0)
  }

  /** The word built from codes `lo..hi`: `writtenVal |= newVal << shift_amount` for each. */
  function PackWord(codes: seq<nat>, w: nat, lo: nat, hi: nat): Word
    requires Width(w) && lo <= hi <= |codes| && hi <= lo + PerWord(w)
    decreases hi
  {
    if hi == lo then Zeros(WORD_BITS)
    else Or(PackWord(codes, w, lo, hi - 1), Shl(ToBits(codes[hi - 1], WORD_BITS), Offset(w, hi - 1 - lo)))
  }

  /** Words written for `n` codes (at least one), and how many codes the last of them holds. */
  function Words(n: nat, w: nat): (t: nat)
    requires Width(w)
    ensures t >= 1 && Start(w, t - 1) <= n <= Start(w, t)
  {
    if n == 0 then 1 else TotalWords(n, w)
  }

  function InLast(n: nat, w: nat): (k: nat)
    requires Width(w)
    ensures k <= PerWord(w) && (n > 0 ==> k > 0)
  {
    n - Start(w, Words(n, w) - 1)
  }

  /** Word `q` of the first `n` codes, and all of them. */
  function WordOf(codes: seq<nat>, n: nat, w: nat, q: nat): Word
    requires Width(w) && n <= |codes| && q < Words(n, w)
  {
    PackWord(codes, w, Start(w, q), if q + 1 == Words(n, w) then n else Start(w, q + 1))
  }

  function Packed(codes: seq<nat>, n: nat, w: nat): (words: seq<Word>)
    requires Width(w) && n <= |codes|
    ensures |words| == Words(n, w)
  {
    seq(Words(n, w), q requires 0 <= q < Words(n, w) => WordOf(codes, n, w, q))
  }

  lemma WordsNext(n: nat, w: nat)
    requires Width(w)
    ensures if InLast(n, w) == PerWord(w) then Words(n + 1, w) == Words(n, w) + 1 && InLast(n + 1, w) == 1
            else Words(n + 1, w) == Words(n, w) && InLast(n + 1, w) == InLast(n, w) + 1
  {
  }

  lemma WordsFit(n: nat, size: nat, w: nat)
    requires Width(w) && n <= size && size >= 1
    ensures Words(n, w) <= TotalWords(size, w)
  {
  }

  lemma EarlierWords(codes: seq<nat>, n: nat, w: nat, q: nat)
    requires Width(w) && n < |codes| && q + 1 < Words(n + 1, w)
    ensures q < Words(n, w) && WordOf(codes, n + 1, w, q) == WordOf(codes, n, w, q)
  {
    hide PackWord;
    WordsNext(n, w);
  }

  lemma LastWord(codes: seq<nat>, n: nat, w: nat)
    requires Width(w) && n < |codes|
    ensures var k, c := InLast(n, w), ToBits(codes[n], WORD_BITS);
            WordOf(codes, n + 1, w, Words(n + 1, w) - 1) ==
              if k == PerWord(w) then Or(Zeros(WORD_BITS), Shl(c, 0))
              else Or(WordOf(codes, n, w, Words(n, w) - 1), Shl(c, Offset(w, k)))
  {
    hide Or, Shl, ToBits, Zeros;
    var lo := Start(w, Words(n + 1, w) - 1);
    WordsNext(n, w);
    assert WordOf(codes, n + 1, w, Words(n + 1, w) - 1) == PackWord(codes, w, lo, n + 1);
    if InLast(n, w) == PerWord(w) {
      assert lo == n && PackWord(codes, w, n, n) == Zeros(WORD_BITS);
    } else {
      assert n - lo == InLast(n, w) && WordOf(codes, n, w, Words(n, w) - 1) == PackWord(codes, w, lo, n);
    }
  }

  lemma PackedNone(codes: seq<nat>, w: nat)
    requires Width(w)
    ensures Words(0, w) == 1 && InLast(0, w) == 0 && Packed(codes, 0, w) == [Zeros(WORD_BITS)]
  {
  }

  /** One more code: into the last word if it has room, else into a new word. */
  lemma PackedNext(codes: seq<nat>, n: nat, w: nat)
    requires Width(w) && n < |codes|
    ensures var words, k, c := Packed(codes, n, w), InLast(n, w), ToBits(codes[n], WORD_BITS);
            Packed(codes, n + 1, w) ==
              if k == PerWord(w) then words + [Or(Zeros(WORD_BITS), Shl(c, 0))]
              else words[..|words| - 1] + [Or(words[|words| - 1], Shl(c, Offset(w, k)))]
  {
    hide Or, Shl, ToBits, Zeros, PackWord, WordOf;
    var words, more := Packed(codes, n, w), Packed(codes, n + 1, w);
    WordsNext(n, w);
    LastWord(codes, n, w);
    forall q | 0 <= q < |more| - 1 ensures more[q] == words[q] {
      EarlierWords(codes, n, w, q);
    }
    assert more == more[..|more| - 1] + [more[|more| - 1]];
    assert more[..|more| - 1] == words[..|more| - 1];
  }

  /** The file of codes, one per line, read by one partition after the other. */
  class CodeStream {
    var codes: seq<nat>
    var next: nat

    ghost predicate Valid()
      reads this
    {
      next <= |codes|
    }

    ghost function Rest(): seq<nat>
      requires Valid()
      reads this
    {
      codes[next..]
    }

    constructor (codes: seq<nat>)
      ensures Valid() && Rest() == codes
    {
      this.codes, next := codes, 0;
    }

    method GetLine() returns (code: Option<nat>)
      requires Valid()
      modifies this
      ensures Valid()
      ensures old(Rest()) == [] ==> code == None && Rest() == []
      ensures old(Rest()) != [] ==> code == Some(old(Rest())[0]) && Rest() == old(Rest())[1..]
    {
      if next == |codes| { return None; }
      code, next := Some(codes[next]), next + 1;
    }
  }

  function Min(a: nat, b: nat): nat { if a <= b then a else b }

  class Partition {
    const partId: nat
    const partSize: nat
    var compressed: array?<Word>

    constructor (partId: nat, start: nat, end: nat)
      requires start <= end
      ensures this.partId == partId && partSize == end - start && compressed == null
    {
      this.partId, partSize, compressed := partId, end - start, null;
    }

    method InitializePageAlignedPartition(w: nat)
      requires Width(w)
      modifies this
      ensures compressed != null && fresh(compressed) && compressed.Length == TotalWords(partSize, w)
    {
      var totalWords := partSize / PerWord(w);
      if partSize % PerWord(w) > 0 { totalWords := totalWords + 1; }
      compressed := new Word[totalWords];
    }

    /** Reads as many codes as the partition has slots and the stream has left, and packs them.
        The words that get no code keep what they held, except that the first is always written;
        this is why a partition needs a slot. */
    method Compress(file: CodeStream, w: nat) returns (ghost taken: nat)
      requires Width(w) && partSize >= 1 && file.Valid()
      requires compressed != null && compressed.Length == TotalWords(partSize, w)
      modifies compressed, file
      ensures file.Valid()
      ensures taken == Min(partSize, |old(file.Rest())|)
      ensures file.Rest() == old(file.Rest())[taken..]
      ensures Words(taken, w) <= compressed.Length
      ensures compressed[..] == Packed(old(file.Rest()), taken, w) + old(compressed[..])[Words(taken, w)..]
    {
      hide Or, Shl, ToBits, Zeros, PackWord, WordOf, Packed, Words, InLast, TotalWords, Start;
      var writtenVal: Word := Zeros(WORD_BITS);
      var shiftAmount, bitsRemaining, curIndex, itemsRead := 0, WORD_BITS, 0, 0;
      ghost var all := file.Rest();
      WordsFit(0, partSize, w);
      PackedNone(all, w);
      while itemsRead < partSize
        invariant file.Valid() && itemsRead <= partSize && itemsRead <= |all| && file.Rest() == all[itemsRead..]
        invariant curIndex == Words(itemsRead, w) - 1 < compressed.Length
        invariant shiftAmount == Offset(w, InLast(itemsRead, w)) && bitsRemaining == WORD_BITS - shiftAmount
        invariant compressed[..curIndex] + [writtenVal] == Packed(all, itemsRead, w)
        invariant forall q :: curIndex <= q < compressed.Length ==> compressed[q] == old(compressed[q])
      {
        var newVal := file.GetLine();
        if newVal.None? { break; }
        PackedNext(all, itemsRead, w);
        WordsNext(itemsRead, w);
        WordsFit(itemsRead + 1, partSize, w);
        if bitsRemaining == 0 {
          compressed[curIndex] := writtenVal;
          bitsRemaining, shiftAmount, writtenVal := WORD_BITS, 0, Zeros(WORD_BITS);
          curIndex := curIndex + 1;
        }
        bitsRemaining := bitsRemaining - w;
        writtenVal := Or(writtenVal, Shl(ToBits(newVal.value, WORD_BITS), shiftAmount));
        shiftAmount := shiftAmount + w;
        itemsRead := itemsRead + 1;
      }
      compressed[curIndex] := writtenVal;
      taken := itemsRead;
    }
  }
}
