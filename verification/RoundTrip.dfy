/** Reading packed words back: the decoding loop of `PrintInputBlock`, and the same words seen as
    cache lines. */
module RoundTrip {
  import opened Bits
  import opened Filters
  import opened Partition

  /** The word slot `s` lies in, and its position there. */
  function WordIndex(w: nat, s: nat): nat
    requires Width(w)
  {
    if w == 4 then s / 16 else if w == 8 then s / 8 else if w == 16 then s / 4 else s / 2
  }

  function Position(w: nat, s: nat): (k: nat)
    requires Width(w)
    ensures k < PerWord(w) && s == Start(w, WordIndex(w, s)) + k
  {
    if w == 4 then s % 16 else if w == 8 then s % 8 else if w == 16 then s % 4 else s % 2
  }

  /** `(word >> (id * w)) & mask`. */
  function Decode(word: Word, w: nat, id: nat): nat
    requires Width(w) && id < PerWord(w)
  {
    FieldRead(word, Offset(w, id), w);
    Val(And(Shr(word, Offset(w, id)), Mask(w, WORD_BITS)))
  }

  function Slot(words: seq<Word>, w: nat, s: nat): nat
    requires Width(w) && WordIndex(w, s) < |words|
  {
    Decode(words[WordIndex(w, s)], w, Position(w, s))
  }

  ghost predicate Fit(codes: seq<nat>, w: nat, lo: nat, hi: nat)
    requires lo <= hi <= |codes|
  {
    forall i :: lo <= i < hi ==> codes[i] < Pow2(w)
  }

  /** Shifting a code that fits into place. */
  lemma ShiftedCode(c: nat, w: nat, at: nat)
    requires at + w <= WORD_BITS && c < Pow2(w)
    ensures Shl(ToBits(c, WORD_BITS), at) == Zeros(at) + ToBits(c, w) + Zeros(WORD_BITS - at - w)
  {
    var b := ToBits(c, WORD_BITS);
    ToBitsPrefix(c, w, WORD_BITS);
    ToBitsHigh(c, w, WORD_BITS);
    hide ToBits;
    assert b == b[..w] + b[w..];
  }

  lemma OrAbove(a: Bits, b: Bits, k: nat)
    ensures Or(a + Zeros(|b| + k), Zeros(|a|) + b + Zeros(k)) == a + b + Zeros(k)
  {
  }

  /** The codes side by side. */
  function Concat(codes: seq<nat>, w: nat, lo: nat, hi: nat): (b: Bits)
    requires Width(w) && lo <= hi <= |codes|
    ensures |b| == Offset(w, hi - lo)
    decreases hi
  {
    if hi == lo then [] else Concat(codes, w, lo, hi - 1) + ToBits(codes[hi - 1], w)
  }

  /** Codes that fit do not touch each other. */
  lemma {:induction false} PackedWordIs(codes: seq<nat>, w: nat, lo: nat, hi: nat)
    requires Width(w) && lo <= hi <= |codes| && hi <= lo + PerWord(w) && Fit(codes, w, lo, hi)
    ensures PackWord(codes, w, lo, hi) == Concat(codes, w, lo, hi) + Zeros(WORD_BITS - Offset(w, hi - lo))
    decreases hi
  {
    hide Or, Shl, ToBits;
    if hi > lo {
      var at := Offset(w, hi - 1 - lo);
      PackedWordIs(codes, w, lo, hi - 1);
      ShiftedCode(codes[hi - 1], w, at);
      OrAbove(Concat(codes, w, lo, hi - 1), ToBits(codes[hi - 1], w), WORD_BITS - at - w);
    }
  }

  lemma {:induction false} ConcatField(codes: seq<nat>, w: nat, lo: nat, hi: nat, i: nat)
    requires Width(w) && lo <= hi <= |codes| && i < hi - lo
    ensures Offset(w, i) + w <= Offset(w, hi - lo)
    ensures Concat(codes, w, lo, hi)[Offset(w, i)..Offset(w, i) + w] == ToBits(codes[lo + i], w)
    decreases hi
  {
    hide ToBits;
    if i < hi - 1 - lo { ConcatField(codes, w, lo, hi - 1, i); }
  }

  /** Every field of a word of codes that fit is the code's bit pattern. */
  lemma PackedField(codes: seq<nat>, w: nat, lo: nat, hi: nat, i: nat)
    requires Width(w) && lo <= hi <= |codes| && hi <= lo + PerWord(w) && Fit(codes, w, lo, hi) && i < hi - lo
    ensures Offset(w, i) + w <= WORD_BITS
    ensures PackWord(codes, w, lo, hi)[Offset(w, i)..Offset(w, i) + w] == ToBits(codes[lo + i], w)
  {
    hide ToBits, PackWord, Concat, Offset;
    var at := Offset(w, i);
    PackedWordIs(codes, w, lo, hi);
    ConcatField(codes, w, lo, hi, i);
    PrefixField(Concat(codes, w, lo, hi), Zeros(WORD_BITS - Offset(w, hi - lo)), at, w);
  }

  lemma PrefixField(a: Bits, b: Bits, at: nat, w: nat)
    requires at + w <= |a|
    ensures (a + b)[at..at + w] == a[at..at + w]
  {
  }

  lemma SlotInRange(n: nat, w: nat, s: nat)
    requires Width(w) && s < n
    ensures WordIndex(w, s) < Words(n, w)
    ensures Start(w, WordIndex(w, s)) + Position(w, s)
            < if WordIndex(w, s) + 1 == Words(n, w) then n else Start(w, WordIndex(w, s) + 1)
  {
  }

  lemma SlotWord(codes: seq<nat>, n: nat, w: nat, rest: seq<Word>, q: nat)
    requires Width(w) && n <= |codes| && q < Words(n, w)
    ensures (Packed(codes, n, w) + rest)[q] == WordOf(codes, n, w, q)
  {
    hide WordOf, Words;
  }

  lemma FitsHere(codes: seq<nat>, w: nat, n: nat, lo: nat, hi: nat)
    requires lo <= hi <= n <= |codes| && Fit(codes, w, 0, n)
    ensures Fit(codes, w, lo, hi)
  {
  }

  /** Slot `s` of the packed words, whatever follows them, holds code `s`. */
  lemma SlotHolds(codes: seq<nat>, n: nat, w: nat, rest: seq<Word>, s: nat)
    requires Width(w) && s < n <= |codes| && Fit(codes, w, 0, n)
    ensures WordIndex(w, s) < |Packed(codes, n, w) + rest|
    ensures var q, at := WordIndex(w, s), Offset(w, Position(w, s));
            at + w <= WORD_BITS && (Packed(codes, n, w) + rest)[q][at..at + w] == ToBits(codes[s], w)
  {
    hide ToBits, PackWord;
    SlotInRange(n, w, s);
    var q := WordIndex(w, s);
    SlotWord(codes, n, w, rest, q);
    hide Packed, Words, Start, Position, WordIndex, Offset, Fit;
    FitsHere(codes, w, n, Start(w, q), if q + 1 == Words(n, w) then n else Start(w, q + 1));
    PackedField(codes, w, Start(w, q), if q + 1 == Words(n, w) then n else Start(w, q + 1), Position(w, s));
  }

  lemma DecodeIs(word: Word, w: nat, id: nat)
    requires Width(w) && id < PerWord(w)
    ensures Offset(w, id) + w <= WORD_BITS
    ensures Decode(word, w, id) == Val(word[Offset(w, id)..Offset(w, id) + w]) < Pow2(w)
  {
    FieldRead(word, Offset(w, id), w);
    ValBound(word[Offset(w, id)..Offset(w, id) + w]);
  }

  lemma ValFits(c: nat, w: nat)
    requires c < Pow2(w)
    ensures Val(ToBits(c, w)) == c
  {
    hide Val, ToBits, Pow2;
    ValToBits(c, w);
    SmallIsItself(c, Pow2(w));
  }

  lemma SmallIsItself(c: nat, p: nat)
    requires c < p
    ensures c % p == c
  {
  }

  /** Packing and decoding returns the codes exactly when every one of them fits the width. */
  lemma RoundTripExactlyWhenFit(codes: seq<nat>, n: nat, w: nat, rest: seq<Word>)
    requires Width(w) && n <= |codes|
    ensures forall s :: 0 <= s < n ==> WordIndex(w, s) < |Packed(codes, n, w) + rest|
    ensures (forall s :: 0 <= s < n ==> Slot(Packed(codes, n, w) + rest, w, s) == codes[s]) <==> Fit(codes, w, 0, n)
  {
    hide ToBits, PackWord, And, Shr, Mask;
    var words := Packed(codes, n, w) + rest;
    forall s | 0 <= s < n ensures WordIndex(w, s) < |words| && Slot(words, w, s) < Pow2(w) {
      SlotInRange(n, w, s);
      DecodeIs(words[WordIndex(w, s)], w, Position(w, s));
    }
    if Fit(codes, w, 0, n) {
      forall s | 0 <= s < n ensures Slot(words, w, s) == codes[s] {
        SlotHolds(codes, n, w, rest, s);
        DecodeIs(words[WordIndex(w, s)], w, Position(w, s));
        ValFits(codes[s], w);
      }
    }
  }

  /** The decoding loop over a block; the mask is an `int`, so 32-bit codes are beyond it. */
  method DecodeBlock(buffer: array<Word>, length: nat, w: nat) returns (values: seq<nat>)
    requires Width(w) && w < 32 && length <= buffer.Length
    ensures |values| == Start(w, length)
    ensures forall s :: 0 <= s < |values| ==> WordIndex(w, s) < length && values[s] == Slot(buffer[..length], w, s)
  {
    hide And, Shr, Mask, Decode;
    values := [];
    for buffId := 0 to length
      invariant |values| == Start(w, buffId)
      invariant forall s :: 0 <= s < |values| ==> WordIndex(w, s) < buffId && values[s] == Slot(buffer[..length], w, s)
    {
      var currWord := buffer[buffId];
      for id := 0 to PerWord(w)
        invariant |values| == Start(w, buffId) + id
        invariant forall s :: 0 <= s < |values| ==>
          WordIndex(w, s) <= buffId && values[s] == Slot(buffer[..length], w, s)
      {
        assert WordIndex(w, |values|) == buffId && Position(w, |values|) == id;
        values := values + [Decode(currWord, w, id)];
      }
    }
  }
}
