/** A page of words seen as cache lines: eight words to a line. */
module Lines {
  import opened Bits
  import opened Filters
  import opened Partition
  import opened RoundTrip

  function LineOf(words: seq<Word>, j: nat): Line
    requires 8 * j + 8 <= |words|
  {
    Glue(words[8 * j], words[8 * j + 1], words[8 * j + 2], words[8 * j + 3],
         words[8 * j + 4], words[8 * j + 5], words[8 * j + 6], words[8 * j + 7])
  }

  function Glue(a: Bits, b: Bits, c: Bits, d: Bits, e: Bits, f: Bits, g: Bits, h: Bits): Bits {
    a + b + c + d + e + f + g + h
  }

  lemma LineWord(words: seq<Word>, j: nat, k: nat)
    requires 8 * j + 8 <= |words| && k < 8
    ensures LineOf(words, j)[64 * k..64 * k + 64] == words[8 * j + k]
  {
  }

  function Lanes(w: nat): (n: nat)
    requires Width(w)
    ensures n == LINE_BITS / w
  {
    if w == 4 then 128 else if w == 8 then 64 else if w == 16 then 32 else 16
  }

  /** Lane `i` of line `j` is the slot of the word it lies in. */
  lemma LineField(words: seq<Word>, w: nat, j: nat, i: nat)
    requires Width(w) && 8 * j + 8 <= |words| && i < Lanes(w)
    ensures (i + 1) * w <= LINE_BITS && Offset(w, Position(w, i)) + w <= WORD_BITS && WordIndex(w, i) < 8
    ensures Field(LineOf(words, j), i, w)
            == words[8 * j + WordIndex(w, i)][Offset(w, Position(w, i))..Offset(w, Position(w, i)) + w]
  {
    hide LineOf, WordIndex, Offset, Position, Lanes;
    var k, at := WordIndex(w, i), Offset(w, Position(w, i));
    LaneOffset(w, i);
    LineWord(words, j, k);
    SliceOfSlice(LineOf(words, j), 64 * k, 64 * k + 64, at, w);
  }

  lemma SliceOfSlice(b: Bits, lo: nat, hi: nat, at: nat, w: nat)
    requires lo <= hi <= |b| && lo + at + w <= hi
    ensures b[lo..hi][at..at + w] == b[lo + at..lo + at + w]
  {
    var a, c := b[lo..hi][at..at + w], b[lo + at..lo + at + w];
    forall i | 0 <= i < w ensures a[i] == c[i] {
      assert b[lo..hi][at + i] == b[lo + at + i];
    }
  }

  lemma LaneOffset(w: nat, i: nat)
    requires Width(w) && i < Lanes(w)
    ensures WordIndex(w, i) < 8 && Offset(w, Position(w, i)) + w <= WORD_BITS
    ensures i * w == 64 * WordIndex(w, i) + Offset(w, Position(w, i)) && (i + 1) * w == i * w + w <= LINE_BITS
  {
    if w == 4 {
    } else if w == 8 {
    } else if w == 16 {
    } else {
    }
  }

  /** Slot `s` of a page lies in lane `s % Lanes(w)` of line `s / Lanes(w)`. */
  lemma SlotLane(w: nat, j: nat, i: nat)
    requires Width(w) && i < Lanes(w)
    ensures var s := if w == 4 then 128 * j + i else if w == 8 then 64 * j + i
                     else if w == 16 then 32 * j + i else 16 * j + i;
            WordIndex(w, s) == 8 * j + WordIndex(w, i) && Position(w, s) == Position(w, i)
  {
  }
}
