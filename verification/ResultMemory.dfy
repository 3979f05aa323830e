/** What the issued writes leave in memory. */
module ResultMemory {
  import opened Bits
  import opened ScanAfu
  import opened ScanSession
  import opened Lines

  /** The line at `a` after `writes`, in the order they were issued. */
  function After(mem: Memory, writes: seq<Write>, a: nat): Line {
    if writes == [] then mem(a)
    else var last := writes[|writes| - 1];
         if last.addr == a then last.data else After(mem, writes[..|writes| - 1], a)
  }

  lemma {:induction false} AfterOthers(mem: Memory, first: seq<Write>, second: seq<Write>, a: nat)
    requires forall i :: 0 <= i < |second| ==> second[i].addr != a
    ensures After(mem, first + second, a) == After(mem, first, a)
  {
    if second == [] {
      assert first + second == first;
    } else {
      var n := |second| - 1;
      assert (first + second)[..|first| + n] == first + second[..n];
      AfterOthers(mem, first, second[..n], a);
    }
  }

  lemma {:induction false} IssuedFrom(lines: seq<Attempt>, i: nat) returns (j: nat)
    requires i < |Issued(lines)|
    ensures j < |lines| && lines[j].issued && Issued(lines)[i] == Write(lines[j].addr, lines[j].data)
  {
    var n := |lines| - 1;
    if i < |Issued(lines[..n])| { j := IssuedFrom(lines[..n], i); } else { j := n; }
  }

  lemma {:induction false} AllIssuedFrom(groups: seq<seq<Attempt>>, i: nat) returns (k: nat, j: nat)
    requires i < |AllIssued(groups)|
    ensures k < |groups| && j < |groups[k]| && AllIssued(groups)[i] == Write(groups[k][j].addr, groups[k][j].data)
  {
    var n := |groups| - 1;
    var before := |AllIssued(groups[..n])|;
    if i < before {
      k, j := AllIssuedFrom(groups[..n], i);
    } else {
      k := n;
      j := IssuedFrom(groups[n], i - before);
    }
  }

  /** A line that no completed line goes to is as it was. */
  lemma UntouchedLine(mem: Memory, groups: seq<seq<Attempt>>, a: nat)
    requires forall k, j :: 0 <= k < |groups| && 0 <= j < |groups[k]| ==> groups[k][j].addr != a
    ensures After(mem, AllIssued(groups), a) == mem(a)
  {
    var writes := AllIssued(groups);
    forall i | 0 <= i < |writes| ensures writes[i].addr != a {
      var k, j := AllIssuedFrom(groups, i);
    }
    AfterOthers(mem, [], writes, a);
    assert [] + writes == writes;
  }

  /** The last line of a group issued to an address decides what is there; if none is, what was
      there before. */
  lemma {:induction false} LastOfLines(mem: Memory, before: seq<Write>, lines: seq<Attempt>, a: nat) returns (i: int)
    ensures -1 <= i < |lines|
    ensures i >= 0 ==> lines[i].issued && lines[i].addr == a
    ensures After(mem, before + Issued(lines), a) == if i >= 0 then lines[i].data else After(mem, before, a)
    ensures forall l :: i < l < |lines| && lines[l].issued ==> lines[l].addr != a
  {
    if lines == [] {
      i := -1;
      assert before + Issued(lines) == before;
    } else {
      var n := |lines| - 1;
      var last := if lines[n].issued then [Write(lines[n].addr, lines[n].data)] else [];
      assert before + Issued(lines) == (before + Issued(lines[..n])) + last;
      i := LastOfLines(mem, before, lines[..n], a);
      if lines[n].issued && lines[n].addr == a {
        i := n;
      } else {
        AfterOthers(mem, before + Issued(lines[..n]), last, a);
      }
    }
  }

  /** What memory holds at the address of an issued line is the last line issued to that address,
      itself or a later one. */
  lemma {:induction false} GroupLands(mem: Memory, groups: seq<seq<Attempt>>, k: nat, j: nat) returns (g: nat, i: nat)
    requires k < |groups| && j < |groups[k]| && groups[k][j].issued
    ensures k <= g < |groups| && i < |groups[g]| && (g == k ==> j <= i)
    ensures groups[g][i].issued && groups[g][i].addr == groups[k][j].addr
    ensures After(mem, AllIssued(groups), groups[k][j].addr) == groups[g][i].data
  {
    var n, a := |groups| - 1, groups[k][j].addr;
    var late := LastOfLines(mem, AllIssued(groups[..n]), groups[n], a);
    if late >= 0 {
      g, i := n, late;
    } else {
      g, i := GroupLands(mem, groups[..n], k, j);
    }
  }

  ghost predicate NoneBlocked(groups: seq<seq<Attempt>>) {
    forall k, j :: 0 <= k < |groups| && 0 <= j < |groups[k]| ==> groups[k][j].issued
  }

  /** Two buffers of a page each share no byte. */
  ghost predicate Apart(a: nat, b: nat) {
    forall i, j :: 0 <= i < 4096 && 0 <= j < 4096 ==> ByteOf(a, i) != ByteOf(b, j)
  }

  /** Then they share no line. */
  lemma ApartLines(a: nat, b: nat, i: nat, j: nat)
    requires Apart(a, b) && a % 64 == 0 == b % 64 && i < 64 && j < 64
    ensures LineAddr(ClAddr(a), i) != LineAddr(ClAddr(b), j)
  {
    hide LineAddr, ClAddr, ByteOf;
    LineOfByte(a, 64 * i);
    LineOfByte(b, 64 * j);
    assert ByteOf(a, 64 * i) != ByteOf(b, 64 * j);
  }

  lemma LinesOfABufferDiffer(a: nat, i: nat, j: nat)
    requires i < j < 64
    ensures LineAddr(a, i) != LineAddr(a, j)
  {
    hide LineAddr;
    AddrIs(a, i);
    AddrIs(a, j);
  }

  lemma AddrIs(a: nat, i: nat)
    requires i < 64
    ensures var m := a % CL_ADDRESSES;
            LineAddr(a, i) == if m + i < CL_ADDRESSES then m + i else m + i - CL_ADDRESSES
  {
    var m, q := a % CL_ADDRESSES, a / CL_ADDRESSES;
    if m + i < CL_ADDRESSES {
      ModUnique(a + i, CL_ADDRESSES, q, m + i);
    } else {
      ModUnique(a + i, CL_ADDRESSES, q + 1, m + i - CL_ADDRESSES);
    }
  }

  /** The byte at `place`: line `a` of the memory is bytes `64 * a` to `64 * a + 63`. */
  function ByteAt(mem: Memory, place: nat): Bits { mem(place / 64)[8 * (place % 64)..8 * (place % 64) + 8] }

  /** A page-sized, line-aligned buffer of words in memory, byte by byte, low byte first. */
  ghost predicate Holds(mem: Memory, buff: nat, words: seq<Word>) {
    && |words| == 512 && buff % 64 == 0
    && forall o :: 0 <= o < 4096 ==> ByteAt(mem, ByteOf(buff, o)) == words[o / 8][8 * (o % 8)..8 * (o % 8) + 8]
  }

  /** It is what the accelerator reads and writes line by line. */
  lemma HoldsLine(mem: Memory, buff: nat, words: seq<Word>, j: nat)
    requires Holds(mem, buff, words) && j < 64
    ensures mem(LineAddr(ClAddr(buff), j)) == LineOf(words, j)
  {
    hide LineOf, LineAddr, ClAddr, ByteOf;
    var line := mem(LineAddr(ClAddr(buff), j));
    forall k | 0 <= k < 8 ensures line[64 * k..64 * k + 64] == words[8 * j + k] {
      forall t | 0 <= t < 8 ensures line[64 * k + 8 * t..64 * k + 8 * t + 8] == words[8 * j + k][8 * t..8 * t + 8] {
        BufferByte(mem, buff, words, j, k, t);
      }
      BytesMakeWord(line, 64 * k, words[8 * j + k]);
    }
    WordsMakeLine(words, j, line);
  }

  lemma BufferByte(mem: Memory, buff: nat, words: seq<Word>, j: nat, k: nat, t: nat)
    requires Holds(mem, buff, words) && j < 64 && k < 8 && t < 8
    ensures mem(LineAddr(ClAddr(buff), j))[64 * k + 8 * t..64 * k + 8 * t + 8] == words[8 * j + k][8 * t..8 * t + 8]
  {
    hide LineAddr, ClAddr, ByteOf;
    var o := 64 * j + 8 * k + t;
    LineOfByte(buff, o);
    assert o / 64 == j && o % 64 == 8 * k + t && o / 8 == 8 * j + k && o % 8 == t;
  }

  lemma BytesMakeWord(line: Bits, at: nat, word: Word)
    requires at + 64 <= |line|
    requires forall t :: 0 <= t < 8 ==> line[at + 8 * t..at + 8 * t + 8] == word[8 * t..8 * t + 8]
    ensures line[at..at + 64] == word
  {
    forall i | 0 <= i < 64 ensures line[at + i] == word[i] {
      var t := i / 8;
      assert line[at + 8 * t..at + 8 * t + 8][i % 8] == word[8 * t..8 * t + 8][i % 8];
    }
  }

  lemma WordsMakeLine(words: seq<Word>, j: nat, line: Line)
    requires 8 * j + 8 <= |words| && forall k :: 0 <= k < 8 ==> line[64 * k..64 * k + 64] == words[8 * j + k]
    ensures line == LineOf(words, j)
  {
    forall i | 0 <= i < 512 ensures line[i] == LineOf(words, j)[i] {
      var k := i / 64;
      LineWord(words, j, k);
      assert line[64 * k..64 * k + 64][i % 64] == LineOf(words, j)[64 * k..64 * k + 64][i % 64];
    }
  }

  /** Writes elsewhere leave a buffer alone. */
  lemma HoldsStill(mem: Memory, mem': Memory, buff: nat, words: seq<Word>)
    requires Holds(mem, buff, words)
    requires forall j :: 0 <= j < 64 ==> mem'(LineAddr(ClAddr(buff), j)) == mem(LineAddr(ClAddr(buff), j))
    ensures Holds(mem', buff, words)
  {
    hide LineAddr, ClAddr, ByteOf;
    forall o | 0 <= o < 4096
      ensures ByteAt(mem', ByteOf(buff, o)) == words[o / 8][8 * (o % 8)..8 * (o % 8) + 8]
    {
      LineOfByte(buff, o);
      assert ByteAt(mem, ByteOf(buff, o)) == words[o / 8][8 * (o % 8)..8 * (o % 8) + 8];
    }
  }
}
