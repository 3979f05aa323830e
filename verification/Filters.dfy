/** The comparison units of the accelerators: how a cache line of packed codes becomes a line
    of result bits, one bit per code. */
module Filters {
  import opened Bits

  datatype Pred = Equals(value: nat) | Between(lower: nat, upper: nat) | AtMost(value: nat) | AtLeast(value: nat)
  {
    predicate Holds(x: nat) {
      match this
      case Equals(v) => x == v
      case Between(lo, hi) => lo <= x && x <= hi
      case AtMost(v) => x <= v
      case AtLeast(v) => x >= v
    }
  }

  /** The encoding widths of packed columns. */
  predicate Width(w: nat) { w == 4 || w == 8 || w == 16 || w == 32 }

  /** Code `i` of a vector of `w`-bit codes: the part-select `b[i * w +: w]`. */
  function Field(b: Bits, i: nat, w: nat): (f: Bits)
    requires (i + 1) * w <= |b|
    ensures |f| == w
  {
    assert i * w <= (i + 1) * w;
    b[i * w..(i + 1) * w]
  }

  lemma FieldFits(i: nat, w: nat, n: nat)
    requires Width(w) && i < n / w
    ensures (i + 1) * w <= n
  {
  }

  /** Does the predicate hold of code `i` of the line? Lanes beyond the line read as 0. */
  predicate Lane(p: Pred, w: nat, line: Line, i: nat)
    requires Width(w)
  {
    i < LINE_BITS / w && (FieldFits(i, w, LINE_BITS); p.Holds(Val(Field(line, i, w))))
  }

  /** The whole-line comparison: bit `i` answers for code `i`, all higher bits are zero. */
  function WideFilter(p: Pred, w: nat, line: Line): (r: Line)
    requires Width(w)
    ensures forall i :: 0 <= i < LINE_BITS ==> r[i] == Lane(p, w, line, i)
  {
    seq(LINE_BITS, i requires 0 <= i < LINE_BITS => Lane(p, w, line, i))
  }

  /** A comparison unit's output registers. */
  datatype Unit = Unit(done: bool, result: Bits)

  function Clear(n: nat): Unit { Unit(false, Zeros(n)) }

  /** A 512-bit unit (`d_year`, `lo_discount`, `lo_quantity`): an enabled clock edge writes the
      lanes it has and leaves the bits above them alone. */
  function WideUnitNext(u: Unit, reset: bool, en: bool, p: Pred, w: nat, line: Line): Unit
    requires Width(w) && |u.result| == LINE_BITS
  {
    if reset then Clear(LINE_BITS)
    else if en then Unit(true, WideFilter(p, w, line)[..LINE_BITS / w] + u.result[LINE_BITS / w..])
    else u
  }

  /** One 16-way stage (`p16`) looking at its own 64-bit slice of the line. */
  function P16Next(u: Unit, reset: bool, en: bool, p: Pred, slice: Word): Unit {
    if reset then Clear(16)
    else if en then Unit(true, seq(16, i requires 0 <= i < 16 => p.Holds(Val(slice[4 * i..4 * i + 4]))))
    else u
  }

  lemma WideUnitResult(u: Unit, p: Pred, w: nat, line: Line)
    requires Width(w) && u == Clear(LINE_BITS)
    ensures WideUnitNext(u, false, true, p, w, line) == Unit(true, WideFilter(p, w, line))
  {
    var f := WideFilter(p, w, line);
    assert f[..LINE_BITS / w] + u.result[LINE_BITS / w..] == f;
  }

  /** A second enabled edge on the same line changes nothing. */
  lemma WideUnitStable(p: Pred, w: nat, line: Line)
    requires Width(w)
    ensures var u := Unit(true, WideFilter(p, w, line)); WideUnitNext(u, false, true, p, w, line) == u
  {
    var f := WideFilter(p, w, line);
    assert f[..LINE_BITS / w] + f[LINE_BITS / w..] == f;
  }

  /** Stage `k` of the cascade computes slice `k` of the whole-line comparison. */
  lemma P16IsSlice(u: Unit, p: Pred, line: Line, k: nat)
    requires k < 8
    ensures P16Next(u, false, true, p, line[64 * k..64 * k + 64])
            == Unit(true, WideFilter(p, 4, line)[16 * k..16 * k + 16])
  {
    var slice: Word := line[64 * k..64 * k + 64];
    forall i | 0 <= i < 16
      ensures p.Holds(Val(slice[4 * i..4 * i + 4])) == Lane(p, 4, line, 16 * k + i)
    {
      var lo := 64 * k + 4 * i;
      assert (16 * k + i) * 4 == lo && (16 * k + i + 1) * 4 == lo + 4;
      assert Field(line, 16 * k + i, 4) == line[lo..lo + 4] == slice[4 * i..4 * i + 4];
    }
    var got, want := P16Next(u, false, true, p, slice).result, WideFilter(p, 4, line)[16 * k..16 * k + 16];
    forall i | 0 <= i < 16 ensures got[i] == want[i] {
      assert want[i] == WideFilter(p, 4, line)[16 * k + i];
    }
    assert got == want;
  }
}
