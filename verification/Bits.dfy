/** Fixed-width machine words and cache lines as bit vectors, least significant bit first.
    A `uint64_t` is a `Word` of 64 bits, a cache line a `Line` of 512 bits, so an RTL
    part-select `x[hi:lo]` is the slice `x[lo..hi+1]`. */
module Bits {

  type Bits = seq<bool>
  const WORD_BITS := 64
  const LINE_BITS := 512
  type Word = b: Bits | |b| == WORD_BITS witness seq(64, _ => false)
  type Line = b: Bits | |b| == LINE_BITS witness seq(512, _ => false)

  function Pow2(n: nat): (p: nat)
    ensures p >= 1
  {
    if n == 0 then 1 else 2 * Pow2(n - 1)
  }

  /** The unsigned value of a bit vector. */
  function Val(b: Bits): nat {
    if b == [] then 0 else (if b[0] then 1 else 0) + 2 * Val(b[1..])
  }

  /** The low `len` bits of `n`. */
  function ToBits(n: nat, len: nat): (b: Bits)
    ensures |b| == len
  {
    if len == 0 then [] else [n % 2 == 1] + ToBits(n / 2, len - 1)
  }

  function Zeros(len: nat): (b: Bits)
    ensures |b| == len
  {
    seq(len, _ => false)
  }

  function Ones(len: nat): (b: Bits)
    ensures |b| == len
  {
    seq(len, _ => true)
  }

  function Or(a: Bits, b: Bits): (r: Bits)
    requires |a| == |b|
    ensures |r| == |a|
  {
    seq(|a|, i requires 0 <= i < |a| => a[i] || b[i])
  }

  function And(a: Bits, b: Bits): (r: Bits)
    requires |a| == |b|
    ensures |r| == |a|
  {
    seq(|a|, i requires 0 <= i < |a| => a[i] && b[i])
  }

  /** `b << k`: bits shifted out at the top are lost. */
  function Shl(b: Bits, k: nat): (r: Bits)
    ensures |r| == |b|
  {
    if k >= |b| then Zeros(|b|) else Zeros(k) + b[..|b| - k]
  }

  /** `b >> k` on an unsigned word. */
  function Shr(b: Bits, k: nat): (r: Bits)
    ensures |r| == |b|
  {
    if k >= |b| then Zeros(|b|) else b[k..] + Zeros(k)
  }

  /** `std::bitset::count` and `__builtin_popcountl`. */
  function PopCount(b: Bits): nat {
    if b == [] then 0 else (if b[0] then 1 else 0) + PopCount(b[1..])
  }

  lemma {:induction false} Pow2Monotone(m: nat, n: nat)
    requires m <= n
    ensures Pow2(m) <= Pow2(n)
    decreases n - m
  {
    if m < n { Pow2Monotone(m, n - 1); }
  }

  lemma {:induction false} Pow2Add(m: nat, n: nat)
    ensures Pow2(m + n) == Pow2(m) * Pow2(n)
  {
    if m > 0 { Pow2Add(m - 1, n); }
  }

  lemma {:induction false} ValBound(b: Bits)
    ensures Val(b) < Pow2(|b|)
  {
    if b != [] { ValBound(b[1..]); }
  }

  /** Writing a number down and reading it back keeps its low bits. */
  lemma {:induction false} ValToBits(n: nat, len: nat)
    ensures Val(ToBits(n, len)) == n % Pow2(len)
  {
    if len > 0 {
      var p := Pow2(len - 1);
      ValToBits(n / 2, len - 1);
      assert ToBits(n, len)[1..] == ToBits(n / 2, len - 1);
      DoubleMod(n, p);
    }
  }

  lemma DoubleMod(n: nat, p: nat)
    requires p > 0
    ensures n % (2 * p) == n % 2 + 2 * ((n / 2) % p)
  {
    var h, q := n / 2, (n / 2) / p;
    assert h == q * p + h % p;
    assert n == q * (2 * p) + (n % 2 + 2 * (h % p));
    ModUnique(n, 2 * p, q, n % 2 + 2 * (h % p));
  }

  lemma ModUnique(n: nat, m: nat, q: nat, r: nat)
    requires n == q * m + r && r < m
    ensures n % m == r && n / m == q
  {
    var k := n / m;
    assert (k - q) * m == r - n % m;
    if k > q {
      MulAtLeast(k - q, m);
    } else if k < q {
      MulAtLeast(q - k, m);
    }
  }

  lemma MulAtLeast(k: nat, m: nat)
    requires k >= 1
    ensures k * m >= m
  {
  }

  lemma {:induction false} ToBitsVal(b: Bits)
    ensures ToBits(Val(b), |b|) == b
  {
    if b != [] { ToBitsVal(b[1..]); }
  }

  lemma {:induction false} ToBitsPrefix(n: nat, w: nat, len: nat)
    requires w <= len
    ensures ToBits(n, len)[..w] == ToBits(n, w)
  {
    if w > 0 {
      ToBitsPrefix(n / 2, w - 1, len - 1);
      assert ToBits(n, len)[..w] == [n % 2 == 1] + ToBits(n / 2, len - 1)[..w - 1];
    }
  }

  lemma {:induction false} ToBitsHigh(n: nat, w: nat, len: nat)
    requires w <= len && n < Pow2(w)
    ensures ToBits(n, len)[w..] == Zeros(len - w)
  {
    if w > 0 {
      ToBitsHigh(n / 2, w - 1, len - 1);
      assert ToBits(n, len)[w..] == ToBits(n / 2, len - 1)[w - 1..];
    } else if len > 0 {
      ToBitsHigh(0, 0, len - 1);
      assert ToBits(0, len)[0..] == [false] + ToBits(0, len - 1)[0..];
    }
  }

  lemma {:induction false} ValZeroExtend(b: Bits, k: nat)
    ensures Val(b + Zeros(k)) == Val(b)
  {
    if b != [] {
      assert (b + Zeros(k))[1..] == b[1..] + Zeros(k);
      ValZeroExtend(b[1..], k);
    } else if k > 0 {
      ValZeroExtend(b, k - 1);
      assert (b + Zeros(k))[1..] == b + Zeros(k - 1);
    }
  }

  lemma {:induction false} OnesBits(w: nat, len: nat)
    requires w <= len
    ensures ToBits(Pow2(w) - 1, len) == Ones(w) + Zeros(len - w)
  {
    if w == 0 {
      ToBitsHigh(0, 0, len);
      assert ToBits(0, len)[0..] == ToBits(0, len);
    } else {
      OnesBits(w - 1, len - 1);
      assert (Pow2(w) - 1) / 2 == Pow2(w - 1) - 1;
      assert ToBits(Pow2(w) - 1, len) == [true] + (Ones(w - 1) + Zeros(len - w));
    }
  }

  /** The mask `2^w - 1` as a word. */
  function Mask(w: nat, len: nat): Bits { ToBits(Pow2(w) - 1, len) }

  /** `(word >> s) & (2^w - 1)` reads exactly the field of `w` bits at position `s`. */
  lemma FieldRead(word: Bits, s: nat, w: nat)
    requires s + w <= |word|
    ensures |Mask(w, |word|)| == |word|
    ensures Val(And(Shr(word, s), Mask(w, |word|))) == Val(word[s..s + w])
  {
    OnesBits(w, |word|);
    var mask := Mask(w, |word|);
    assert mask == Ones(w) + Zeros(|word| - w);
    MaskedShift(word, s, w, mask);
    ValZeroExtend(word[s..s + w], |word| - w);
  }

  lemma MaskedShift(word: Bits, s: nat, w: nat, mask: Bits)
    requires s + w <= |word| && mask == Ones(w) + Zeros(|word| - w)
    ensures And(Shr(word, s), mask) == word[s..s + w] + Zeros(|word| - w)
  {
    var n := |word|;
    var a, b := And(Shr(word, s), mask), word[s..s + w] + Zeros(n - w);
    forall i | 0 <= i < n ensures a[i] == b[i] {
    }
  }

  lemma {:induction false} PopCountConcat(a: Bits, b: Bits)
    ensures PopCount(a + b) == PopCount(a) + PopCount(b)
  {
    if a == [] {
      assert a + b == b;
    } else {
      assert (a + b)[1..] == a[1..] + b;
      PopCountConcat(a[1..], b);
    }
  }
}
