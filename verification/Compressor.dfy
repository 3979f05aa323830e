/** The dictionary encoder: an ordered map from raw values to codes, the encoded column, and the
    code width written to the metadata. The raw values may be of any type with a strict total
    order (`int`, or `std::string` in its lexicographic order). */
module Compressor {
  import opened Bits

  ghost predicate StrictTotalOrder<K(!new)>(less: (K, K) -> bool) {
    && (forall x :: !less(x, x))
    && (forall x, y :: x != y ==> less(x, y) || less(y, x))
    && (forall x, y, z :: less(x, y) && less(y, z) ==> less(x, z))
  }

  /** The keys of a dictionary below `k`; their number is the code of `k`. */
  ghost function Below<K(!new)>(less: (K, K) -> bool, keys: set<K>, k: K): set<K> {
    set x | x in keys && less(x, k)
  }

  ghost function Rank<K(!new)>(less: (K, K) -> bool, keys: set<K>, k: K): nat {
    |Below(less, keys, k)|
  }

  ghost function Keys<K>(values: seq<K>): set<K> { set v | v in values }

  /** Codes preserve order: comparing codes is comparing values. */
  lemma RankIsMonotone<K(!new)>(less: (K, K) -> bool, keys: set<K>, a: K, b: K)
    requires StrictTotalOrder(less) && a in keys && b in keys
    ensures less(a, b) <==> Rank(less, keys, a) < Rank(less, keys, b)
    ensures a == b <==> Rank(less, keys, a) == Rank(less, keys, b)
  {
    if less(a, b) {
      RankIncreases(less, keys, a, b);
    } else if a != b {
      RankIncreases(less, keys, b, a);
    }
  }

  lemma RankIncreases<K(!new)>(less: (K, K) -> bool, keys: set<K>, a: K, b: K)
    requires StrictTotalOrder(less) && a in keys && less(a, b)
    ensures Rank(less, keys, a) < Rank(less, keys, b)
  {
    assert Below(less, keys, a) + {a} <= Below(less, keys, b);
    SubsetSize(Below(less, keys, a) + {a}, Below(less, keys, b));
  }

  lemma SubsetSize<T>(a: set<T>, b: set<T>)
    requires a <= b
    ensures |a| <= |b|
  {
    assert b == a + (b - a);
  }

  lemma RankBound<K(!new)>(less: (K, K) -> bool, keys: set<K>, k: K)
    requires StrictTotalOrder(less) && k in keys
    ensures Rank(less, keys, k) < |keys|
  {
    assert Below(less, keys, k) <= keys - {k};
    SubsetSize(Below(less, keys, k), keys - {k});
  }

  /** Every number below the number of keys is the code of some key. */
  lemma RankIsOnto<K(!new)>(less: (K, K) -> bool, keys: set<K>, i: nat) returns (k: K)
    requires StrictTotalOrder(less) && i < |keys|
    ensures k in keys && Rank(less, keys, k) == i
  {
    k := AnyLeast(less, keys);
    if i == 0 {
      assert Below(less, keys, k) == {};
    } else {
      var first := k;
      k := RankIsOnto(less, keys - {first}, i - 1);
      assert Below(less, keys, k) == Below(less, keys - {first}, k) + {first};
    }
  }

  ghost predicate Least<K(!new)>(less: (K, K) -> bool, keys: set<K>, k: K) {
    k in keys && forall x :: x in keys && x != k ==> less(k, x)
  }

  lemma AnyLeast<K(!new)>(less: (K, K) -> bool, keys: set<K>) returns (k: K)
    requires StrictTotalOrder(less) && keys != {}
    ensures Least(less, keys, k)
  {
    k :| k in keys;
    if keys != {k} {
      var rest := keys - {k};
      assert keys == rest + {k};
      assert rest != {};
      var other := AnyLeast(less, rest);
      if less(other, k) { k := other; }
    }
  }

  /** All keys numbered so far are below all keys to come. */
  ghost predicate Split<K(!new)>(less: (K, K) -> bool, keys: set<K>, later: set<K>) {
    forall x, y :: x in keys && x !in later && y in later ==> less(x, y)
  }

  lemma SplitNext<K(!new)>(less: (K, K) -> bool, keys: set<K>, later: set<K>, k: K)
    requires StrictTotalOrder(less) && later <= keys && Split(less, keys, later) && Least(less, later, k)
    ensures Split(less, keys, later - {k}) && Rank(less, keys, k) == |keys - later|
    ensures |keys - (later - {k})| == |keys - later| + 1
  {
    assert Below(less, keys, k) == keys - later;
    assert keys - (later - {k}) == (keys - later) + {k};
  }

  /** `ceil(log2(n))`, exactly. */
  function CeilLog2(n: nat): (k: nat)
    requires n >= 1
    ensures n <= Pow2(k) && (k > 0 ==> Pow2(k - 1) < n)
  {
    if n == 1 then 0 else 1 + CeilLog2((n + 1) / 2)
  }

  /** -1 stored as `uint32_t`, until codes are assigned. */
  const UNASSIGNED := 0xFFFF_FFFF

  /** What looking a value up yields. */
  function CodeOf<K(==)>(bitMapping: map<K, nat>, k: K): nat { if k in bitMapping then bitMapping[k] else 0 }

  lemma NoKeys<K>()
    ensures Keys<K>([]) == {}
  {
  }

  lemma NextKeys<K>(was: set<K>, values: seq<K>, i: nat)
    requires i < |values|
    ensures was + Keys(values[..i + 1]) == (was + Keys(values[..i])) + {values[i]}
  {
    assert values[..i + 1] == values[..i] + [values[i]];
  }

  lemma NewKey<K>(m: map<K, nat>, k: K, code: nat)
    requires k !in m
    ensures m[k := code].Keys == m.Keys + {k} && |m[k := code].Keys| == |m.Keys| + 1
  {
    assert m[k := code].Keys == m.Keys + {k};
  }

  class Compressor<K(==, !new)> {
    const less: (K, K) -> bool
    var bitMapping: map<K, nat>
    var distinctKeys: int
    var bitSize: int

    constructor (less: (K, K) -> bool)
      ensures this.less == less && bitMapping == map[] && distinctKeys == -1 && bitSize == -1
    {
      this.less, bitMapping, distinctKeys, bitSize := less, map[], -1, -1;
    }

    /** Afterwards every value of the column has its rank as its code. `distinctKeys` grows by the
        number of new values; having started at -1, it is one less than there are. */
    method ParseColumn(file: seq<K>)
      requires StrictTotalOrder(less)
      modifies this`bitMapping, this`distinctKeys
      ensures bitMapping.Keys == old(bitMapping.Keys) + Keys(file)
      ensures forall k :: k in bitMapping ==> bitMapping[k] == Rank(less, bitMapping.Keys, k)
      ensures distinctKeys - |bitMapping.Keys| == old(distinctKeys - |bitMapping.Keys|)
    {
      hide StrictTotalOrder, Rank, Keys;
      CollectKeys(file);
      OrderEncodings();
    }

    /** The loop over the file that enters and counts its new values. */
    method CollectKeys(file: seq<K>)
      modifies this`bitMapping, this`distinctKeys
      ensures bitMapping.Keys == old(bitMapping.Keys) + Keys(file)
      ensures distinctKeys - |bitMapping.Keys| == old(distinctKeys - |bitMapping.Keys|)
    {
      hide Keys;
      NoKeys<K>();
      ghost var was, lead := bitMapping.Keys, distinctKeys - |bitMapping.Keys|;
      for i := 0 to |file|
        invariant bitMapping.Keys == was + Keys(file[..i])
        invariant distinctKeys == lead + |bitMapping.Keys|
      {
        NextKeys(was, file, i);
        if file[i] !in bitMapping {
          NewKey(bitMapping, file[i], UNASSIGNED);
          bitMapping := bitMapping[file[i] := UNASSIGNED];
          distinctKeys := distinctKeys + 1;
        }
      }
      assert file[..|file|] == file;
    }

    /** The loop over the ordered map that numbers its keys. */
    method OrderEncodings()
      requires StrictTotalOrder(less)
      modifies this`bitMapping
      ensures bitMapping.Keys == old(bitMapping.Keys)
      ensures forall k :: k in bitMapping ==> bitMapping[k] == Rank(less, bitMapping.Keys, k)
    {
      hide StrictTotalOrder;
      ghost var keys := bitMapping.Keys;
      var index, later := 0, bitMapping.Keys;
      while later != {}
        invariant bitMapping.Keys == keys && later <= keys && Split(less, keys, later)
        invariant index == |keys - later|
        invariant forall k :: k in keys - later ==> bitMapping[k] == Rank(less, keys, k)
        decreases |later|
      {
        var cur := NextKey(later);
        SplitNext(less, keys, later, cur);
        bitMapping := bitMapping[cur := index];
        index := index + 1;
        later := later - {cur};
      }
    }

    /** The next key of the ordered map's iteration. */
    method NextKey(keys: set<K>) returns (k: K)
      requires StrictTotalOrder(less) && keys != {}
      ensures Least(less, keys, k)
    {
      var left := keys;
      k :| k in left;
      left := left - {k};
      while left != {}
        invariant k in keys && k !in left && left <= keys
        invariant forall x :: x in keys && x !in left && x != k ==> less(k, x)
        decreases |left|
      {
        var x :| x in left;
        left := left - {x};
        if less(x, k) { k := x; }
      }
    }

    /** `std::map::operator[]` inserts a missing key with code 0; with the file that was parsed no
        key is missing. */
    method WriteCompressedValues(file: seq<K>) returns (codes: seq<nat>)
      modifies this`bitMapping
      ensures |codes| == |file|
      ensures forall i :: 0 <= i < |file| ==> codes[i] == CodeOf(old(bitMapping), file[i])
      ensures forall i :: 0 <= i < |file| && file[i] !in old(bitMapping) ==> codes[i] == 0
      ensures Keys(file) <= old(bitMapping.Keys) ==> bitMapping == old(bitMapping)
    {
      codes := [];
      for i := 0 to |file|
        invariant |codes| == i
        invariant forall k :: CodeOf(bitMapping, k) == CodeOf(old(bitMapping), k)
        invariant forall j :: 0 <= j < i ==> codes[j] == CodeOf(old(bitMapping), file[j])
        invariant Keys(file) <= old(bitMapping.Keys) ==> bitMapping == old(bitMapping)
      {
        if file[i] !in bitMapping {
          assert file[i] in Keys(file);
          bitMapping := bitMapping[file[i] := 0];
        }
        codes := codes + [bitMapping[file[i]]];
      }
    }

    /** With at least two distinct values; `log2(0)` is not part of this model. */
    method WriteMetaData()
      requires distinctKeys >= 1
      modifies this`bitSize
      ensures bitSize == BitSize(distinctKeys)
    {
      if distinctKeys == 1 {
        bitSize := 1;
      } else {
        var round := CeilLog2(distinctKeys);
        RoundPositive(distinctKeys);
        bitSize := CeilLog2(round);
        if Pow2(bitSize) == round { bitSize := bitSize + 1; }
        WidthSteps(distinctKeys, bitSize);
        bitSize := Pow2(bitSize) - 1;
      }
      if bitSize < 8 {
        bitSize := 7;
      } else if bitSize < 16 {
        bitSize := 15;
      } else {
        bitSize := 31;
      }
    }
  }

  lemma CeilLog2AtMost(n: nat, k: nat)
    requires n >= 1
    ensures CeilLog2(n) <= k <==> n <= Pow2(k)
  {
    if CeilLog2(n) <= k {
      Pow2Monotone(CeilLog2(n), k);
    } else {
      Pow2Monotone(k, CeilLog2(n) - 1);
    }
  }

  lemma PowerAtMost(c: nat, round: nat, k: nat)
    requires Pow2(c) > round && (c > 0 ==> Pow2(c - 1) <= round)
    ensures Pow2(c) <= Pow2(k) <==> round < Pow2(k)
  {
    if c <= k {
      Pow2Monotone(c, k);
    } else {
      Pow2Monotone(k, c - 1);
    }
  }

  /** Where the rounded-up exponent leaves the first and the second step. */
  lemma WidthSteps(n: nat, c: nat)
    requires n >= 2 && Pow2(c) > CeilLog2(n) && (c > 0 ==> Pow2(c - 1) <= CeilLog2(n))
    ensures Pow2(c) - 1 < 8 <==> n <= 128
    ensures Pow2(c) - 1 < 16 <==> n <= 32768
  {
    PowerAtMost(c, CeilLog2(n), 3);
    PowerAtMost(c, CeilLog2(n), 4);
    CeilLog2AtMost(n, 7);
    CeilLog2AtMost(n, 15);
    assert Pow2(3) == 8 && Pow2(4) == 16 && Pow2(7) == 128;
    assert Pow2(15) == 32768 by { Pow2Add(7, 8); assert Pow2(8) == 256; }
  }

  lemma RoundPositive(n: nat)
    requires n >= 2
    ensures CeilLog2(n) >= 1
  {
  }

  /** What `writeMetaData` amounts to: the width grows in steps at 2^7 and 2^15 counted keys. */
  function BitSize(distinctKeys: nat): nat {
    if distinctKeys <= 128 then 7 else if distinctKeys <= 32768 then 15 else 31
  }

  /** `Column::initializeColumn` adds one to the stored size. */
  function EncodingWidth(distinctKeys: nat): nat { BitSize(distinctKeys) + 1 }

  /** Every code of a dictionary of 2 to 2^31 values fits the column's width, although the
      width is computed from one value less. */
  lemma CodesFit<K(!new)>(less: (K, K) -> bool, keys: set<K>, k: K)
    requires StrictTotalOrder(less) && k in keys && 2 <= |keys| <= Pow2(31)
    ensures Rank(less, keys, k) < Pow2(EncodingWidth(|keys| - 1))
  {
    RankBound(less, keys, k);
    assert Pow2(8) == 256;
    assert Pow2(16) == 65536 by { Pow2Add(8, 8); }
    Pow2Monotone(31, 32);
  }

  /** The width is not always the least that would do: from 130 to 256 values, 16 bits are
      chosen although 8 would hold every code. */
  lemma WidthVersusNeed<K(!new)>(less: (K, K) -> bool, keys: set<K>)
    requires StrictTotalOrder(less) && 2 <= |keys| <= 65536
    ensures (EncodingWidth(|keys| - 1) == 8 <==> |keys| <= 129) && (EncodingWidth(|keys| - 1) > 16 <==> |keys| > 32769)
    ensures (forall k :: k in keys ==> Rank(less, keys, k) < Pow2(8)) <==> |keys| <= 256
  {
    assert Pow2(8) == 256;
    forall k | k in keys ensures Rank(less, keys, k) < |keys| { RankBound(less, keys, k); }
    if |keys| > 256 {
      var k := RankIsOnto(less, keys, 256);
    }
  }
}
