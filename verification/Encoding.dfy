/** From a file of raw values to the packed pages of its column: the encoder's dictionary and
    width, and the store's pages made of them. */
module Encoding {
  import opened Bits
  import opened Filters
  import opened Compressor
  import opened Column
  import opened Partition
  import opened RoundTrip

  /** The width of a dictionary's column is one the store has, with steps after 129 and after 32769
      values. */
  lemma WidthExactlyWhen(n: nat)
    requires n >= 2
    ensures var w := EncodingWidth(n - 1);
      && Width(w) && (w == 8 <==> n <= 129) && (w == 16 <==> 130 <= n <= 32769) && (w == 32 <==> 32770 <= n)
  {
  }

  /** The codes are the ranks of the values. */
  ghost predicate Encodes<K(!new)>(codes: seq<nat>, less: (K, K) -> bool, values: seq<K>) {
    && |values| == |codes|
    && forall r :: 0 <= r < |values| ==> codes[r] == Rank(less, Keys(values), values[r])
  }

  /** They all fit the width chosen for them. */
  lemma EncodedFits<K(!new)>(codes: seq<nat>, less: (K, K) -> bool, values: seq<K>)
    requires StrictTotalOrder(less) && Encodes(codes, less, values) && 2 <= |Keys(values)| <= Pow2(31)
    ensures Fit(codes, EncodingWidth(|Keys(values)| - 1), 0, |codes|)
  {
    hide StrictTotalOrder, Rank, Pow2, EncodingWidth;
    forall r | 0 <= r < |codes| ensures codes[r] < Pow2(EncodingWidth(|Keys(values)| - 1)) {
      CodesFit(less, Keys(values), values[r]);
    }
  }

  /** Parsing, writing the codes and the metadata, and packing: the column has the width for the
      number of distinct values, and as many pages as it requires, each packed from its part of
      the ranks of the values. */
  method StoreColumn<K(==, !new)>(less: (K, K) -> bool, file: seq<K>) returns (column: Column, codes: seq<nat>)
    requires StrictTotalOrder(less) && 2 <= |Keys(file)|
    ensures Encodes(codes, less, file)
    ensures fresh(column) && column.Valid() && column.colSize == |file|
    ensures column.numOfBits
            == if |Keys(file)| <= 129 then 8 else if |Keys(file)| <= 32769 then 16 else 32
    ensures |column.partitions| == PagesRequired(column.numOfBits, |file|)
    ensures forall p :: 0 <= p < |column.partitions| ==>
              && column.partitions[p].partId == p && column.partitions[p].compressed != null
              && PageHolds(column.partitions[p].compressed[..], codes, column.numOfBits, p)
  {
    hide StrictTotalOrder, Rank, Keys, PagesRequired, PageSlots, PageHolds, BitSize;
    codes := [];
    var encoder := new Compressor<K>(less);
    encoder.ParseColumn(file);
    NoOthers(encoder.bitMapping.Keys, Keys(file));
    assert encoder.distinctKeys == |Keys(file)| - 1;
    codes := encoder.WriteCompressedValues(file);
    AllParsed(file, encoder.bitMapping, codes, less);
    encoder.WriteMetaData();
    WidthExactlyWhen(|Keys(file)|);
    column := new Column(encoder.bitSize + 1, |file|);
    var pages := column.InitializePageAlignedPartitions();
    var stream := new CodeStream(codes);
    column.CompressColumn(stream);
  }

  lemma NoOthers<K>(keys: set<K>, file: set<K>)
    requires keys == {} + file
    ensures keys == file
  {
  }

  lemma AllParsed<K(!new)>(file: seq<K>, mapping: map<K, nat>, codes: seq<nat>, less: (K, K) -> bool)
    requires mapping.Keys == Keys(file) && |codes| == |file|
    requires forall k :: k in mapping ==> mapping[k] == Rank(less, mapping.Keys, k)
    requires forall i :: 0 <= i < |file| ==> codes[i] == CodeOf(mapping, file[i])
    ensures Encodes(codes, less, file)
  {
    hide Rank;
    forall r | 0 <= r < |file| ensures codes[r] == Rank(less, Keys(file), file[r]) {
      assert file[r] in Keys(file);
    }
  }

  /** Nothing is lost on the way: the slot of a row in its page decodes to the code of the row's
      value and of no other value. */
  lemma RowIsStored<K(!new)>(words: seq<Word>, codes: seq<nat>, less: (K, K) -> bool, values: seq<K>,
                             p: nat, s: nat, k: K)
    requires StrictTotalOrder(less) && Encodes(codes, less, values) && 2 <= |Keys(values)| <= Pow2(31)
    requires var w := EncodingWidth(|Keys(values)| - 1);
      Width(w) && PageHolds(words, codes, w, p) && s < Taken(w, |codes|, p)
    requires k in Keys(values)
    ensures var w := EncodingWidth(|Keys(values)| - 1);
      && WordIndex(w, s) < |words|
      && (Slot(words, w, s) == Rank(less, Keys(values), k) <==> values[From(w, |codes|, p) + s] == k)
  {
    hide StrictTotalOrder, Rank, Keys, EncodingWidth, Packed, Slot, PageSlots, Fit;
    var w := EncodingWidth(|Keys(values)| - 1);
    EncodedFits(codes, less, values);
    PageDecodes(words, codes, w, p, s);
    var r := From(w, |codes|, p) + s;
    InKeys(values, r);
    RankIsMonotone(less, Keys(values), values[r], k);
  }

  lemma InKeys<K>(values: seq<K>, r: nat)
    requires r < |values|
    ensures values[r] in Keys(values)
  {
  }

  lemma PageDecodes(words: seq<Word>, codes: seq<nat>, w: nat, p: nat, s: nat)
    requires Width(w) && PageHolds(words, codes, w, p) && Fit(codes, w, 0, |codes|) && s < Taken(w, |codes|, p)
    ensures WordIndex(w, s) < |words| && Slot(words, w, s) == codes[From(w, |codes|, p) + s]
  {
    hide Packed, Slot, WordIndex;
    var mine, n := codes[From(w, |codes|, p)..], Taken(w, |codes|, p);
    var packed := Packed(mine, n, w);
    RoundTripExactlyWhenFit(mine, n, w, words[|packed|..]);
    assert words == packed + words[|packed|..];
  }
}
