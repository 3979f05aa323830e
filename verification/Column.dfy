/** A column: its page-aligned partitions, and the one stream of codes they are packed from. */
module Column {
  import opened Bits
  import opened Filters
  import opened Partition

  const PAGE_SIZE := 4096

  /** The bytes of a column, truncated, and the pages for them. */
  function TotalBytes(w: nat, n: nat): nat
    requires Width(w)
  {
    if w == 4 then n / 2 else if w == 8 then n else if w == 16 then 2 * n else 4 * n
  }

  function PagesFor(bytes: nat, pageSize: nat): nat
    requires pageSize > 0
  {
    bytes / pageSize + if bytes % pageSize > 0 then 1 else 0
  }

  function PagesRequired(w: nat, n: nat): nat
    requires Width(w)
  {
    PagesFor(TotalBytes(w, n), PAGE_SIZE)
  }

  /** `PAGE_SIZE * 8 / num_of_bits`. */
  function PageSlots(w: nat): (n: nat)
    requires Width(w)
    ensures n >= 1024
  {
    if w == 4 then 8192 else if w == 8 then 4096 else if w == 16 then 2048 else 1024
  }

  function PageStart(w: nat, p: nat): nat
    requires Width(w)
  {
    if w == 4 then 8192 * p else if w == 8 then 4096 * p else if w == 16 then 2048 * p else 1024 * p
  }

  /** The pages hold every row, without a surplus page, except that at four bits the last row is
      left out exactly when it alone would need another page. */
  lemma PagesCover(w: nat, n: nat)
    requires Width(w)
    ensures n <= PageStart(w, PagesRequired(w, n)) <==> !(w == 4 && n % 8192 == 1)
    ensures w == 4 && n % 8192 == 1 ==> PageStart(w, PagesRequired(w, n)) == n - 1
    ensures PagesRequired(w, n) > 0 ==> PageStart(w, PagesRequired(w, n) - 1) < n
  {
  }

  /** How many codes page `p` takes from a stream of `total`. */
  function Taken(w: nat, total: nat, p: nat): nat
    requires Width(w)
  {
    if PageStart(w, p) >= total then 0
    else if PageStart(w, p + 1) >= total then total - PageStart(w, p) else PageSlots(w)
  }

  /** Where in the stream page `p` begins; a page past the end finds nothing left. */
  function From(w: nat, total: nat, p: nat): (s: nat)
    requires Width(w)
    ensures s <= total && s + Taken(w, total, p) <= total
    ensures From(w, total, p) + Taken(w, total, p)
            == if PageStart(w, p + 1) < total then PageStart(w, p + 1) else total
  {
    if PageStart(w, p) < total then PageStart(w, p) else total
  }

  ghost predicate RowAt(w: nat, n: nat, r: nat, k: nat)
    requires Width(w)
  {
    From(w, n, k) <= r < From(w, n, k) + Taken(w, n, k)
  }

  lemma SamePage(w: nat, n: nat, r: nat, k: nat, k': nat)
    requires Width(w) && RowAt(w, n, r, k) && RowAt(w, n, r, k')
    ensures k == k'
  {
  }

  function PageOf(w: nat, r: nat): (k: nat)
    requires Width(w)
    ensures PageStart(w, k) <= r < PageStart(w, k + 1)
  {
    if w == 4 then r / 8192 else if w == 8 then r / 4096 else if w == 16 then r / 2048 else r / 1024
  }

  lemma PageRequired(w: nat, n: nat, r: nat)
    requires Width(w) && r < n
    ensures PageOf(w, r) < PagesRequired(w, n) <==> !(w == 4 && n % 8192 == 1 && r == n - 1)
  {
  }

  /** Every row lies in exactly one page: partitions skip and repeat nothing. The page is among
      those required, but for the one row `PagesCover` excepts. */
  lemma RowPlace(w: nat, n: nat, r: nat)
    requires Width(w) && r < n
    ensures RowAt(w, n, r, PageOf(w, r)) && forall k :: RowAt(w, n, r, k) ==> k == PageOf(w, r)
    ensures PageOf(w, r) < PagesRequired(w, n) <==> !(w == 4 && n % 8192 == 1 && r == n - 1)
  {
    assert RowAt(w, n, r, PageOf(w, r));
    PageRequired(w, n, r);
    hide RowAt, PageOf, PagesRequired;
    forall k | RowAt(w, n, r, k) ensures k == PageOf(w, r) {
      SamePage(w, n, r, k, PageOf(w, r));
    }
  }

  lemma StreamStart(w: nat, total: nat)
    requires Width(w)
    ensures From(w, total, 0) == 0
  {
  }

  /** Page `p` holds its part of the codes; what lies behind is not determined. */
  ghost predicate PageHolds(words: seq<Word>, codes: seq<nat>, w: nat, p: nat)
    requires Width(w)
  {
    var packed := Packed(codes[From(w, |codes|, p)..], Taken(w, |codes|, p), w);
    |words| == TotalWords(PageSlots(w), w) && packed <= words
  }

  class Column {
    const numOfBits: nat
    const colSize: nat
    var numOfPages: nat
    var partitions: seq<Partition>

    ghost predicate Valid()
      reads this
    {
      && Width(numOfBits)
      && forall i, j :: 0 <= i < j < |partitions| ==> partitions[i] != partitions[j]
    }

    constructor (numOfBits: nat, colSize: nat)
      requires Width(numOfBits)
      ensures Valid() && this.numOfBits == numOfBits && this.colSize == colSize && partitions == []
    {
      this.numOfBits, this.colSize, numOfPages, partitions := numOfBits, colSize, 0, [];
    }

    method NumOfPagesRequired(pageSize: nat) returns (r: nat)
      requires Width(numOfBits) && pageSize > 0
      modifies this`numOfPages
      ensures r == numOfPages == PagesFor(TotalBytes(numOfBits, colSize), pageSize)
    {
      var totalSize := numOfBits * colSize / 8;
      numOfPages := totalSize / pageSize;
      if totalSize % pageSize > 0 { numOfPages := numOfPages + 1; }
      r := numOfPages;
    }

    /** One partition per page, covering consecutive ranges of rows. */
    method InitializePageAlignedPartitions() returns (pages: nat)
      requires Valid()
      modifies this`numOfPages, this`partitions
      ensures Valid() && pages == numOfPages == PagesRequired(numOfBits, colSize)
      ensures |partitions| == |old(partitions)| + pages && partitions[..|old(partitions)|] == old(partitions)
      ensures forall i :: |old(partitions)| <= i < |partitions| ==>
                && fresh(partitions[i]) && partitions[i].partId == i - |old(partitions)|
                && partitions[i].partSize == PageSlots(numOfBits)
    {
      pages := NumOfPagesRequired(PAGE_SIZE);
      var partitionSize := PAGE_SIZE * 8 / numOfBits;
      assert partitionSize == PageSlots(numOfBits);
      hide PagesRequired, PageSlots;
      for partId := 0 to pages
        invariant numOfPages == pages == PagesRequired(numOfBits, colSize)
        invariant |partitions| == |old(partitions)| + partId && partitions[..|old(partitions)|] == old(partitions)
        invariant forall i, j :: 0 <= i < j < |partitions| ==> partitions[i] != partitions[j]
        invariant forall i :: |old(partitions)| <= i < |partitions| ==>
          && fresh(partitions[i]) && partitions[i].partId == i - |old(partitions)|
          && partitions[i].partSize == PageSlots(numOfBits)
      {
        var start := partId * partitionSize;
        var part := new Partition(partId, start, start + partitionSize);
        partitions := partitions + [part];
      }
    }

    /** Every page is packed from the next codes of the one stream. */
    method CompressColumn(file: CodeStream)
      requires Valid() && file.Valid()
      requires forall p :: 0 <= p < |partitions| ==> partitions[p].partSize == PageSlots(numOfBits)
      modifies file, set p | p in partitions
      ensures partitions == old(partitions) && file.Valid()
      ensures forall p :: 0 <= p < |partitions| ==>
                && partitions[p].compressed != null && fresh(partitions[p].compressed)
                && PageHolds(partitions[p].compressed[..], old(file.Rest()), numOfBits, p)
      ensures file.Rest() == old(file.Rest())[From(numOfBits, |old(file.Rest())|, |partitions|)..]
    {
      hide PageHolds, Packed, From, PageSlots;
      ghost var codes := file.Rest();
      assert codes == codes[From(numOfBits, |codes|, 0)..] by { StreamStart(numOfBits, |codes|); }
      for i := 0 to |partitions|
        invariant file.Valid() && partitions == old(partitions)
        invariant file.Rest() == codes[From(numOfBits, |codes|, i)..]
        invariant forall p :: 0 <= p < i ==>
          && partitions[p].compressed != null && fresh(partitions[p].compressed)
          && PageHolds(partitions[p].compressed[..], codes, numOfBits, p)
        invariant forall p, q :: 0 <= p < q < i ==> partitions[p].compressed != partitions[q].compressed
      {
        CompressPage(partitions[i], file, codes, i);
      }
    }

    method CompressPage(curPart: Partition, file: CodeStream, ghost codes: seq<nat>, ghost p: nat)
      requires Width(numOfBits) && file.Valid() && curPart.partSize == PageSlots(numOfBits)
      requires file.Rest() == codes[From(numOfBits, |codes|, p)..]
      modifies curPart, file
      ensures curPart.compressed != null && fresh(curPart.compressed)
      ensures PageHolds(curPart.compressed[..], codes, numOfBits, p)
      ensures file.Valid() && file.Rest() == codes[From(numOfBits, |codes|, p + 1)..]
    {
      hide Packed, TotalWords, Words;
      curPart.InitializePageAlignedPartition(numOfBits);
      ghost var taken := curPart.Compress(file, numOfBits);
      assert taken == Taken(numOfBits, |codes|, p);
    }
  }
}
