/** Properties of heap files: page layout, page reads, and full scans. */
module HeapFileProperties {
  import opened Errors
  import opened HeapFiles

  // ---------------------------------------------------------------------
  // Page arithmetic and page reads
  // ---------------------------------------------------------------------

  /** Files of 3 pages, and of 3 pages and one byte, both have 3 whole pages. */
  lemma NumPagesExamples<T>(hf: HeapFile<T>)
    ensures |hf.file.bytes| == 3 * PAGE_SIZE ==> hf.NumPages() == 3
    ensures |hf.file.bytes| == 3 * PAGE_SIZE + 1 ==> hf.NumPages() == 3
  {
  }

  /** The raw image of every whole page, by page index. */
  function PageImages<T>(hf: HeapFile<T>): seq<seq<byte>>
  {
    seq(hf.NumPages(), k requires 0 <= k < hf.NumPages() =>
      hf.ReadPage(HeapPageId(hf.GetId(), k)).value.data)
  }

  /** Pages k.. of the file lie end to end from byte k * PAGE_SIZE on. */
  lemma {:induction false} PageImagesFrom<T>(hf: HeapFile<T>, k: nat)
    requires k <= hf.NumPages()
    ensures Flatten(PageImages(hf)[k..]) == hf.file.bytes[k * PAGE_SIZE..hf.NumPages() * PAGE_SIZE]
    decreases hf.NumPages() - k
  {
    var images := PageImages(hf);
    var bytes := hf.file.bytes;
    var n := hf.NumPages();
    if k < n {
      PageImagesFrom(hf, k + 1);
      assert images[k..][1..] == images[k + 1..];
      assert images[k] == bytes[k * PAGE_SIZE..(k + 1) * PAGE_SIZE];
      assert bytes[k * PAGE_SIZE..n * PAGE_SIZE]
          == bytes[k * PAGE_SIZE..(k + 1) * PAGE_SIZE] + bytes[(k + 1) * PAGE_SIZE..n * PAGE_SIZE];
    } else {
      assert images[k..] == [];
    }
  }

  /**
   * The file is nothing but its whole pages laid end to end (no header, no
   * index), followed by fewer than PAGE_SIZE trailing bytes.
   */
  lemma PagesTileFile<T>(hf: HeapFile<T>)
    ensures Flatten(PageImages(hf)) == hf.file.bytes[..hf.NumPages() * PAGE_SIZE]
    ensures |hf.file.bytes| - hf.NumPages() * PAGE_SIZE < PAGE_SIZE
  {
    PageImagesFrom(hf, 0);
    assert PageImages(hf)[0..] == PageImages(hf);
  }

  /** The page read does not depend on the table id it is asked under. */
  lemma ReadPageIgnoresTableId<T>(hf: HeapFile<T>, t1: int, t2: int, k: nat)
    ensures hf.ReadPage(HeapPageId(t1, k)).value.data == hf.ReadPage(HeapPageId(t2, k)).value.data
    ensures hf.ReadPage(HeapPageId(t1, k)).value.pid == HeapPageId(t1, k)
  {
  }

  /**
   * With 4096-byte pages, page 524288 starts at byte 2^31: it is a whole
   * page of any file of more than 524288 pages, yet the `int` offset as
   * written wraps to -2^31, the seek fails and readPage throws.
   */
  lemma ReadPageAsWrittenFailsPastTwoGiB<T>(hf: HeapFile<T>)
    requires hf.NumPages() > 524288
    ensures hf.ReadPage(HeapPageId(hf.GetId(), 524288)).Ok?
    ensures hf.ReadPageAsWritten(HeapPageId(hf.GetId(), 524288)) == Err(IllegalArgument)
  {
  }

  /** Two heap files on the same path have the same id. */
  lemma IdDependsOnlyOnPath<T>(hf1: HeapFile<T>, hf2: HeapFile<T>)
    requires hf1.file.absolutePath == hf2.file.absolutePath
    ensures hf1.GetId() == hf2.GetId()
  {
  }

  // ---------------------------------------------------------------------
  // Scans
  // ---------------------------------------------------------------------

  /** The scan order is the concatenation of the pages' tuples, by page index. */
  lemma {:induction false} TuplesFromIsFlatten<T>(hf: HeapFile<T>, k: nat)
    requires k <= hf.NumPages()
    ensures hf.TuplesFrom(k) == Flatten(hf.Pages()[k..])
    decreases hf.NumPages() - k
  {
    var pages := hf.Pages();
    if k < hf.NumPages() {
      TuplesFromIsFlatten(hf, k + 1);
      assert pages[k..][1..] == pages[k + 1..];
      assert pages[k] == hf.PageTuples(k);
    } else {
      assert pages[k..] == [];
    }
  }

  /**
   * Page `k` is the last page, or the file's last page holds a tuple. Empty
   * pages in between are skipped by `next`; only an empty last page makes
   * `hasNext` claim a tuple that is not there.
   */
  ghost predicate LastPageNonEmptyAfter<T>(hf: HeapFile<T>, k: nat)
  {
    k + 1 >= hf.NumPages() || hf.PageTuples(hf.NumPages() - 1) != []
  }

  lemma LastPageNonEmptyAfterMonotone<T>(hf: HeapFile<T>, k: nat, k2: nat)
    requires k <= k2 && LastPageNonEmptyAfter(hf, k)
    ensures LastPageNonEmptyAfter(hf, k2)
  {
  }

  /** When the last page holds a tuple, so does every run of pages up to it. */
  lemma {:induction false} TailNonEmpty<T>(hf: HeapFile<T>, k: nat)
    requires k < hf.NumPages() && hf.PageTuples(hf.NumPages() - 1) != []
    ensures hf.TuplesFrom(k) != []
    decreases hf.NumPages() - k
  {
    if k + 1 < hf.NumPages() {
      TailNonEmpty(hf, k + 1);
    }
  }

  /** When the last page is not empty, `hasNext` holds exactly when a tuple is left. */
  lemma HasNextExact<T>(it: HeapFileIterator<T>)
    requires it.Valid() && LastPageNonEmptyAfter(it.hf, it.pgNo)
    ensures it.HasNext() <==> it.Remaining() != []
  {
    if it.iter.Some? {
      var c := it.iter.value;
      if !c.HasNext() {
        if it.pgNo + 1 >= it.hf.NumPages() {
          it.hf.RestAtEnd(c, it.pgNo);
        } else {
          TailNonEmpty(it.hf, it.pgNo + 1);
          assert c.tuples[c.pos..] == [];
        }
      }
    }
  }

  /** Pages k.. of the file hold no tuple when each of them is empty. */
  lemma {:induction false} EmptyTail<T>(hf: HeapFile<T>, k: nat)
    requires forall j :: k <= j < hf.NumPages() ==> hf.PageTuples(j) == []
    ensures hf.TuplesFrom(k) == []
    decreases hf.NumPages() - k
  {
    if k < hf.NumPages() {
      EmptyTail(hf, k + 1);
    }
  }

  /**
   * With the current page used up and only empty pages after it, `hasNext`
   * is true although nothing is left, so the following `next` throws.
   */
  lemma HasNextWithEmptyTail<T>(it: HeapFileIterator<T>)
    requires it.Valid() && it.iter.Some? && !it.iter.value.HasNext()
    requires it.pgNo < it.hf.NumPages() - 1
    requires forall j :: it.pgNo < j < it.hf.NumPages() ==> it.hf.PageTuples(j) == []
    ensures it.HasNext() && it.Remaining() == []
  {
    EmptyTail(it.hf, it.pgNo + 1);
    assert it.iter.value.tuples[it.iter.value.pos..] == [];
  }

  /** `next` while `hasNext`: the scan yields exactly what was left. */
  method ScanToEnd<T>(it: HeapFileIterator<T>) returns (ts: seq<T>)
    requires it.Valid() && LastPageNonEmptyAfter(it.hf, it.pgNo)
    modifies it
    ensures it.Valid() && !it.HasNext() && it.Remaining() == []
    ensures ts == old(it.Remaining())
  {
    ghost var all := it.Remaining();
    ts := [];
    while it.HasNext()
      invariant it.Valid() && LastPageNonEmptyAfter(it.hf, it.pgNo)
      invariant ts + it.Remaining() == all
      decreases |it.Remaining()|
    {
      HasNextExact(it);
      ghost var before := it.Remaining();
      ghost var pg := it.pgNo;
      assert before != [];
      var t := it.Next();
      assert t.Ok? && t.value == before[0] && it.Remaining() == before[1..];
      LastPageNonEmptyAfterMonotone(it.hf, pg, it.pgNo);
      ts := ts + [t.value];
    }
    HasNextExact(it);
  }

  /**
   * When the last page holds a tuple, open followed by next-while-hasNext
   * yields all pages' tuples in page order, and after rewind the same
   * sequence again.
   */
  method ScanTwice<T>(hf: HeapFile<T>) returns (first: seq<T>, second: seq<T>)
    requires hf.NumPages() > 0
    requires hf.Pages()[hf.NumPages() - 1] != []
    ensures first == Flatten(hf.Pages())
    ensures second == first
  {
    assert forall k :: 0 <= k < hf.NumPages() ==> hf.Pages()[k] == hf.PageTuples(k);
    var it := hf.Iterator();
    it.Open();
    first := ScanToEnd(it);
    it.Rewind();
    second := ScanToEnd(it);
    TuplesFromIsFlatten(hf, 0);
    assert hf.Pages()[0..] == hf.Pages();
  }

  /** Before open and after close (once or twice) a scan is empty and next throws. */
  method UnopenedAndClosedScans<T>(hf: HeapFile<T>)
    returns (before: bool, early: Result<T>, after: bool, late: Result<T>)
    ensures !before && early == Err(NoSuchElement)
    ensures !after && late == Err(NoSuchElement)
  {
    var it := hf.Iterator();
    before := it.HasNext();
    early := it.Next();
    it.Open();
    it.Close();
    it.Close();
    after := it.HasNext();
    late := it.Next();
  }
}
