/**
 * A heap file: a disk file viewed as an array of fixed-size pages, each
 * holding some tuples in no particular order, and the cursor that scans all
 * tuples of the file page by page.
 */
module HeapFiles {
  import opened Errors
  import opened TupleDescs

  /** A Java byte. */
  newtype byte = b: int | -128 <= b < 128

  /** Size in bytes of every page (the buffer pool's default page size). */
  const PAGE_SIZE: nat := 4096

  const INT_MIN: int := -0x8000_0000
  const INT_MAX: int := 0x7fff_ffff
  const TWO_TO_32: int := 0x1_0000_0000

  /** `x` wrapped into Java's 32-bit two's-complement `int`. */
  function Int32(x: int): (r: int)
    ensures INT_MIN <= r <= INT_MAX
    ensures (x - r) % TWO_TO_32 == 0
    ensures INT_MIN <= x <= INT_MAX ==> r == x
  {
    var m := x % TWO_TO_32;
    if m <= INT_MAX then m else m - TWO_TO_32
  }

  /** java.lang.String.hashCode: h = 31 * h + c over the characters, in `int`. */
  function StringHashCode(s: string): (h: int)
    ensures INT_MIN <= h <= INT_MAX
  {
    if s == [] then 0
    else Int32(31 * StringHashCode(s[..|s| - 1]) + s[|s| - 1] as int)
  }

  /** `n` zero bytes. */
  function Zeros(n: nat): (z: seq<byte>)
    ensures |z| == n && forall j :: 0 <= j < n ==> z[j] == 0
  {
    seq(n, _ => 0)
  }

  /** Concatenation of a list of sequences, in order. */
  function Flatten<X>(xss: seq<seq<X>>): seq<X>
  {
    if xss == [] then [] else xss[0] + Flatten(xss[1..])
  }

  /**
   * What a positioned read of one page yields from `bytes`: a seek to
   * `offset`, then a read into a fresh zero-filled page buffer, which stops
   * at the end of the file.
   */
  function PageImage(bytes: seq<byte>, offset: nat): (img: seq<byte>)
    ensures |img| == PAGE_SIZE
    ensures forall j :: 0 <= j < PAGE_SIZE ==>
      img[j] == if offset + j < |bytes| then bytes[offset + j] else 0
    ensures offset + PAGE_SIZE <= |bytes| ==> img == bytes[offset..offset + PAGE_SIZE]
  {
    var lo := if offset < |bytes| then offset else |bytes|;
    var hi := if offset + PAGE_SIZE < |bytes| then offset + PAGE_SIZE else |bytes|;
    bytes[lo..hi] + Zeros(PAGE_SIZE - (hi - lo))
  }

  /** java.io.File, reduced to its absolute path and its current contents. */
  datatype DiskFile = DiskFile(absolutePath: string, bytes: seq<byte>)

  /** A page is named by its table and its index in that table's file. */
  datatype HeapPageId = HeapPageId(tableId: int, pageNumber: int)

  /** A page as it is handed to HeapPage's constructor: its id and its raw image. */
  datatype HeapPage = HeapPage(pid: HeapPageId, data: seq<byte>)

  // ---------------------------------------------------------------------
  // HeapFile
  // ---------------------------------------------------------------------

  class HeapFile<T> {
    const file: DiskFile
    const tupleDesc: TupleDesc
    /** How a page image decodes into its tuples, in slot order (HeapPage). */
    const decode: seq<byte> -> seq<T>

    constructor (f: DiskFile, td: TupleDesc, decode: seq<byte> -> seq<T>)
      ensures file == f && tupleDesc == td && this.decode == decode
    {
      file := f;
      tupleDesc := td;
      this.decode := decode;
    }

    /** The table id: the hash code of the file's absolute path. */
    function GetId(): (id: int)
      ensures INT_MIN <= id <= INT_MAX
    {
      StringHashCode(file.absolutePath)
    }

    /** The descriptor the file was built with. */
    function GetTupleDesc(): (td: TupleDesc)
      ensures td == tupleDesc
    {
      tupleDesc
    }

    /** Number of whole pages in the file. */
    function NumPages(): (n: nat)
      ensures n * PAGE_SIZE <= |file.bytes| < (n + 1) * PAGE_SIZE
    {
      |file.bytes| / PAGE_SIZE
    }

    /** Seek to `offset`, read a page image, and wrap it as page `pid`. */
    function ReadAt(pid: HeapPageId, offset: int): Result<HeapPage>
    {
      if offset < 0 then Err(IllegalArgument)
      else Ok(HeapPage(HeapPageId(pid.tableId, pid.pageNumber), PageImage(file.bytes, offset)))
    }

    /** Read page `pid` from the file; its offset is computed without overflow. */
    function ReadPage(pid: HeapPageId): (r: Result<HeapPage>)
      ensures r.Err? <==> pid.pageNumber < 0
      ensures r.Err? ==> r.error == IllegalArgument
      ensures r.Ok? ==> r.value.pid == HeapPageId(pid.tableId, pid.pageNumber)
      ensures r.Ok? ==> r.value.data == PageImage(file.bytes, pid.pageNumber * PAGE_SIZE)
      ensures 0 <= pid.pageNumber < NumPages() ==>
        r.Ok? && r.value.data == file.bytes[pid.pageNumber * PAGE_SIZE..(pid.pageNumber + 1) * PAGE_SIZE]
    {
      ReadAt(pid, pid.pageNumber * PAGE_SIZE)
    }

    /** readPage as written: the offset is an `int` product, which wraps. */
    function ReadPageAsWritten(pid: HeapPageId): (r: Result<HeapPage>)
      ensures r.Err? <==> Int32(pid.pageNumber * PAGE_SIZE) < 0
      ensures r.Ok? ==> r.value.data == PageImage(file.bytes, Int32(pid.pageNumber * PAGE_SIZE))
    {
      ReadAt(pid, Int32(pid.pageNumber * PAGE_SIZE))
    }

    /** The tuples of page `k`, as the buffer pool hands them out. */
    function PageTuples(k: nat): seq<T>
    {
      decode(ReadPage(HeapPageId(GetId(), k)).value.data)
    }

    /** The tuples of every whole page, by page index. */
    function Pages(): (ps: seq<seq<T>>)
      ensures |ps| == NumPages()
      ensures forall k :: 0 <= k < NumPages() ==>
        ps[k] == decode(file.bytes[k * PAGE_SIZE..(k + 1) * PAGE_SIZE])
    {
      seq(NumPages(), k requires 0 <= k < NumPages() => PageTuples(k))
    }

    /** The tuples of pages k, k+1, ..., NumPages()-1, in page order. */
    function TuplesFrom(k: nat): seq<T>
      decreases NumPages() - k
    {
      if k >= NumPages() then [] else PageTuples(k) + TuplesFrom(k + 1)
    }

    /**
     * What a scan positioned at cursor `c` on page `k` has still to yield:
     * the rest of `c`, then the tuples of every later page.
     */
    function Rest(c: PageCursor<T>, k: nat): seq<T>
      requires c.pos <= |c.tuples|
    {
      c.tuples[c.pos..] + TuplesFrom(k + 1)
    }

    /** Taking a tuple from a cursor that has one. */
    lemma RestTake(c: PageCursor<T>, k: nat)
      requires c.pos < |c.tuples|
      ensures Rest(c, k) == [c.tuples[c.pos]] + Rest(PageCursor(c.tuples, c.pos + 1), k)
    {
      assert c.tuples[c.pos..] == [c.tuples[c.pos]] + c.tuples[c.pos + 1..];
    }

    /** Moving from an exhausted cursor on page `k` to the start of page `k + 1`. */
    lemma RestAdvance(c: PageCursor<T>, k: nat)
      requires c.pos == |c.tuples| && k + 1 < NumPages()
      ensures Rest(c, k) == Rest(PageCursor(PageTuples(k + 1), 0), k + 1)
    {
      assert c.tuples[c.pos..] == [];
      assert PageTuples(k + 1)[0..] == PageTuples(k + 1);
    }

    /** An exhausted cursor on the last page (or past it) has nothing left. */
    lemma RestAtEnd(c: PageCursor<T>, k: nat)
      requires c.pos == |c.tuples| && k + 1 >= NumPages()
      ensures Rest(c, k) == []
    {
      assert c.tuples[c.pos..] == [];
    }

    /** A scan of this file, not yet opened. */
    method Iterator() returns (it: HeapFileIterator<T>)
      ensures fresh(it) && it.hf == this && it.tableId == GetId()
      ensures it.pgNo == 0 && it.iter == None && it.page == None
    {
      it := new HeapFileIterator(this);
    }
  }

  // ---------------------------------------------------------------------
  // HeapFileIterator
  // ---------------------------------------------------------------------

  /** A cursor over one page's tuples. */
  datatype PageCursor<T> = PageCursor(tuples: seq<T>, pos: nat)
  {
    predicate HasNext()
    {
      pos < |tuples|
    }
  }

  /** The scan over all tuples of a heap file, one page at a time. */
  class HeapFileIterator<T> {
    const hf: HeapFile<T>
    const tableId: int
    var pgNo: nat
    var iter: Option<PageCursor<T>>
    var page: Option<HeapPage>

    constructor (hf: HeapFile<T>)
      ensures this.hf == hf && tableId == hf.GetId()
      ensures pgNo == 0 && iter == None && page == None
    {
      this.hf := hf;
      pgNo := 0;
      tableId := hf.GetId();
      iter := None;
      page := None;
    }

    ghost predicate Valid()
      reads this
    {
      tableId == hf.GetId() &&
      pgNo <= hf.NumPages() &&
      (iter.Some? ==> iter.value.pos <= |iter.value.tuples|)
    }

    /**
     * The tuples the scan has still to yield: the rest of the current page,
     * then every later page of the file.
     */
    ghost function Remaining(): seq<T>
      reads this
      requires Valid()
    {
      match iter
      case None => []
      case Some(c) => hf.Rest(c, pgNo)
    }

    /**
     * True when the current page has a tuple left or a later page exists;
     * never false while a tuple is left.
     */
    predicate HasNext(): (b: bool)
      reads this
      ensures iter.None? ==> !b
      ensures iter.Some? ==> (b <==> iter.value.HasNext() || pgNo < hf.NumPages() - 1)
      ensures Valid() && Remaining() != [] ==> b
    {
      iter.Some? && (iter.value.HasNext() || pgNo < hf.NumPages() - 1)
    }

    /** Fetch page `no` of this table through the buffer pool. */
    method FetchPage(no: nat) returns (p: HeapPage)
      requires tableId == hf.GetId()
      ensures p == hf.ReadPage(HeapPageId(tableId, no)).value
      ensures p.pid == HeapPageId(tableId, no) && hf.decode(p.data) == hf.PageTuples(no)
    {
      p := hf.ReadPage(HeapPageId(tableId, no)).value;
    }

    /** Fetch page `pgNo` and position the cursor at its first tuple. */
    method Open()
      requires Valid()
      modifies this
      ensures Valid() && pgNo == old(pgNo)
      ensures page == Some(hf.ReadPage(HeapPageId(tableId, pgNo)).value)
      ensures iter == Some(PageCursor(hf.PageTuples(pgNo), 0))
      ensures Remaining() == hf.PageTuples(pgNo) + hf.TuplesFrom(pgNo + 1)
      ensures pgNo < hf.NumPages() ==> Remaining() == hf.TuplesFrom(pgNo)
    {
      var p := FetchPage(pgNo);
      page := Some(p);
      iter := Some(PageCursor(hf.decode(p.data), 0));
    }

    /**
     * The loop at the head of `next`: while the cursor is used up, move to
     * the next page and fetch it; fail once the file has no page left.
     */
    method SkipExhaustedPages() returns (found: bool)
      requires Valid() && HasNext()
      modifies this
      ensures Valid() && iter.Some?
      ensures found <==> iter.value.HasNext()
      ensures found ==> Remaining() == old(Remaining())
      ensures !found ==> pgNo == hf.NumPages() && Remaining() == [] && old(Remaining()) == []
      ensures pgNo >= old(pgNo)
      ensures pgNo == old(pgNo) ==> iter == old(iter) && page == old(page)
      ensures found && pgNo != old(pgNo) ==>
        pgNo < hf.NumPages() &&
        iter == Some(PageCursor(hf.PageTuples(pgNo), 0)) &&
        page == Some(hf.ReadPage(HeapPageId(tableId, pgNo)).value)
      ensures found ==> forall j :: old(pgNo) < j < pgNo ==> hf.PageTuples(j) == []
    {
      ghost var rem := Remaining();
      ghost var pg0 := pgNo;
      ghost var iter0 := iter;
      ghost var page0 := page;
      while !iter.value.HasNext()
        invariant Valid() && iter.Some?
        invariant Remaining() == rem
        invariant pg0 <= pgNo
        invariant pgNo == pg0 ==> iter == iter0 && page == page0
        invariant pgNo != pg0 ==>
          (pgNo < hf.NumPages() &&
           iter == Some(PageCursor(hf.PageTuples(pgNo), 0)) &&
           page == Some(hf.ReadPage(HeapPageId(tableId, pgNo)).value))
        invariant forall j :: pg0 < j < pgNo ==> hf.PageTuples(j) == []
        decreases hf.NumPages() - pgNo
      {
        if pgNo + 1 >= hf.NumPages() {
          hf.RestAtEnd(iter.value, pgNo);
          hf.RestAtEnd(iter.value, pgNo + 1);
          pgNo := pgNo + 1;
          return false;
        }
        AdvancePage();
      }
      found := true;
    }

    /** One step of that loop: leave a used-up page for the next one. */
    method AdvancePage()
      requires Valid() && iter.Some? && !iter.value.HasNext() && pgNo + 1 < hf.NumPages()
      modifies this
      ensures Valid() && pgNo == old(pgNo) + 1
      ensures iter == Some(PageCursor(hf.PageTuples(pgNo), 0))
      ensures page == Some(hf.ReadPage(HeapPageId(tableId, pgNo)).value)
      ensures Remaining() == old(Remaining())
    {
      hf.RestAdvance(iter.value, pgNo);
      pgNo := pgNo + 1;
      var p := FetchPage(pgNo);
      page := Some(p);
      iter := Some(PageCursor(hf.decode(p.data), 0));
    }

    /**
     * The next tuple, moving on past exhausted pages; NoSuchElement when
     * `HasNext` is false or when the pages left are all empty.
     */
    method Next() returns (r: Result<T>)
      requires Valid()
      modifies this
      ensures Valid()
      ensures r.Ok? <==> old(Remaining()) != []
      ensures r.Ok? ==> r.value == old(Remaining())[0] && Remaining() == old(Remaining())[1..]
      ensures r.Err? ==> r.error == NoSuchElement && Remaining() == []
      ensures !old(HasNext()) ==> r.Err? && pgNo == old(pgNo) && iter == old(iter) && page == old(page)
      ensures pgNo >= old(pgNo)
      ensures r.Ok? && pgNo != old(pgNo) ==> pgNo < hf.NumPages()
      ensures r.Err? && old(HasNext()) ==> pgNo == hf.NumPages()
      ensures r.Err? ==> !HasNext()
      ensures r.Ok? && pgNo == old(pgNo) ==>
        old(iter).Some? && iter == Some(PageCursor(old(iter).value.tuples, old(iter).value.pos + 1)) &&
        page == old(page)
      ensures r.Ok? && pgNo != old(pgNo) ==>
        iter == Some(PageCursor(hf.PageTuples(pgNo), 1)) &&
        page == Some(hf.ReadPage(HeapPageId(tableId, pgNo)).value) &&
        forall j :: old(pgNo) < j < pgNo ==> hf.PageTuples(j) == []
    {
      if !HasNext() {
        if iter.Some? {
          hf.RestAtEnd(iter.value, pgNo);
        }
        return Err(NoSuchElement);
      }
      var found := SkipExhaustedPages();
      if !found {
        return Err(NoSuchElement);
      }
      var c := iter.value;
      hf.RestTake(c, pgNo);
      r := Ok(c.tuples[c.pos]);
      iter := Some(PageCursor(c.tuples, c.pos + 1));
    }

    /** Back to the first tuple of page 0; the `page` field is left as it was. */
    method Rewind()
      requires Valid()
      modifies this
      ensures Valid() && pgNo == 0 && page == old(page)
      ensures iter == Some(PageCursor(hf.PageTuples(0), 0))
      ensures Remaining() == hf.PageTuples(0) + hf.TuplesFrom(1)
      ensures hf.NumPages() > 0 ==> Remaining() == hf.TuplesFrom(0)
    {
      pgNo := 0;
      var heapPage := FetchPage(pgNo);
      iter := Some(PageCursor(hf.decode(heapPage.data), 0));
    }

    /** Drop the cursor and the page; the scan then yields nothing. */
    method Close()
      requires Valid()
      modifies this
      ensures Valid() && pgNo == old(pgNo)
      ensures iter == None && page == None
      ensures !HasNext() && Remaining() == []
    {
      page := None;
      iter := None;
    }
  }
}
