# SimpleDB heap file and tuple descriptor, in Dafny

This project models the read path of a heap-organised table in SimpleDB:

- **`TupleDesc`**, the schema of a tuple. It is an ordered, immutable list of
  (type, name) fields. It supports positional lookup with bounds checks,
  first-match lookup by name, the byte width of a tuple, positional
  concatenation (`merge`), an equality that compares types and ignores names,
  and a cursor over its fields (`TDIterator`).
- **`HeapFile`**, a disk file viewed as an array of `PAGE_SIZE`-byte pages.
  It covers the page count, reading page `k` from bytes
  `[k*PAGE_SIZE, (k+1)*PAGE_SIZE)`, the table id, and the scan
  (`HeapFileIterator`). The scan walks the file page by page with the fields
  `pgNo`, `iterator` and `page`.

Files:

| file | module | contents |
|---|---|---|
| errors.dfy | `Errors` | `Option` (a possibly null reference), the exceptions thrown, `Result` |
| types.dfy | `Types` | the field types and their byte widths |
| tuple_desc.dfy | `TupleDescs` | `TDItem`, the specification functions, class `TupleDesc`, class `TDIterator` |
| tuple_desc_props.dfy | `TupleDescProperties` | lemmas about size, merge, equality and lookup by name |
| heap_file.dfy | `HeapFiles` | page images, `HeapPageId`, `HeapPage`, class `HeapFile`, class `HeapFileIterator` |
| heap_file_props.dfy | `HeapFileProperties` | lemmas about the page layout and page reads, and the full-scan theorems |

How the model is built:

- `TupleDesc` is a class. Its field array never changes after construction,
  so the model holds it as a `const` sequence, which cannot be empty. Both
  constructors fill a fresh array in a loop, as the source does. `merge`
  walks both operands with their cursors. `fieldNameToIndex`, `getSize` and
  `equals` are loops proved against specification functions: `IndexOfName`,
  `SumLen` and `TypesMatch`.
- A field name is an `Option<string>`, because the constructor's documentation
  allows null names.
- `HeapFile` is a class with constant fields:
  - the file, as its absolute path and its bytes;
  - the descriptor;
  - `decode`, the function that turns a page image into its tuples. That
    function stands for HeapPage's constructor.
- `readPage` is the function `ReadPage`. It seeks, reads into a zero-filled
  buffer that stops at the end of the file, and keys the page by
  `(tableId, pageNumber)`.
- The buffer pool answers a page request by reading that page from its file.
  `HeapFileIterator.FetchPage` stands for `Database.getBufferPool().getPage`
  and returns `ReadPage` of that page.
- The scan's `Remaining()` is the sequence of tuples the scan has still to
  yield: the rest of the current page, then every later page. `Next` is
  proved against it.
- The Java field `iterator` is called `iter`, because `iterator` is a Dafny
  keyword.

Behaviour of the code that the model keeps, where a plain reading of the
design would say otherwise:

- `open()` fetches page `pgNo`, not page 0. On a fresh scan `pgNo` is 0, but
  after a `next` and a `close`, a new `open` starts over on the current page.
- `rewind()` does not update the `page` field. The field keeps the page it
  held before.
- `readPage` does not check that the page id's table is this file's, nor that
  the page lies inside the file. A page at or past the end reads as the bytes
  that remain, padded with zeros.
- `hasNext()` only over-approximates: it is true whenever a later page exists,
  even if all later pages are empty. In that case `next()` throws although
  `hasNext()` was true (`HasNextWithEmptyTail`). The source itself notes that
  empty pages must be avoided. Empty pages before the last one are skipped
  correctly; only an empty last page misleads `hasNext`. The full-scan
  theorem therefore assumes that the last page holds a tuple.

## Model

| member | source | states |
|---|---|---|
| TupleDescs.TupleDesc.constructor | src/java/simpledb/TupleDesc.java:74-83 | given at least one type and as many names, the schema has one field per type, and field `i` carries `typeAr[i]` and `fieldAr[i]` |
| TupleDescs.TupleDesc.FromTypes | src/java/simpledb/TupleDesc.java:93-101 | given at least one type, the schema has one field per type, field `i` has type `typeAr[i]`, and every name is `""` |
| TupleDescs.TupleDesc.NumFields | src/java/simpledb/TupleDesc.java:103-108 | the number of fields, which is never 0 |
| TupleDescs.TupleDesc.GetFieldName | src/java/simpledb/TupleDesc.java:110-121 | throws NoSuchElement exactly when `i` is not a field index; otherwise returns field `i`'s name, which may be null |
| TupleDescs.TupleDesc.GetFieldType | src/java/simpledb/TupleDesc.java:123-137 | throws NoSuchElement exactly when `i` is not a field index; otherwise returns field `i`'s type |
| TupleDescProperties.FieldAccessInRange | src/java/simpledb/TupleDesc.java:117-137 | `getFieldName(i)` and `getFieldType(i)` throw NoSuchElement exactly when `i < 0` or `i >= numFields()`; otherwise they return field `i`'s name and type |
| TupleDescs.IndexOfName | src/java/simpledb/TupleDesc.java:139-155 | lookup by name returns the smallest index whose field has that name; it returns NoSuchElement exactly when no field has it |
| TupleDescs.TupleDesc.FieldNameToIndex | src/java/simpledb/TupleDesc.java:148-155 | the early-exit loop returns exactly `IndexOfName` of the fields (null names skipped) |
| TupleDescs.FieldNameToIndexAsWritten | src/java/simpledb/TupleDesc.java:148-155 | the loop as written: any index it returns names a field called `name`, and every earlier field has a non-null, different name. It fails only with NoSuchElement or NullPointer, and NoSuchElement only when every name is non-null and none is `name` |
| TupleDescProperties.LookupExamples | src/java/simpledb/TupleDesc.java:148-155 | for names `["a","b","a"]`, `"a"` is found at 0 and `"z"` is not found |
| TupleDescProperties.LookupAgreesWithoutNullNames | src/java/simpledb/TupleDesc.java:148-155 | when no name is null, the loop as written and the model return the same result |
| TupleDescProperties.NullNameBeforeMatchThrows | src/java/simpledb/TupleDesc.java:148-155 | as written, a null name at an index before every match makes the lookup throw NullPointerException |
| TupleDescProperties.MatchBeforeNullFound | src/java/simpledb/TupleDesc.java:148-155 | as written, a match at `k` with every earlier name non-null and different is found at `k`, whatever nulls follow it |
| TupleDescProperties.NullNameCounterexample | src/java/simpledb/TupleDesc.java:148-155 | for names `[null, "a"]`, looking up `"a"` throws as written, while the model returns 1 |
| TupleDescs.TupleDesc.GetSize | src/java/simpledb/TupleDesc.java:161-166 | the accumulating loop returns the sum of the widths of all field types |
| TupleDescProperties.SumLenAppend | src/java/simpledb/TupleDesc.java:161-166 | the width of a concatenation of fields is the sum of the widths of the parts |
| TupleDescProperties.SumLenAtLeastFieldCount | src/java/simpledb/TupleDesc.java:157-166 | each field takes at least one byte, so a tuple is at least `numFields()` bytes wide |
| TupleDescProperties.TwoIntFieldsSize | src/java/simpledb/TupleDesc.java:161-166 | two int fields are 8 bytes wide |
| TupleDescs.TupleDesc.Merge | src/java/simpledb/TupleDesc.java:168-197 | walking both operands with the cursor's `next` as written, the merged schema's fields are exactly `td1`'s fields followed by `td2`'s, with names and types unchanged |
| TupleDescProperties.MergedFieldAccess | src/java/simpledb/TupleDesc.java:178-197 | on a merge, `numFields` is the sum. `getFieldType`/`getFieldName` at `i < td1.numFields()` give `td1`'s answer, and otherwise `td2`'s answer at `i - td1.numFields()`, errors included |
| TupleDescProperties.MergedSize | src/java/simpledb/TupleDesc.java:178-197 | a merged schema's size is the sum of the operands' sizes |
| TupleDescProperties.MergeRespectsEquality | src/java/simpledb/TupleDesc.java:178-228 | merging pairwise-equal schemas gives equal schemas |
| TupleDescs.TupleDesc.Equals | src/java/simpledb/TupleDesc.java:199-228 | true exactly when the other schema is non-null, has the same number of fields, and has the same type at every position |
| TupleDescProperties.TypesMatchIffSameTypes | src/java/simpledb/TupleDesc.java:210-228 | schema equality holds exactly when the type sequences are equal, so names play no part |
| TupleDescProperties.TypesMatchIsEquivalence | src/java/simpledb/TupleDesc.java:210-228 | schema equality is reflexive, symmetric and transitive |
| TupleDescProperties.RenamingPreservesEquality | src/java/simpledb/TupleDesc.java:210-228 | replacing every field name leaves a schema equal to the original |
| TupleDescProperties.EqualityExamples | src/java/simpledb/TupleDesc.java:210-228 | `[(int,"x")]` equals `[(int,"y")]`, and equals neither `[(int,"x"),(int,"y")]` nor `[(string,"x")]` |
| TupleDescs.TupleDesc.Iterator | src/java/simpledb/TupleDesc.java:57-59 | each call returns a new cursor, at position 0 of this schema |
| TupleDescs.TDIterator.constructor | src/java/simpledb/TupleDesc.java:41-42 | a cursor starts at 0 |
| TupleDescs.TDIterator.HasNext | src/java/simpledb/TupleDesc.java:45 | on a cursor within the fields, true exactly when a field is left to yield |
| TupleDescs.TDIterator.Next | src/java/simpledb/TupleDesc.java:41-48 | `next` yields the field at the cursor and moves on by one, and succeeds exactly when `hasNext` held; at the end it throws NoSuchElement and does not move |
| TupleDescs.TDIterator.NextAsWritten | src/java/simpledb/TupleDesc.java:48 | as written, the cursor always moves on by one, and an index outside the fields throws ArrayIndexOutOfBounds |
| TupleDescProperties.ItemsInOrder | src/java/simpledb/TupleDesc.java:41-59 | `next` while `hasNext` on a fresh cursor yields exactly the fields, in index order |
| TupleDescProperties.ExhaustedCursorAsWritten | src/java/simpledb/TupleDesc.java:45-48 | as written, one `next` too many on a one-field schema throws ArrayIndexOutOfBounds, and `hasNext` is then true |
| TupleDescProperties.ExhaustedCursor | src/java/simpledb/TupleDesc.java:45-48 | in the model the same calls throw NoSuchElement, and `hasNext` stays false |
| HeapFiles.HeapFile.constructor | src/java/simpledb/HeapFile.java:29-32 | the file and the descriptor are the constructor's arguments; `GetTupleDesc` returns that descriptor |
| HeapFiles.HeapFile.GetTupleDesc | src/java/simpledb/HeapFile.java:56-63 | returns the descriptor the file was constructed with |
| HeapFiles.HeapFile.GetId | src/java/simpledb/HeapFile.java:43-54 | the table id is a 32-bit `int`, computed only from the absolute path |
| HeapFiles.StringHashCode | src/java/simpledb/HeapFile.java:53 | the path's hash code, `h = 31*h + c` with 32-bit wrap-around, is always a 32-bit `int` |
| HeapFileProperties.IdDependsOnlyOnPath | src/java/simpledb/HeapFile.java:52-54 | two heap files with the same absolute path have the same id |
| HeapFiles.HeapFile.NumPages | src/java/simpledb/HeapFile.java:95-100 | the page count `n` satisfies `n*PAGE_SIZE <= length < (n+1)*PAGE_SIZE` |
| HeapFileProperties.NumPagesExamples | src/java/simpledb/HeapFile.java:98-100 | files of `3*PAGE_SIZE` and `3*PAGE_SIZE+1` bytes both have 3 pages |
| HeapFiles.PageImage | src/java/simpledb/HeapFile.java:68-74 | reading a page at an offset gives `PAGE_SIZE` bytes: byte `j` is file byte `offset+j` when the file has it, else 0, and it is exactly the file's slice when the page lies inside the file |
| HeapFiles.HeapFile.ReadPage | src/java/simpledb/HeapFile.java:66-87 | throws IllegalArgument exactly for a negative page number. Otherwise the page is keyed by a new id with the same `(tableId, pageNumber)`, is `PAGE_SIZE` bytes, and for `0 <= k < numPages()` is exactly bytes `[k*PAGE_SIZE, (k+1)*PAGE_SIZE)` |
| HeapFiles.HeapFile.ReadPageAsWritten | src/java/simpledb/HeapFile.java:73 | as written, the offset is the 32-bit product, and the read throws exactly when that product is negative |
| HeapFileProperties.ReadPageAsWrittenFailsPastTwoGiB | src/java/simpledb/HeapFile.java:73 | page 524288 of a file with more pages reads correctly in the model, but throws IllegalArgument as written |
| HeapFileProperties.ReadPageIgnoresTableId | src/java/simpledb/HeapFile.java:73-75 | the bytes read do not depend on the page id's table; the result is keyed by the requested id |
| HeapFiles.HeapFile.Pages | src/java/simpledb/HeapFile.java:66-100 | there is one tuple list per page, and page `k`'s list is the decoding of bytes `[k*PAGE_SIZE, (k+1)*PAGE_SIZE)` |
| HeapFileProperties.PagesTileFile | src/java/simpledb/HeapFile.java:66-100 | the pages laid end to end are exactly the file's bytes up to `numPages()*PAGE_SIZE`, and fewer than `PAGE_SIZE` bytes follow |
| HeapFiles.HeapFile.Iterator | src/java/simpledb/HeapFile.java:123-125 | each call returns a new scan that is not yet open |
| HeapFiles.HeapFileIterator.constructor | src/java/simpledb/HeapFile.java:134-138 | a scan starts at page 0, with no cursor, and takes the table id once from `getId()` |
| HeapFiles.HeapFileIterator.FetchPage | src/java/simpledb/HeapFile.java:142-143 | fetching page `no` gives the page read from the file under id `(tableId, no)`, whose tuples are those of page `no` |
| HeapFiles.HeapFileIterator.Open | src/java/simpledb/HeapFile.java:141-145 | fetches page `pgNo` without changing `pgNo` and puts the cursor at its first tuple, so what is left is page `pgNo` onwards |
| HeapFiles.HeapFileIterator.SkipExhaustedPages | src/java/simpledb/HeapFile.java:164-173 | the loop at the head of `next`: it ends either on a cursor with a tuple, with what is left unchanged, the pages skipped empty, and the new page fetched into `page`; or at `pgNo == numPages()` with nothing left |
| HeapFiles.HeapFileIterator.AdvancePage | src/java/simpledb/HeapFile.java:165-172 | one step of that loop inside the file: `pgNo` grows by one, the page is fetched into `page` and the cursor, and what is left does not change |
| HeapFiles.HeapFileIterator.Next | src/java/simpledb/HeapFile.java:159-176 | succeeds exactly when a tuple is left. It then returns the first tuple left and drops it, skipping exhausted pages. Otherwise it throws NoSuchElement, with nothing left. When `hasNext` is false the state does not change. `pgNo` never decreases. When a tuple is returned from another page, `pgNo < numPages()`. A call made while `hasNext` held that fails has moved `pgNo` to `numPages()`. After any failing call `hasNext()` is false. After a success on the same page, the cursor has moved on by one and `page` is unchanged. After a success on a later page `pgNo`, that page is fetched into `page`, the cursor is at its second tuple, and every page skipped in between is empty |
| HeapFiles.HeapFile.RestTake | src/java/simpledb/HeapFile.java:175 | taking from a cursor that has a tuple yields that tuple and leaves the rest |
| HeapFiles.HeapFile.RestAdvance | src/java/simpledb/HeapFile.java:164-172 | leaving an exhausted page for the next one, inside the file, does not change what is left |
| HeapFiles.HeapFile.RestAtEnd | src/java/simpledb/HeapFile.java:164-168 | an exhausted cursor on the last page, or past it, leaves nothing |
| HeapFiles.HeapFileIterator.HasNext | src/java/simpledb/HeapFile.java:147-157 | false without a cursor; with one, true exactly when the page has a tuple left or `pgNo < numPages()-1`; true whenever a tuple is left |
| HeapFileProperties.TailNonEmpty | src/java/simpledb/HeapFile.java:164-173 | when the last page holds a tuple, the pages from any page `k` on hold a tuple |
| HeapFileProperties.HasNextExact | src/java/simpledb/HeapFile.java:147-157 | when the current page is the last one or the last page holds a tuple, `hasNext()` holds exactly when a tuple is left |
| HeapFileProperties.HasNextWithEmptyTail | src/java/simpledb/HeapFile.java:147-168 | with the current page used up and only empty pages after it, `hasNext()` is true although nothing is left |
| HeapFileProperties.EmptyTail | src/java/simpledb/HeapFile.java:164-168 | a run of empty pages to the end of the file yields no tuple |
| HeapFileProperties.TuplesFromIsFlatten | src/java/simpledb/HeapFile.java:141-176 | the scan order from page `k` on is the concatenation of the tuple lists of pages `k`, `k+1`, …, in page order |
| HeapFileProperties.ScanToEnd | src/java/simpledb/HeapFile.java:148-176 | when the current page is the last one or the last page holds a tuple, calling `next` while `hasNext` yields exactly the tuples that were left, and ends with `hasNext()` false |
| HeapFileProperties.ScanTwice | src/java/simpledb/HeapFile.java:141-184 | when the file has a page and its last page holds a tuple, `open` and then `next` while `hasNext` yields the concatenation of all pages' tuples in page order; after `rewind`, the same sequence again |
| HeapFileProperties.UnopenedAndClosedScans | src/java/simpledb/HeapFile.java:148-190 | before `open`, and after `close` (even twice), `hasNext()` is false and `next()` throws NoSuchElement |
| HeapFiles.HeapFileIterator.Rewind | src/java/simpledb/HeapFile.java:179-184 | sets `pgNo` to 0 and the cursor to the start of page 0, so what is left is the whole file; the `page` field is not touched |
| HeapFiles.HeapFileIterator.Close | src/java/simpledb/HeapFile.java:187-190 | clears the cursor and the page and keeps `pgNo`; afterwards `hasNext()` is false and nothing is left |

## Left out

- Real file I/O is not modelled: opening, seeking, reading and closing the file, and `file.length()`. The file is a fixed byte sequence. So `numPages()` cannot change while a scan runs, and an I/O error can only be the failed seek to a negative offset.
- `printStackTrace` in `readPage`'s `finally` is not modelled, and neither is the NullPointerException there when the file never opened. Both are I/O-failure plumbing.
- The IOException that HeapPage's constructor may throw is not modelled.
- HeapPage.java is not part of this model. A page's decoding is the constant function `HeapFile.decode`, and nothing is assumed about it.
- HeapPageId.java, Tuple.java, BufferPool.java, Database.java, Permissions.java and TransactionId.java are not part of this model. A page fetch through the buffer pool is a read of that page from the file.
- Locking, the transaction id that the scan carries, and the DbException and TransactionAbortedException a fetch may raise have no behaviour here and are left out.
- Type.java is not part of this model. Types are `INT_TYPE` (4 bytes) and `STRING_TYPE` (`STRING_LEN + 4` bytes, with `STRING_LEN` = 128). The proofs use these widths (for instance that an int field is 4 bytes wide) and the fact that the two types differ.
- `PAGE_SIZE` is fixed at 4096 bytes. Changing the page size at run time is not modelled.
- `writePage`, `insertTuple` and `deleteTuple` are left out. They are empty stubs.
- `TupleDesc.hashCode` is left out. It only throws UnsupportedOperationException.
- `toString` of `TupleDesc` and `TDItem` is left out. It is a diagnostic format and nothing depends on it.
- `getFile` is left out. It only returns the constructor's argument.
- `Serializable` is left out.
- `equals` takes a possibly null `TupleDesc`, not any object. The `getClass()` test rejects every object whose class is not exactly `TupleDesc`, so comparing with a string or any other object returns false; that case is not modelled, because the argument type cannot express it.
- Java `int` overflow is not modelled in `getSize`, in `pgNo`, or in the `(int)` cast of the page count. The cast matters only beyond 2^31 pages. The overflow of the page offset is modelled, in `ReadPageAsWritten`.
- HeapFiles.StringHashCode: hashes Dafny characters, which are Unicode scalar values. Java hashes UTF-16 code units. The two agree on paths without characters outside the Basic Multilingual Plane. Resolving a relative path to an absolute one is not modelled.
- HeapFiles.HeapFileIterator.Next: states `pgNo < numPages()` only when the call moved to another page. A file shorter than one page has `numPages() == 0`, and `open` can still yield tuples from page 0's partial image.
- HeapFileProperties.ScanTwice: stated only for files with at least one page whose last page holds a tuple. On an empty file the scan decodes an all-zero image read past the end of the file, and the model does not fix what HeapPage makes of it. With an empty last page, `hasNext` can be true while nothing is left (`HasNextWithEmptyTail`).
- HeapFiles.HeapFileIterator.Next: the scan fetches pages with the corrected `ReadPage`, not `ReadPageAsWritten`. In a file of more than 524288 pages, the code as written throws IllegalArgumentException from `next` when it reaches page 524288, while the model, and `ScanTwice`, yield that page's tuples.
- Concurrency across scans is left out. The code has none of its own.

## Findings

| source | as written | input that shows it | evidently intended | confidence | as-written member | corrected member |
|---|---|---|---|---|---|---|
| src/java/simpledb/TupleDesc.java:150 | `tupleDescItems[i].fieldName.equals(name)` is called on a name the constructor allows to be null | field names `[null, "a"]`, lookup of `"a"`: NullPointerException | skip unnamed fields: return 1 here, or NoSuchElement when no named field matches | medium, not executed | TupleDescs.FieldNameToIndexAsWritten, TupleDescProperties.NullNameCounterexample | TupleDescs.TupleDesc.FieldNameToIndex |
| src/java/simpledb/TupleDesc.java:45-48 | `next` evaluates `tupleDescItems[i++]`, so `i` grows before the bounds check; `hasNext` tests `i != length` | one-field schema: `next()`, `next()` (ArrayIndexOutOfBounds), then `hasNext()` returns true | an exhausted cursor stays exhausted: `next` throws NoSuchElement without moving, and `hasNext` stays false | high, not executed | TupleDescs.TDIterator.NextAsWritten, TupleDescProperties.ExhaustedCursorAsWritten | TupleDescs.TDIterator.Next, TupleDescProperties.ExhaustedCursor |
| src/java/simpledb/HeapFile.java:73 | the page offset `pid.getPageNumber() * BufferPool.getPageSize()` is an `int` product | 4096-byte pages, file of more than 524288 pages, page 524288: the offset wraps to -2^31, the seek fails, IllegalArgumentException | a `long` offset, so that every page of the file can be read; the scan, which fetches pages through `readPage`, then also reaches page 524288 | medium, not executed | HeapFiles.HeapFile.ReadPageAsWritten, HeapFileProperties.ReadPageAsWrittenFailsPastTwoGiB | HeapFiles.HeapFile.ReadPage |
