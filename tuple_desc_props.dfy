/** Properties of schemas: size, merge, equality and lookup by name. */
module TupleDescProperties {
  import opened Errors
  import opened Types
  import opened TupleDescs

  // ---------------------------------------------------------------------
  // Positional access
  // ---------------------------------------------------------------------

  /** Both accessors fail, with NoSuchElement, exactly outside [0, numFields). */
  lemma FieldAccessInRange(td: TupleDesc, i: int)
    ensures td.GetFieldName(i).Err? <==> i < 0 || i >= td.NumFields()
    ensures td.GetFieldType(i).Err? <==> i < 0 || i >= td.NumFields()
    ensures td.GetFieldName(i).Err? ==> td.GetFieldName(i).error == NoSuchElement
    ensures td.GetFieldType(i).Err? ==> td.GetFieldType(i).error == NoSuchElement
    ensures 0 <= i < td.NumFields() ==>
      td.GetFieldName(i) == Ok(td.items[i].fieldName) &&
      td.GetFieldType(i) == Ok(td.items[i].fieldType)
  {
  }

  /** Every positional lookup on a merge is a lookup on one of its operands. */
  lemma MergedFieldAccess(td1: TupleDesc, td2: TupleDesc, td: TupleDesc, i: int)
    requires td.items == td1.items + td2.items
    ensures td.NumFields() == td1.NumFields() + td2.NumFields()
    ensures i < td1.NumFields() ==>
      td.GetFieldType(i) == td1.GetFieldType(i) && td.GetFieldName(i) == td1.GetFieldName(i)
    ensures i >= td1.NumFields() ==>
      td.GetFieldType(i) == td2.GetFieldType(i - td1.NumFields()) &&
      td.GetFieldName(i) == td2.GetFieldName(i - td1.NumFields())
  {
  }

  /** A full pass of a fresh cursor yields the fields in index order. */
  method ItemsInOrder(td: TupleDesc) returns (ys: seq<TDItem>)
    ensures ys == td.items
  {
    ys := [];
    var it := td.Iterator();
    while it.HasNext()
      invariant it.td == td && it.Valid()
      invariant ys == td.items[..it.i]
      decreases td.NumFields() - it.i
    {
      var item := it.NextAsWritten();
      ys := ys + [item.value];
    }
  }

  // ---------------------------------------------------------------------
  // Size
  // ---------------------------------------------------------------------

  /** The width of a concatenation is the sum of the widths. */
  lemma {:induction false} SumLenAppend(a: seq<TDItem>, b: seq<TDItem>)
    ensures SumLen(a + b) == SumLen(a) + SumLen(b)
    decreases |b|
  {
    if b == [] {
      assert a + b == a;
    } else {
      var b' := b[..|b| - 1];
      assert (a + b)[..|a + b| - 1] == a + b';
      SumLenAppend(a, b');
    }
  }

  /** The size of a merged schema is the sum of the operands' sizes. */
  lemma MergedSize(td1: TupleDesc, td2: TupleDesc, td: TupleDesc)
    requires td.items == td1.items + td2.items
    ensures SumLen(td.items) == SumLen(td1.items) + SumLen(td2.items)
  {
    SumLenAppend(td1.items, td2.items);
  }

  /** Every field takes at least one byte, so a schema's tuples are never empty. */
  lemma {:induction false} SumLenAtLeastFieldCount(items: seq<TDItem>)
    ensures SumLen(items) >= |items|
  {
    if items != [] {
      SumLenAtLeastFieldCount(items[..|items| - 1]);
    }
  }

  /** Two int fields take 8 bytes. */
  lemma TwoIntFieldsSize()
    ensures SumLen([TDItem(INT_TYPE, Some("a")), TDItem(INT_TYPE, Some("b"))]) == 8
  {
    var s := [TDItem(INT_TYPE, Some("a")), TDItem(INT_TYPE, Some("b"))];
    assert s[..1][..0] == [];
  }

  // ---------------------------------------------------------------------
  // Equality
  // ---------------------------------------------------------------------

  /** Equality is exactly equality of the type sequences: names play no part. */
  lemma {:induction false} TypesMatchIffSameTypes(a: seq<TDItem>, b: seq<TDItem>)
    ensures TypesMatch(a, b) <==> TypesOf(a) == TypesOf(b)
  {
    if TypesOf(a) == TypesOf(b) {
      forall i | 0 <= i < |a|
        ensures a[i].fieldType == b[i].fieldType
      {
        assert TypesOf(a)[i] == TypesOf(b)[i];
      }
    }
  }

  /** Schema equality is an equivalence relation. */
  lemma TypesMatchIsEquivalence(a: seq<TDItem>, b: seq<TDItem>, c: seq<TDItem>)
    ensures TypesMatch(a, a)
    ensures TypesMatch(a, b) ==> TypesMatch(b, a)
    ensures TypesMatch(a, b) && TypesMatch(b, c) ==> TypesMatch(a, c)
  {
  }

  /** Renaming fields never changes equality. */
  lemma RenamingPreservesEquality(a: seq<TDItem>, names: seq<Option<string>>)
    requires |names| == |a|
    ensures TypesMatch(a, seq(|a|, i requires 0 <= i < |a| => TDItem(a[i].fieldType, names[i])))
  {
  }

  /** [(int,"x")] equals [(int,"y")], but not [(int,"x"),(int,"y")] nor [(string,"x")]. */
  lemma EqualityExamples()
    ensures TypesMatch([TDItem(INT_TYPE, Some("x"))], [TDItem(INT_TYPE, Some("y"))])
    ensures !TypesMatch([TDItem(INT_TYPE, Some("x"))],
                        [TDItem(INT_TYPE, Some("x")), TDItem(INT_TYPE, Some("y"))])
    ensures !TypesMatch([TDItem(INT_TYPE, Some("x"))], [TDItem(STRING_TYPE, Some("x"))])
  {
    var a := [TDItem(INT_TYPE, Some("x"))];
    var c := [TDItem(STRING_TYPE, Some("x"))];
    assert a[0].fieldType != c[0].fieldType;
  }

  /** Merging equal schemas gives equal schemas. */
  lemma {:induction false} MergeRespectsEquality(a: seq<TDItem>, a2: seq<TDItem>, b: seq<TDItem>, b2: seq<TDItem>)
    requires TypesMatch(a, a2) && TypesMatch(b, b2)
    ensures TypesMatch(a + b, a2 + b2)
  {
    forall i | 0 <= i < |a + b|
      ensures (a + b)[i].fieldType == (a2 + b2)[i].fieldType
    {
      if i >= |a| {
        assert (a + b)[i] == b[i - |a|];
        assert (a2 + b2)[i] == b2[i - |a|];
      }
    }
  }

  // ---------------------------------------------------------------------
  // Lookup by name
  // ---------------------------------------------------------------------

  /** On ["a","b","a"], "a" is found at 0 and "z" is not found. */
  lemma LookupExamples()
    ensures IndexOfName([TDItem(INT_TYPE, Some("a")), TDItem(INT_TYPE, Some("b")),
                         TDItem(INT_TYPE, Some("a"))], Some("a")) == Ok(0)
    ensures IndexOfName([TDItem(INT_TYPE, Some("a")), TDItem(INT_TYPE, Some("b")),
                         TDItem(INT_TYPE, Some("a"))], Some("z")) == Err(NoSuchElement)
  {
  }

  /** When no name is null, the code as written and the model agree. */
  lemma {:induction false} LookupAgreesWithoutNullNames(items: seq<TDItem>, name: Option<string>)
    requires forall j :: 0 <= j < |items| ==> items[j].fieldName.Some?
    ensures FieldNameToIndexAsWritten(items, name) == IndexOfName(items, name)
  {
    if items != [] {
      LookupAgreesWithoutNullNames(items[1..], name);
    }
  }

  /** As written, a null name before the first match throws NullPointerException. */
  lemma {:induction false} NullNameBeforeMatchThrows(items: seq<TDItem>, name: Option<string>, k: nat)
    requires k < |items| && items[k].fieldName.None?
    requires forall j :: 0 <= j < k ==> !Matches(items[j], name)
    ensures FieldNameToIndexAsWritten(items, name) == Err(NullPointer)
  {
    if k > 0 {
      assert items[0].fieldName.None? || items[0].fieldName != name;
      NullNameBeforeMatchThrows(items[1..], name, k - 1);
    }
  }

  /** As written, a match that comes before every null name is found. */
  lemma {:induction false} MatchBeforeNullFound(items: seq<TDItem>, name: Option<string>, k: nat)
    requires k < |items| && name.Some? && items[k].fieldName == name
    requires forall j :: 0 <= j < k ==> items[j].fieldName.Some? && items[j].fieldName != name
    ensures FieldNameToIndexAsWritten(items, name) == Ok(k)
  {
    if k > 0 {
      MatchBeforeNullFound(items[1..], name, k - 1);
    }
  }

  /** Names [null, "a"]: looking up "a" throws as written, and finds index 1 in the model. */
  lemma NullNameCounterexample()
    ensures FieldNameToIndexAsWritten([TDItem(INT_TYPE, None), TDItem(INT_TYPE, Some("a"))], Some("a"))
            == Err(NullPointer)
    ensures IndexOfName([TDItem(INT_TYPE, None), TDItem(INT_TYPE, Some("a"))], Some("a")) == Ok(1)
  {
  }

  // ---------------------------------------------------------------------
  // The field cursor past its end
  // ---------------------------------------------------------------------

  /**
   * With the code as written, a `next` past the end of a one-field schema
   * throws ArrayIndexOutOfBounds and leaves `hasNext` true.
   */
  method ExhaustedCursorAsWritten() returns (last: Result<TDItem>, more: bool)
    ensures last == Err(IndexOutOfBounds) && more
  {
    var td := new TupleDesc([INT_TYPE], [Some("x")]);
    var it := td.Iterator();
    var first := it.NextAsWritten();
    last := it.NextAsWritten();
    more := it.HasNext();
  }

  /** In the model, the same calls throw NoSuchElement and `hasNext` stays false. */
  method ExhaustedCursor() returns (last: Result<TDItem>, more: bool)
    ensures last == Err(NoSuchElement) && !more
  {
    var td := new TupleDesc([INT_TYPE], [Some("x")]);
    var it := td.Iterator();
    var first := it.Next();
    last := it.Next();
    more := it.HasNext();
  }
}
