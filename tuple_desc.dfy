/**
 * The schema of a tuple: an ordered, immutable list of (type, name) fields,
 * with lookup by position and by name, the byte width of a tuple, positional
 * concatenation and an equality that compares types only.
 */
module TupleDescs {
  import opened Errors
  import opened Types

  /** One field of a schema. The name may be null. */
  datatype TDItem = TDItem(fieldType: Type, fieldName: Option<string>)

  /** The fields of a schema: there is always at least one. */
  type Items = s: seq<TDItem> | |s| > 0 witness [TDItem(INT_TYPE, None)]

  // ---------------------------------------------------------------------
  // Specification functions over field lists
  // ---------------------------------------------------------------------

  /** The types of the fields, in order, with the names dropped. */
  function TypesOf(items: seq<TDItem>): seq<Type>
  {
    seq(|items|, i requires 0 <= i < |items| => items[i].fieldType)
  }

  /** Same number of fields, and the same type at every position. */
  ghost predicate TypesMatch(a: seq<TDItem>, b: seq<TDItem>)
  {
    |a| == |b| && forall i :: 0 <= i < |a| ==> a[i].fieldType == b[i].fieldType
  }

  /** Sum of the byte widths of the fields' types. */
  function SumLen(items: seq<TDItem>): nat
  {
    if items == [] then 0
    else SumLen(items[..|items| - 1]) + Len(items[|items| - 1].fieldType)
  }

  /** A field answers to `name` when it has a name and that name is `name`. */
  predicate Matches(item: TDItem, name: Option<string>)
  {
    item.fieldName.Some? && item.fieldName == name
  }

  /** Index of the first field that answers to `name`, or not-found. */
  function IndexOfName(items: seq<TDItem>, name: Option<string>): (r: Result<nat>)
    ensures r.Ok? ==> r.value < |items| && Matches(items[r.value], name)
    ensures r.Ok? ==> forall j :: 0 <= j < r.value ==> !Matches(items[j], name)
    ensures r.Err? ==> r.error == NoSuchElement
    ensures r.Err? ==> forall j :: 0 <= j < |items| ==> !Matches(items[j], name)
  {
    if items == [] then Err(NoSuchElement)
    else if Matches(items[0], name) then Ok(0)
    else
      match IndexOfName(items[1..], name)
      case Ok(k) => Ok(k + 1)
      case Err(e) => Err(e)
  }

  /**
   * fieldNameToIndex exactly as written: it calls `equals` on every field's
   * name, so a null name met before the match throws NullPointerException.
   */
  function FieldNameToIndexAsWritten(items: seq<TDItem>, name: Option<string>): (r: Result<nat>)
    ensures r.Ok? ==> r.value < |items| && items[r.value].fieldName == name
    ensures r.Ok? ==> forall j :: 0 <= j < r.value ==>
      items[j].fieldName.Some? && items[j].fieldName != name
    ensures r.Err? ==> r.error in {NoSuchElement, NullPointer}
    ensures r == Err(NoSuchElement) ==> forall j :: 0 <= j < |items| ==>
      items[j].fieldName.Some? && items[j].fieldName != name
  {
    if items == [] then Err(NoSuchElement)
    else if items[0].fieldName.None? then Err(NullPointer)
    else if items[0].fieldName == name then Ok(0)
    else
      match FieldNameToIndexAsWritten(items[1..], name)
      case Ok(k) => Ok(k + 1)
      case Err(e) => Err(e)
  }

  // ---------------------------------------------------------------------
  // TupleDesc
  // ---------------------------------------------------------------------

  class TupleDesc {
    /** The field array; nothing writes it after construction. */
    const items: Items

    /** A schema with the given types and (possibly null) names. */
    constructor (typeAr: seq<Type>, fieldAr: seq<Option<string>>)
      requires |typeAr| > 0 && |typeAr| == |fieldAr|
      ensures |items| == |typeAr|
      ensures forall i :: 0 <= i < |typeAr| ==> items[i] == TDItem(typeAr[i], fieldAr[i])
    {
      var a := new TDItem[|typeAr|];
      for i := 0 to |typeAr|
        invariant forall j :: 0 <= j < i ==> a[j] == TDItem(typeAr[j], fieldAr[j])
      {
        a[i] := TDItem(typeAr[i], fieldAr[i]);
      }
      items := a[..];
    }

    /** A schema with the given types and anonymous ("") fields. */
    constructor FromTypes(typeAr: seq<Type>)
      requires |typeAr| > 0
      ensures |items| == |typeAr|
      ensures forall i :: 0 <= i < |typeAr| ==> items[i] == TDItem(typeAr[i], Some(""))
    {
      var a := new TDItem[|typeAr|];
      for i := 0 to |typeAr|
        invariant forall j :: 0 <= j < i ==> a[j] == TDItem(typeAr[j], Some(""))
      {
        a[i] := TDItem(typeAr[i], Some(""));
      }
      items := a[..];
    }

    /** Number of fields; a schema always has at least one. */
    function NumFields(): (n: nat)
      ensures n == |items| && n > 0
    {
      |items|
    }

    /** Name of field `i` (possibly null); NoSuchElement outside the fields. */
    function GetFieldName(i: int): (r: Result<Option<string>>)
      ensures r.Err? <==> !(0 <= i < NumFields())
      ensures r.Err? ==> r.error == NoSuchElement
      ensures r.Ok? ==> r.value == items[i].fieldName
    {
      if i < 0 || i >= |items| then Err(NoSuchElement) else Ok(items[i].fieldName)
    }

    /** Type of field `i`; NoSuchElement outside the fields. */
    function GetFieldType(i: int): (r: Result<Type>)
      ensures r.Err? <==> !(0 <= i < NumFields())
      ensures r.Err? ==> r.error == NoSuchElement
      ensures r.Ok? ==> r.value == items[i].fieldType
    {
      if i < 0 || i >= |items| then Err(NoSuchElement) else Ok(items[i].fieldType)
    }

    /**
     * Index of the first field named `name`. Fields whose name is null are
     * skipped (the code as written throws on them, see
     * FieldNameToIndexAsWritten).
     */
    method FieldNameToIndex(name: Option<string>) returns (r: Result<nat>)
      ensures r == IndexOfName(items, name)
    {
      for i := 0 to |items|
        invariant forall j :: 0 <= j < i ==> !Matches(items[j], name)
      {
        if Matches(items[i], name) {
          return Ok(i);
        }
      }
      return Err(NoSuchElement);
    }

    /** Byte width of a tuple with this schema. */
    method GetSize() returns (allSize: nat)
      ensures allSize == SumLen(items)
    {
      allSize := 0;
      for i := 0 to NumFields()
        invariant allSize == SumLen(items[..i])
      {
        assert items[..i + 1][..i] == items[..i];
        allSize := allSize + Len(GetFieldType(i).value);
      }
      assert items[..|items|] == items;
    }

    /** A fresh cursor over the fields, starting at the first. */
    method Iterator() returns (it: TDIterator)
      ensures fresh(it) && it.td == this && it.i == 0
    {
      it := new TDIterator(this);
    }

    /** The fields of `td1` followed by those of `td2`. */
    static method Merge(td1: TupleDesc, td2: TupleDesc) returns (td: TupleDesc)
      ensures td.items == td1.items + td2.items
    {
      var numFields := td1.NumFields() + td2.NumFields();
      var i := 0;
      var types := new Type[numFields];
      var strings := new Option<string>[numFields];

      var it1 := td1.Iterator();
      while it1.HasNext()
        invariant it1.td == td1 && it1.Valid() && i == it1.i
        invariant forall j :: 0 <= j < i ==>
          types[j] == td1.items[j].fieldType && strings[j] == td1.items[j].fieldName
        decreases td1.NumFields() - i
      {
        var item := it1.NextAsWritten();
        types[i] := item.value.fieldType;
        strings[i] := item.value.fieldName;
        i := i + 1;
      }

      var it2 := td2.Iterator();
      while it2.HasNext()
        invariant it2.td == td2 && it2.Valid() && i == td1.NumFields() + it2.i
        invariant forall j :: 0 <= j < td1.NumFields() ==>
          types[j] == td1.items[j].fieldType && strings[j] == td1.items[j].fieldName
        invariant forall j :: td1.NumFields() <= j < i ==>
          types[j] == td2.items[j - td1.NumFields()].fieldType &&
          strings[j] == td2.items[j - td1.NumFields()].fieldName
        decreases td2.NumFields() - it2.i
      {
        var item := it2.NextAsWritten();
        types[i] := item.value.fieldType;
        strings[i] := item.value.fieldName;
        i := i + 1;
      }

      td := new TupleDesc(types[..], strings[..]);
      assert forall j :: 0 <= j < numFields ==> td.items[j] == (td1.items + td2.items)[j];
    }

    /** Equal iff `o` is a schema with the same types at the same positions. */
    method Equals(o: TupleDesc?) returns (eq: bool)
      ensures eq <==> o != null && TypesMatch(items, o.items)
    {
      if o == null {
        return false;
      }
      if NumFields() != o.NumFields() {
        return false;
      }
      for i := 0 to NumFields()
        invariant forall j :: 0 <= j < i ==> items[j].fieldType == o.items[j].fieldType
      {
        if GetFieldType(i) != o.GetFieldType(i) {
          return false;
        }
      }
      return true;
    }
  }

  // ---------------------------------------------------------------------
  // TDIterator
  // ---------------------------------------------------------------------

  /** A cursor over the fields of one schema. */
  class TDIterator {
    const td: TupleDesc
    var i: int

    constructor (td: TupleDesc)
      ensures this.td == td && i == 0
    {
      this.td := td;
      i := 0;
    }

    ghost predicate Valid()
      reads this
    {
      0 <= i <= td.NumFields()
    }

    /** True while the cursor has a field left to yield. */
    predicate HasNext(): (b: bool)
      reads this
      ensures Valid() ==> (b <==> Rest() != [])
    {
      i != td.NumFields()
    }

    /** The fields this cursor has still to yield. */
    ghost function Rest(): seq<TDItem>
      reads this
      requires Valid()
    {
      td.items[i..]
    }

    /** The next field; NoSuchElement, and no step, once all are yielded. */
    method Next() returns (r: Result<TDItem>)
      requires Valid()
      modifies this
      ensures Valid()
      ensures r.Ok? <==> old(HasNext())
      ensures r.Ok? ==> [r.value] + Rest() == old(Rest()) && i == old(i) + 1
      ensures r.Err? ==> r.error == NoSuchElement && i == old(i)
    {
      if i < td.NumFields() {
        r := Ok(td.items[i]);
        i := i + 1;
      } else {
        r := Err(NoSuchElement);
      }
    }

    /**
     * next exactly as written, `tupleDescItems[i++]`: the index is advanced
     * before the array bound is checked.
     */
    method NextAsWritten() returns (r: Result<TDItem>)
      modifies this
      ensures i == old(i) + 1
      ensures 0 <= old(i) < td.NumFields() ==> r == Ok(td.items[old(i)])
      ensures !(0 <= old(i) < td.NumFields()) ==> r == Err(IndexOutOfBounds)
    {
      var k := i;
      i := i + 1;
      if 0 <= k < td.NumFields() {
        r := Ok(td.items[k]);
      } else {
        r := Err(IndexOutOfBounds);
      }
    }
  }
}
