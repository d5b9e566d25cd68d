/**
 * ListCompactionConverter (ListCompactionConverter.cs): writes a list of records as one
 * header of field names and one row of values per record, and reads that form back.
 */
module ListCompaction {
  import opened Wrappers
  import opened Json

  /** The tag written as element 0 of a compacted array. */
  const CompactToken: string := "$__"

  // ---------------------------------------------------------------------------------
  // CanConvert

  /** The types the converter is asked about, reduced to what CanConvert inspects. */
  datatype TypeDesc =
    | ListOf(item: TypeDesc)                  // List<T>: a class that is IEnumerable
    | StringType                              // string: a class that is IEnumerable
    | ArrayOf(elem: TypeDesc)                 // T[]: a class that is IEnumerable
    | ValueType(name: string)                 // int, bool, enums, structs
    | ClassType(name: string, enumerable: bool) // any other class, with or without IEnumerable
    | InterfaceType(name: string, enumerable: bool)

  predicate IsClass(t: TypeDesc) {
    !t.ValueType? && !t.InterfaceType?
  }

  /** typeof(IEnumerable).IsAssignableFrom(t) */
  predicate IsEnumerable(t: TypeDesc) {
    match t
    case ListOf(_) => true
    case StringType => true
    case ArrayOf(_) => true
    case ValueType(_) => false
    case ClassType(_, enumerable) => enumerable
    case InterfaceType(_, enumerable) => enumerable
  }

  /**
   * CanConvert: the type is List<T> whose T is a class type that is not enumerable. So
   * it holds exactly for lists of plain record classes: never for lists of strings, of
   * lists, of arrays, of value types or of interfaces, nor for anything not a List<T>.
   */
  function CanConvert(t: TypeDesc): (r: bool)
    ensures r <==> exists name :: t == ListOf(ClassType(name, false))
  {
    t.ListOf? && IsClass(t.item) && !IsEnumerable(t.item)
  }

  // ---------------------------------------------------------------------------------
  // Encoding (WriteJson)

  /** The field names of a record, as JSON strings, in its order. */
  function Names(rec: Record): (r: seq<Json>)
    ensures |r| == |rec|
    ensures forall k :: 0 <= k < |rec| ==> r[k] == JString(rec[k].0)
  {
    seq(|rec|, k requires 0 <= k < |rec| => JString(rec[k].0))
  }

  /** The field values of a record, names omitted, in its order. */
  function Values(rec: Record): (r: seq<Json>)
    ensures |r| == |rec|
    ensures forall k :: 0 <= k < |rec| ==> r[k] == rec[k].1
  {
    seq(|rec|, k requires 0 <= k < |rec| => rec[k].1)
  }

  /** One value row per record, in list order. */
  function Rows(list: seq<Record>): (r: seq<Json>)
    ensures |r| == |list|
    ensures forall k :: 0 <= k < |list| ==> r[k] == JArray(Values(list[k]))
  {
    seq(|list|, k requires 0 <= k < |list| => JArray(Values(list[k])))
  }

  /**
   * The compacted form of `list`. Empty: an empty array, no tag. Otherwise n + 2
   * elements: the tag, the names of the FIRST record only, then record k's values at
   * position k + 2, however many fields record k has; shapes are not compared.
   */
  function Encode(list: seq<Record>): (r: Json)
    ensures r.JArray?
    ensures list == [] ==> r.items == []
    ensures list != [] ==>
      && |r.items| == |list| + 2
      && r.items[0] == JString(CompactToken)
      && r.items[1] == JArray(Names(list[0]))
      && forall k :: 0 <= k < |list| ==> r.items[k + 2] == JArray(Values(list[k]))
  {
    if list == [] then JArray([])
    else JArray([JString(CompactToken), JArray(Names(list[0]))] + Rows(list))
  }

  /** WriteJson, building the array, the header and each row with Add. */
  method WriteJson(list: seq<Record>) returns (compact: Json)
    ensures compact == Encode(list)
  {
    var items: seq<Json> := [];
    if |list| > 0 {
      var keys: seq<Json> := [];
      var first := list[0];
      for k := 0 to |first|
        invariant keys == Names(first)[..k]
      {
        keys := keys + [JString(first[k].0)];
      }
      assert keys == Names(first);
      items := items + [JString(CompactToken)];
      items := items + [JArray(keys)];
      for j := 0 to |list|
        invariant |items| == j + 2
        invariant items[..2] == [JString(CompactToken), JArray(Names(first))]
        invariant items[2..] == Rows(list)[..j]
      {
        var obj := list[j];
        var itemValues: seq<Json> := [];
        for k := 0 to |obj|
          invariant itemValues == Values(obj)[..k]
        {
          itemValues := itemValues + [obj[k].1];
        }
        assert itemValues == Values(obj);
        assert Rows(list)[..j + 1] == Rows(list)[..j] + [JArray(itemValues)];
        items := items + [JArray(itemValues)];
      }
      assert items == items[..2] + items[2..];
    }
    compact := JArray(items);
  }

  // ---------------------------------------------------------------------------------
  // Decoding (ReadJson)

  /** The exceptions ReadJson can raise on the compacted form. */
  datatype DecodeError =
    | NotAnArray      // JArray.Load: the token is not an array
    | MissingHeader   // array[1]: the array has a single element
    | HeaderNotArray  // (JArray)array[1]: element 1 is not an array
    | KeyNotString    // a header entry is not a string
    | RowTooShort     // itemValues[i]: the row has fewer values than the header has names
    | DuplicateKey    // JObject.Add: the header repeats a name

  /** The header names strings only, no name twice. */
  predicate ValidHeader(keys: seq<Json>) {
    && (forall k :: 0 <= k < |keys| ==> keys[k].JString?)
    && (forall j, k :: 0 <= j < k < |keys| ==> keys[j] != keys[k])
  }

  /** The record already has a property called `name`. */
  predicate HasName(rec: Record, name: string) {
    exists k :: 0 <= k < |rec| && rec[k].0 == name
  }

  /**
   * One decoded record: header name i paired with row value i, for i in header order;
   * values beyond the header are ignored. The first exception, in loop order, is the
   * result.
   */
  function DecodeRow(keys: seq<Json>, row: seq<Json>): (r: Result<Record, DecodeError>)
    ensures r.Success? ==> |r.value| == |keys|
    ensures |row| < |keys| ==> r.Failure?
    decreases |keys|
  {
    if keys == [] then Success([])
    else
      var n := |keys| - 1;
      var prefix :- DecodeRow(keys[..n], row);
      if !keys[n].JString? then Failure(KeyNotString)
      else if n >= |row| then Failure(RowTooShort)
      else if HasName(prefix, keys[n].s) then Failure(DuplicateKey)
      else Success(prefix + [(keys[n].s, row[n])])
  }

  /**
   * A row decodes exactly when the header names strings only, none twice, and the row
   * has a value for every name; the record then has the header's names and the row's
   * values, position by position.
   */
  lemma {:induction false} DecodeRowZips(keys: seq<Json>, row: seq<Json>)
    ensures DecodeRow(keys, row).Success? <==> ValidHeader(keys) && |keys| <= |row|
    ensures DecodeRow(keys, row).Success? ==>
      && |DecodeRow(keys, row).value| == |keys|
      && forall k :: 0 <= k < |keys| ==>
           keys[k] == JString(DecodeRow(keys, row).value[k].0) && DecodeRow(keys, row).value[k].1 == row[k]
    decreases |keys|
  {
    if keys != [] {
      var n := |keys| - 1;
      var init := keys[..n];
      assert forall k :: 0 <= k < n ==> init[k] == keys[k];
      DecodeRowZips(init, row);
      var r := DecodeRow(init, row);
      if r.Success? && keys[n].JString? && n < |row| {
        if HasName(r.value, keys[n].s) {
          var k :| 0 <= k < |r.value| && r.value[k].0 == keys[n].s;
          assert keys[k] == keys[n];
        } else {
          assert forall k :: 0 <= k < n ==> keys[k] != keys[n];
        }
      }
    }
  }

  /** The records of `rows` decoded in order; the first failure ends decoding. */
  function DecodeRows(keys: seq<Json>, rows: seq<seq<Json>>): (r: Result<seq<Record>, DecodeError>)
    ensures r.Success? <==> forall k :: 0 <= k < |rows| ==> DecodeRow(keys, rows[k]).Success?
    ensures r.Success? ==>
      && |r.value| == |rows|
      && forall k :: 0 <= k < |rows| ==> r.value[k] == DecodeRow(keys, rows[k]).value
    decreases |rows|
  {
    if rows == [] then Success([])
    else
      var n := |rows| - 1;
      assert forall k :: 0 <= k < n ==> rows[..n][k] == rows[k];
      var done :- DecodeRows(keys, rows[..n]);
      var rec :- DecodeRow(keys, rows[n]);
      Success(done + [rec])
  }

  /** array.Children<JArray>(): the elements that are arrays, in order; others are skipped. */
  function ArrayChildren(items: seq<Json>): (r: seq<seq<Json>>)
    ensures |r| <= |items|
  {
    if items == [] then []
    else (if items[0].JArray? then [items[0].items] else []) + ArrayChildren(items[1..])
  }

  /**
   * ReadJson as written. An empty array is an empty list. Otherwise element 1 is the
   * header, and the rows are the array-typed elements after the first TWO of them:
   * the tag is a string and is not among them, so the header and the first row go.
   */
  function Decode(token: Json): (r: Result<seq<Record>, DecodeError>)
    ensures r.Success? ==> token.JArray?
    ensures r.Success? && token.items != [] ==>
      && |token.items| >= 2 && token.items[1].JArray?
      && |r.value| + 2 <= |token.items|
      && forall k :: 0 <= k < |r.value| ==> |r.value[k]| == |token.items[1].items|
  {
    if !token.JArray? then Failure(NotAnArray)
    else if token.items == [] then Success([])
    else if |token.items| < 2 then Failure(MissingHeader)
    else if !token.items[1].JArray? then Failure(HeaderNotArray)
    else
      var children := ArrayChildren(token.items);
      DecodeRows(token.items[1].items, if |children| < 2 then [] else children[2..])
  }

  /** ReadJson as its comment intends: the rows are all array-typed elements but the header. */
  function DecodeIntended(token: Json): (r: Result<seq<Record>, DecodeError>)
    ensures r.Success? ==> token.JArray?
    ensures r.Success? && token.items != [] ==>
      && |token.items| >= 2 && token.items[1].JArray?
      && |r.value| + 1 <= |token.items|
      && forall k :: 0 <= k < |r.value| ==> |r.value[k]| == |token.items[1].items|
  {
    if !token.JArray? then Failure(NotAnArray)
    else if token.items == [] then Success([])
    else if |token.items| < 2 then Failure(MissingHeader)
    else if !token.items[1].JArray? then Failure(HeaderNotArray)
    else
      var children := ArrayChildren(token.items);
      DecodeRows(token.items[1].items, if |children| < 1 then [] else children[1..])
  }

  /** A failure while decoding the first names of the header is the row's failure. */
  lemma {:induction false} DecodeRowPrefixFails(keys: seq<Json>, row: seq<Json>, m: nat)
    requires m <= |keys| && DecodeRow(keys[..m], row).Failure?
    ensures DecodeRow(keys, row) == DecodeRow(keys[..m], row)
    decreases |keys|
  {
    if m == |keys| {
      assert keys[..m] == keys;
    } else {
      var n := |keys| - 1;
      assert keys[..n][..m] == keys[..m];
      DecodeRowPrefixFails(keys[..n], row, m);
      assert DecodeRow(keys, row) == DecodeRow(keys[..n], row).PropagateFailure();
    }
  }

  /** A failure while decoding the first rows is the failure of the whole decoding. */
  lemma {:induction false} DecodeRowsPrefixFails(keys: seq<Json>, rows: seq<seq<Json>>, m: nat)
    requires m <= |rows| && DecodeRows(keys, rows[..m]).Failure?
    ensures DecodeRows(keys, rows) == DecodeRows(keys, rows[..m])
    decreases |rows|
  {
    if m == |rows| {
      assert rows[..m] == rows;
    } else {
      var n := |rows| - 1;
      assert rows[..n][..m] == rows[..m];
      DecodeRowsPrefixFails(keys, rows[..n], m);
      assert DecodeRows(keys, rows) == DecodeRows(keys, rows[..n]).PropagateFailure();
    }
  }

  /**
   * The inner loop of ReadJson: the record for one row, built property by property
   * with Add; the first exception ends it. Proved equal to DecodeRow.
   */
  method ReadItem(keys: seq<Json>, itemValues: seq<Json>) returns (r: Result<Record, DecodeError>)
    ensures r == DecodeRow(keys, itemValues)
  {
    var item: Record := [];
    for i := 0 to |keys|
      invariant DecodeRow(keys[..i], itemValues) == Success(item)
    {
      assert keys[..i + 1][..i] == keys[..i];
      var error: Option<DecodeError> := None;
      if !keys[i].JString? {
        error := Some(KeyNotString);
      } else if i >= |itemValues| {
        error := Some(RowTooShort);
      } else if HasName(item, keys[i].s) {
        error := Some(DuplicateKey);
      }
      if error.Some? {
        assert DecodeRow(keys[..i + 1], itemValues) == Failure(error.value);
        DecodeRowPrefixFails(keys, itemValues, i + 1);
        return Failure(error.value);
      }
      item := item + [(keys[i].s, itemValues[i])];
    }
    assert keys[..|keys|] == keys;
    return Success(item);
  }

  /**
   * ReadJson: one record per selected row, in order; the first exception ends
   * decoding. Proved equal to Decode.
   */
  method ReadJson(token: Json) returns (r: Result<seq<Record>, DecodeError>)
    ensures r == Decode(token)
  {
    if !token.JArray? {
      return Failure(NotAnArray);
    }
    var elements := token.items;
    var list: seq<Record> := [];
    if |elements| > 0 {
      if |elements| < 2 {
        return Failure(MissingHeader);
      }
      if !elements[1].JArray? {
        return Failure(HeaderNotArray);
      }
      var keys := elements[1].items;
      var children := ArrayChildren(elements);
      var rows := if |children| < 2 then [] else children[2..];
      for j := 0 to |rows|
        invariant DecodeRows(keys, rows[..j]) == Success(list)
      {
        var item := ReadItem(keys, rows[j]);
        assert rows[..j + 1][..j] == rows[..j];
        if item.Failure? {
          assert DecodeRows(keys, rows[..j + 1]) == Failure(item.error);
          DecodeRowsPrefixFails(keys, rows, j + 1);
          return Failure(item.error);
        }
        list := list + [item.value];
      }
      assert rows[..|rows|] == rows;
    }
    return Success(list);
  }

  // ---------------------------------------------------------------------------------
  // Round trip

  /**
   * The shape the codec assumes and does not check: every record has the field names of
   * the first record, in the same order, and no name occurs twice.
   */
  predicate Homogeneous(list: seq<Record>) {
    list != [] ==>
      && ValidHeader(Names(list[0]))
      && forall k :: 0 <= k < |list| ==> Names(list[k]) == Names(list[0])
  }

  lemma {:induction false} ArrayChildrenAppend(a: seq<Json>, b: seq<Json>)
    ensures ArrayChildren(a + b) == ArrayChildren(a) + ArrayChildren(b)
    decreases |a|
  {
    if a != [] {
      assert (a + b)[0] == a[0];
      assert (a + b)[1..] == a[1..] + b;
      ArrayChildrenAppend(a[1..], b);
      var h := if a[0].JArray? then [a[0].items] else [];
      assert ArrayChildren(a + b) == h + (ArrayChildren(a[1..]) + ArrayChildren(b));
    } else {
      assert a + b == b;
    }
  }

  /** The array-typed children of the value rows are the rows themselves. */
  lemma {:induction false} ArrayChildrenOfRows(list: seq<Record>)
    ensures ArrayChildren(Rows(list)) == seq(|list|, k requires 0 <= k < |list| => Values(list[k]))
    decreases |list|
  {
    if list != [] {
      ArrayChildrenOfRows(list[1..]);
      assert Rows(list)[1..] == Rows(list[1..]);
    }
  }

  /** A row written for a record of the header's shape decodes to that record. */
  lemma DecodeRowOfValues(keys: seq<Json>, rec: Record)
    requires ValidHeader(keys) && keys == Names(rec)
    ensures DecodeRow(keys, Values(rec)) == Success(rec)
  {
    DecodeRowZips(keys, Values(rec));
    var r := DecodeRow(keys, Values(rec));
    assert r.Success? && |r.value| == |rec|;
    forall k | 0 <= k < |rec| ensures r.value[k] == rec[k] {
      assert keys[k] == JString(rec[k].0) == JString(r.value[k].0);
      assert r.value[k].1 == Values(rec)[k] == rec[k].1;
    }
    assert r.value == rec;
  }

  /**
   * The round trip the code supports: for a homogeneous list, decoding the encoding
   * gives back the list WITHOUT its first record (and the empty list for the empty
   * list). The first record is lost because the row selection skips it.
   */
  lemma RoundTrip(list: seq<Record>)
    requires Homogeneous(list)
    ensures Decode(Encode(list)) == Success(if list == [] then [] else list[1..])
  {
    if list != [] {
      var items := Encode(list).items;
      var keys := Names(list[0]);
      var rows := seq(|list|, k requires 0 <= k < |list| => Values(list[k]));
      ChildrenOfEncoding(list);
      var children := ArrayChildren(items);
      assert children[2..] == rows[1..];
      assert forall k :: 0 <= k < |list| - 1 ==> list[1..][k] == list[k + 1] && rows[1..][k] == rows[k + 1];
      RowsDecode(keys, list[1..], rows[1..]);
    }
  }

  /** The array-typed children of an encoding: the header, then one row per record. */
  lemma ChildrenOfEncoding(list: seq<Record>)
    requires list != []
    ensures ArrayChildren(Encode(list).items)
      == [Names(list[0])] + seq(|list|, k requires 0 <= k < |list| => Values(list[k]))
  {
    var head := [JString(CompactToken), JArray(Names(list[0]))];
    ArrayChildrenAppend(head, Rows(list));
    ArrayChildrenOfRows(list);
    assert ArrayChildren(head) == [Names(list[0])] by {
      assert head[1..] == [JArray(Names(list[0]))];
      assert head[1..][1..] == [];
    }
  }

  /** The rows written for records of the header's shape decode to those records. */
  lemma RowsDecode(keys: seq<Json>, recs: seq<Record>, rows: seq<seq<Json>>)
    requires ValidHeader(keys)
    requires |rows| == |recs|
    requires forall k :: 0 <= k < |recs| ==> Names(recs[k]) == keys && rows[k] == Values(recs[k])
    ensures DecodeRows(keys, rows) == Success(recs)
  {
    forall k | 0 <= k < |recs| ensures DecodeRow(keys, rows[k]) == Success(recs[k]) {
      DecodeRowOfValues(keys, recs[k]);
    }
    var r := DecodeRows(keys, rows);
    assert r.Success?;
    assert r.value == recs;
  }

  /** As written, no non-empty list survives the round trip. */
  lemma DecodeDropsFirstRecord(list: seq<Record>)
    requires Homogeneous(list) && list != []
    ensures Decode(Encode(list)) != Success(list)
  {
    RoundTrip(list);
  }

  /** With the intended row selection every homogeneous list survives the round trip. */
  lemma RoundTripIntended(list: seq<Record>)
    requires Homogeneous(list)
    ensures DecodeIntended(Encode(list)) == Success(list)
  {
    if list != [] {
      var rows := seq(|list|, k requires 0 <= k < |list| => Values(list[k]));
      ChildrenOfEncoding(list);
      RowsDecode(Names(list[0]), list, rows);
    }
  }

  /** The smallest witness: a one-record list is written and read back as no records. */
  lemma OneRecordDecodesToNothing()
    ensures Encode([[("id", JNumber(1))]]) == JArray([JString(CompactToken), JArray([JString("id")]), JArray([JNumber(1)])])
    ensures Decode(Encode([[("id", JNumber(1))]])) == Success([])
  {
    var list: seq<Record> := [[("id", JNumber(1))]];
    assert Names(list[0]) == [JString("id")];
    assert Values(list[0]) == [JNumber(1)];
    RoundTrip(list);
  }
}
