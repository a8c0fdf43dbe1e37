/** `ExcelProcessor.create_excel` up to the point where the DataFrame is
    written out: every validated reply (a "record") is expanded into one row
    per line item, each row repeating the record's header fields and its
    total. Any exception on the way (a missing key, a value of the wrong
    kind, an amount `float()` rejects) aborts the whole call, so the result
    is either every row or the exception. */
module ExcelProcessor {
  import opened Wrappers
  import opened JsonData
  import opened Dates
  import opened DateFormat
  import opened QwenProcessor

  /** The DataFrame's columns, in order. */
  const Columns: seq<string> := [DocumentIdKey, DateKey, SubmitterKey, DepartmentKey, "项目名称", "金额", TotalKey]

  /** One DataFrame row: the record's header values as they came, the
      normalised date, the item's name, and the two coerced amounts. */
  datatype Row = Row(documentId: Json, date: Json, submitter: Json, department: Json,
                     itemName: Json, amount: real, total: real)

  /** A row's cells under `Columns`. */
  function Cells(row: Row): (cells: seq<Json>)
    ensures |cells| == |Columns|
    ensures cells[0] == row.documentId && cells[1] == row.date
    ensures cells[2] == row.submitter && cells[3] == row.department
    ensures cells[4] == row.itemName
    ensures cells[5] == JNumber(row.amount) && cells[6] == JNumber(row.total)
  {
    [row.documentId, row.date, row.submitter, row.department, row.itemName, JNumber(row.amount), JNumber(row.total)]
  }

  /** `self._format_date(result['日期'])`: a string is normalised; for any
      other value strptime raises TypeError, which `_format_date` catches,
      returning the value itself. */
  function FormatDateValue(v: Json): (r: Json)
    ensures r == v || (v.JString? && r.JString? && IsIsoDate(r.s))
  {
    if v.JString? then JString(FormatDate(v.s)) else v
  }

  lemma FormatDateValueIdempotent(v: Json)
    ensures FormatDateValue(FormatDateValue(v)) == FormatDateValue(v)
  {
    if v.JString? {
      FormatDateIdempotent(v.s);
    }
  }

  /** The `base_info` dict: the four header fields, the date normalised. */
  datatype Header = Header(documentId: Json, date: Json, submitter: Json, department: Json)

  /** Builds `base_info`, raising TypeError for a record that is not a dict
      and KeyError for one missing a header key. */
  function HeaderOf(result: Json): (r: Result<Header, Exc>)
    ensures r.Ok? <==> result.JObject? && DocumentIdKey in result.fields && DateKey in result.fields
                       && SubmitterKey in result.fields && DepartmentKey in result.fields
    ensures r.Err? ==> r.error == if result.JObject? then KeyError else TypeError
    ensures r.Ok? ==> r.value == Header(result.fields[DocumentIdKey], FormatDateValue(result.fields[DateKey]),
                                        result.fields[SubmitterKey], result.fields[DepartmentKey])
  {
    var documentId :- Subscript(result, DocumentIdKey);
    var date :- Subscript(result, DateKey);
    var submitter :- Subscript(result, SubmitterKey);
    var department :- Subscript(result, DepartmentKey);
    Ok(Header(documentId, FormatDateValue(date), submitter, department))
  }

  /** Python's `len()` of the record's `项目` value, 0 where it has none. */
  function ItemCount(result: Json): nat {
    if result.JObject? && ItemsKey in result.fields then
      match result.fields[ItemsKey]
      case JArray(e) => |e|
      case JObject(m) => |m|
      case JString(s) => |s|
      case _ => 0
    else 0
  }

  /** The items `for item in result['项目']` visits. Iterating a dict or a
      str yields str values, whose first subscript by a str key raises
      TypeError; a non-empty one is therefore reported as TypeError here,
      which is where the loop would raise it. Other values are not
      iterable. */
  function ItemsOf(result: Json): (r: Result<seq<Json>, Exc>)
    ensures r.Ok? ==> |r.value| == ItemCount(result)
    ensures result.JObject? && ItemsKey in result.fields && result.fields[ItemsKey].JArray?
      ==> r == Ok(result.fields[ItemsKey].elems)
    ensures r.Ok? <==>
      && result.JObject? && ItemsKey in result.fields
      && (|| result.fields[ItemsKey].JArray?
          || ((result.fields[ItemsKey].JObject? || result.fields[ItemsKey].JString?) && ItemCount(result) == 0))
    ensures r.Err? ==> r.error == if result.JObject? && ItemsKey !in result.fields then KeyError else TypeError
  {
    var items :- Subscript(result, ItemsKey);
    match items
    case JArray(e) => Ok(e)
    case JObject(m) => if |m| == 0 then Ok([]) else Err(TypeError)
    case JString(s) => if |s| == 0 then Ok([]) else Err(TypeError)
    case _ => Err(TypeError)
  }

  /** `row = base_info.copy(); row.update({...})` for one item: the name,
      `float(item['金额'])`, then `float(result['总金额'])`. */
  function ItemRow(h: Header, item: Json, result: Json, parseFloat: string -> Option<real>): (r: Result<Row, Exc>)
    ensures r.Ok? <==>
      && item.JObject? && NameKey in item.fields && AmountKey in item.fields
      && ToFloat(item.fields[AmountKey], parseFloat).Ok?
      && result.JObject? && TotalKey in result.fields
      && ToFloat(result.fields[TotalKey], parseFloat).Ok?
    ensures r.Ok? ==>
      && r.value.documentId == h.documentId && r.value.date == h.date
      && r.value.submitter == h.submitter && r.value.department == h.department
      && r.value.itemName == item.fields[NameKey]
      && Ok(r.value.amount) == ToFloat(item.fields[AmountKey], parseFloat)
      && Ok(r.value.total) == ToFloat(result.fields[TotalKey], parseFloat)
  {
    var name :- Subscript(item, NameKey);
    var amountValue :- Subscript(item, AmountKey);
    var amount :- ToFloat(amountValue, parseFloat);
    var totalValue :- Subscript(result, TotalKey);
    var total :- ToFloat(totalValue, parseFloat);
    Ok(Row(h.documentId, h.date, h.submitter, h.department, name, amount, total))
  }

  /** The row an item becomes, read across `Columns`: 报销单号, the
      normalised 日期, 报销人 and 部门 from `base_info`, then the item's
      名称, its coerced 金额 and the record's coerced 总金额. */
  lemma CellsOfItemRow(h: Header, item: Json, result: Json, parseFloat: string -> Option<real>)
    requires ItemRow(h, item, result, parseFloat).Ok?
    ensures var row := ItemRow(h, item, result, parseFloat).value;
      Cells(row) == [h.documentId, h.date, h.submitter, h.department, item.fields[NameKey],
                     JNumber(row.amount), JNumber(row.total)]
  {
  }

  /** The rows of a record's items, in item order; the first failing item's
      exception if any fails. */
  function ItemRows(h: Header, items: seq<Json>, result: Json, parseFloat: string -> Option<real>): (r: Result<seq<Row>, Exc>)
    ensures r.Ok? ==> |r.value| == |items|
  {
    if items == [] then Ok([])
    else
      var n := |items| - 1;
      var prefix :- ItemRows(h, items[..n], result, parseFloat);
      var row :- ItemRow(h, items[n], result, parseFloat);
      Ok(prefix + [row])
  }

  /** One row per item, in item order, or the exception of the first item
      that raises. */
  lemma {:induction false} ItemRowsSpec(h: Header, items: seq<Json>, result: Json, parseFloat: string -> Option<real>)
    ensures var r := ItemRows(h, items, result, parseFloat);
      && (r.Ok? <==> forall k :: 0 <= k < |items| ==> ItemRow(h, items[k], result, parseFloat).Ok?)
      && (r.Ok? ==> |r.value| == |items|
                    && forall k :: 0 <= k < |items| ==> r.value[k] == ItemRow(h, items[k], result, parseFloat).value)
      && (r.Err? ==> exists k :: 0 <= k < |items| && Err(r.error) == ItemRow(h, items[k], result, parseFloat)
                                 && (forall j :: 0 <= j < k ==> ItemRow(h, items[j], result, parseFloat).Ok?))
  {
    if items != [] {
      var n := |items| - 1;
      var init := items[..n];
      ItemRowsSpec(h, init, result, parseFloat);
      assert forall k :: 0 <= k < n ==> init[k] == items[k];
      var prev, last := ItemRows(h, init, result, parseFloat), ItemRow(h, items[n], result, parseFloat);
      var r := ItemRows(h, items, result, parseFloat);
      if prev.Err? {
        assert r == prev;
        var k :| 0 <= k < n && Err(prev.error) == ItemRow(h, init[k], result, parseFloat)
                 && (forall j :: 0 <= j < k ==> ItemRow(h, init[j], result, parseFloat).Ok?);
        assert Err(r.error) == ItemRow(h, items[k], result, parseFloat);
      } else if last.Err? {
        assert r == Err(last.error);
      } else {
        assert r == Ok(prev.value + [last.value]);
      }
    }
  }

  /** The rows one record contributes. */
  function RecordRows(result: Json, parseFloat: string -> Option<real>): (r: Result<seq<Row>, Exc>)
    ensures r.Ok? ==> |r.value| == ItemCount(result)
  {
    var h :- HeaderOf(result);
    var items :- ItemsOf(result);
    ItemRows(h, items, result, parseFloat)
  }

  /** A record contributes `len(result['项目'])` rows, every one carrying
      the record's header values, its normalised date and its one total. */
  lemma RecordRowsSpec(result: Json, parseFloat: string -> Option<real>)
    requires RecordRows(result, parseFloat).Ok?
    ensures var rows := RecordRows(result, parseFloat).value;
      && |rows| == ItemCount(result)
      && result.JObject? && DocumentIdKey in result.fields && DateKey in result.fields
      && SubmitterKey in result.fields && DepartmentKey in result.fields
      && (rows != [] ==> TotalKey in result.fields)
      && forall k :: 0 <= k < |rows| ==>
           && rows[k].documentId == result.fields[DocumentIdKey]
           && rows[k].date == FormatDateValue(result.fields[DateKey])
           && rows[k].submitter == result.fields[SubmitterKey]
           && rows[k].department == result.fields[DepartmentKey]
           && Ok(rows[k].total) == ToFloat(result.fields[TotalKey], parseFloat)
  {
    var h := HeaderOf(result).value;
    var items := ItemsOf(result).value;
    ItemRowsSpec(h, items, result, parseFloat);
    if items != [] {
      assert ItemRow(h, items[0], result, parseFloat).Ok?;
    }
  }

  /** The rows of all records, record by record; the first exception if any
      record raises. */
  function Flatten(results: seq<Json>, parseFloat: string -> Option<real>): Result<seq<Row>, Exc> {
    if results == [] then Ok([])
    else
      var n := |results| - 1;
      var prefix :- Flatten(results[..n], parseFloat);
      var rows :- RecordRows(results[n], parseFloat);
      Ok(prefix + rows)
  }

  /** No rows at all unless every record goes through. */
  lemma {:induction false} FlattenOk(results: seq<Json>, parseFloat: string -> Option<real>)
    ensures Flatten(results, parseFloat).Ok? <==> forall i :: 0 <= i < |results| ==> RecordRows(results[i], parseFloat).Ok?
  {
    if results != [] {
      var n := |results| - 1;
      FlattenLast(results, parseFloat);
      FlattenOk(results[..n], parseFloat);
      AllRecordsStep(results, parseFloat);
    }
  }

  /** Every record goes through iff every record but the last does and the
      last does too. */
  lemma AllRecordsStep(results: seq<Json>, parseFloat: string -> Option<real>)
    requires results != []
    ensures var n := |results| - 1;
      (forall i :: 0 <= i < |results| ==> RecordRows(results[i], parseFloat).Ok?)
      <==> (forall i :: 0 <= i < n ==> RecordRows(results[..n][i], parseFloat).Ok?) && RecordRows(results[n], parseFloat).Ok?
  {
    var n := |results| - 1;
    assert forall i :: 0 <= i < n ==> results[..n][i] == results[i];
  }

  /** Appending two outcomes: the first exception wins. */
  function Join(a: Result<seq<Row>, Exc>, b: Result<seq<Row>, Exc>): Result<seq<Row>, Exc> {
    if a.Err? then a else if b.Err? then b else Ok(a.value + b.value)
  }

  lemma FlattenLast(results: seq<Json>, parseFloat: string -> Option<real>)
    requires results != []
    ensures Flatten(results, parseFloat)
         == Join(Flatten(results[..|results| - 1], parseFloat), RecordRows(results[|results| - 1], parseFloat))
  {
  }

  lemma JoinAssociative(a: Result<seq<Row>, Exc>, b: Result<seq<Row>, Exc>, c: Result<seq<Row>, Exc>)
    ensures Join(Join(a, b), c) == Join(a, Join(b, c))
  {
    if a.Ok? && b.Ok? && c.Ok? {
      assert (a.value + b.value) + c.value == a.value + (b.value + c.value);
    }
  }

  /** Rows come out in record order: the rows of a concatenation of record
      lists are the rows of the first list followed by those of the second. */
  lemma {:induction false} FlattenAppend(a: seq<Json>, b: seq<Json>, parseFloat: string -> Option<real>)
    ensures Flatten(a + b, parseFloat) == Join(Flatten(a, parseFloat), Flatten(b, parseFloat))
    decreases |b|
  {
    if b == [] {
      assert a + b == a;
      var fa := Flatten(a, parseFloat);
      assert fa.Ok? ==> fa.value + [] == fa.value;
    } else {
      var n := |b| - 1;
      var ab := a + b;
      assert ab[..|ab| - 1] == a + b[..n];
      assert ab[|ab| - 1] == b[n];
      FlattenLast(ab, parseFloat);
      FlattenLast(b, parseFloat);
      FlattenAppend(a, b[..n], parseFloat);
      JoinAssociative(Flatten(a, parseFloat), Flatten(b[..n], parseFloat), RecordRows(b[n], parseFloat));
    }
  }

  /** A record that raises after the records before it went through is the
      exception the whole call raises. */
  lemma FlattenFailsAt(results: seq<Json>, i: nat, parseFloat: string -> Option<real>)
    requires i < |results| && Flatten(results[..i], parseFloat).Ok? && RecordRows(results[i], parseFloat).Err?
    ensures Flatten(results, parseFloat) == RecordRows(results[i], parseFloat)
  {
    FlattenNext(results, i, parseFloat);
    FlattenErrPrefix(results[..i + 1], results[i + 1..], parseFloat);
    assert results[..i + 1] + results[i + 1..] == results;
  }

  lemma FlattenErrPrefix(a: seq<Json>, b: seq<Json>, parseFloat: string -> Option<real>)
    requires Flatten(a, parseFloat).Err?
    ensures Flatten(a + b, parseFloat) == Flatten(a, parseFloat)
  {
    FlattenAppend(a, b, parseFloat);
  }

  /** The total `len(result['项目'])` over a list of records. */
  function TotalItemCount(results: seq<Json>): nat {
    if results == [] then 0 else TotalItemCount(results[..|results| - 1]) + ItemCount(results[|results| - 1])
  }

  /** One row per line item: the number of rows is the sum of the records'
      item counts, and a record with no items adds none. */
  lemma {:induction false} FlattenCount(results: seq<Json>, parseFloat: string -> Option<real>)
    requires Flatten(results, parseFloat).Ok?
    ensures |Flatten(results, parseFloat).value| == TotalItemCount(results)
  {
    if results != [] {
      FlattenLast(results, parseFloat);
      FlattenCount(results[..|results| - 1], parseFloat);
      RecordRowsSpec(results[|results| - 1], parseFloat);
    }
  }

  /** Record i's rows sit, in item order, right after the rows of the
      records before it. */
  lemma FlattenPlacesRecord(results: seq<Json>, i: nat, parseFloat: string -> Option<real>)
    requires i < |results| && Flatten(results, parseFloat).Ok?
    ensures RecordRows(results[i], parseFloat).Ok?
    ensures var rows, lo := Flatten(results, parseFloat).value, TotalItemCount(results[..i]);
      lo + ItemCount(results[i]) <= |rows|
      && rows[lo..lo + ItemCount(results[i])] == RecordRows(results[i], parseFloat).value
  {
    var upto, after := results[..i + 1], results[i + 1..];
    FlattenOk(results, parseFloat);
    assert upto + after == results;
    FlattenAppend(upto, after, parseFloat);
    FlattenNext(results, i, parseFloat);
    FlattenOk(results[..i], parseFloat);
    assert forall k :: 0 <= k < i ==> results[..i][k] == results[k];
    var a, r, b := Flatten(results[..i], parseFloat).value, RecordRows(results[i], parseFloat).value, Flatten(after, parseFloat).value;
    assert Flatten(results, parseFloat).value == (a + r) + b;
    FlattenCount(results[..i], parseFloat);
    RecordRowsSpec(results[i], parseFloat);
    assert ((a + r) + b)[|a|..|a| + |r|] == r;
  }

  /** An amount `float()` rejects makes the whole call raise. */
  lemma AmountCoercionFails(results: seq<Json>, i: nat, k: nat, parseFloat: string -> Option<real>)
    requires i < |results| && results[i].JObject? && ItemsKey in results[i].fields
    requires results[i].fields[ItemsKey].JArray? && k < |results[i].fields[ItemsKey].elems|
    requires var item := results[i].fields[ItemsKey].elems[k];
      item.JObject? && AmountKey in item.fields && ToFloat(item.fields[AmountKey], parseFloat).Err?
    ensures Flatten(results, parseFloat).Err?
  {
    var result := results[i];
    FlattenOk(results, parseFloat);
    if HeaderOf(result).Ok? {
      var items := result.fields[ItemsKey].elems;
      ItemRowsSpec(HeaderOf(result).value, items, result, parseFloat);
      assert ItemRow(HeaderOf(result).value, items[k], result, parseFloat).Err?;
    }
  }

  /** So does a total `float()` rejects, once the record has an item. */
  lemma TotalCoercionFails(results: seq<Json>, i: nat, parseFloat: string -> Option<real>)
    requires i < |results| && results[i].JObject? && ItemsKey in results[i].fields
    requires results[i].fields[ItemsKey].JArray? && |results[i].fields[ItemsKey].elems| > 0
    requires TotalKey in results[i].fields && ToFloat(results[i].fields[TotalKey], parseFloat).Err?
    ensures Flatten(results, parseFloat).Err?
  {
    var result := results[i];
    FlattenOk(results, parseFloat);
    if HeaderOf(result).Ok? {
      var items := result.fields[ItemsKey].elems;
      ItemRowsSpec(HeaderOf(result).value, items, result, parseFloat);
      assert ItemRow(HeaderOf(result).value, items[0], result, parseFloat).Err?;
    }
  }

  /** The total is only read inside the item loop: a record with an empty
      item list contributes no rows and raises nothing, whatever its total
      is and even when it has none. */
  lemma EmptyRecordSkipsTotal(result: Json, parseFloat: string -> Option<real>)
    requires HeaderOf(result).Ok? && ItemsKey in result.fields && result.fields[ItemsKey] == JArray([])
    ensures RecordRows(result, parseFloat) == Ok([])
  {
  }

  /** `create_excel` without the file write: starting from an empty
      DataFrame, append one row per item of every record, and let the first
      exception escape. */
  method CreateExcel(results: seq<Json>, parseFloat: string -> Option<real>) returns (outcome: Result<seq<Row>, Exc>)
    ensures outcome == Flatten(results, parseFloat)
  {
    var df: seq<Row> := [];
    for i := 0 to |results|
      invariant Flatten(results[..i], parseFloat) == Ok(df)
    {
      var result := results[i];
      var header := HeaderOf(result);
      if header.Err? {
        FlattenFailsAt(results, i, parseFloat);
        return Err(header.error);
      }
      var items := ItemsOf(result);
      if items.Err? {
        FlattenFailsAt(results, i, parseFloat);
        return Err(items.error);
      }
      ghost var before := df;
      assert items.value[..0] == [] && df[|before|..] == [];
      for j := 0 to |items.value|
        invariant |before| <= |df| && df[..|before|] == before
        invariant ItemRows(header.value, items.value[..j], result, parseFloat) == Ok(df[|before|..])
      {
        var row := ItemRow(header.value, items.value[j], result, parseFloat);
        ItemRowsStep(header.value, items.value, j, result, parseFloat);
        if row.Err? {
          ItemFails(results, i, items.value, j, parseFloat);
          return Err(row.error);
        }
        Appended(df, before, row.value);
        df := df + [row.value];
      }
      RecordDone(results, i, items.value, before, df, parseFloat);
    }
    assert results[..|results|] == results;
    return Ok(df);
  }

  /** Appending keeps the earlier rows and extends the record's own. */
  lemma Appended(df: seq<Row>, before: seq<Row>, row: Row)
    requires |before| <= |df| && df[..|before|] == before
    ensures |before| <= |df + [row]| && (df + [row])[..|before|] == before
    ensures (df + [row])[|before|..] == df[|before|..] + [row]
  {
  }

  /** The item loop raising at item j is the record, and so the call,
      raising. */
  lemma ItemFails(results: seq<Json>, i: nat, items: seq<Json>, j: nat, parseFloat: string -> Option<real>)
    requires i < |results| && Flatten(results[..i], parseFloat).Ok?
    requires HeaderOf(results[i]).Ok? && ItemsOf(results[i]) == Ok(items) && j < |items|
    requires ItemRow(HeaderOf(results[i]).value, items[j], results[i], parseFloat).Err?
    requires ItemRows(HeaderOf(results[i]).value, items[..j + 1], results[i], parseFloat)
          == Err(ItemRow(HeaderOf(results[i]).value, items[j], results[i], parseFloat).error)
    ensures Flatten(results, parseFloat) == Err(ItemRow(HeaderOf(results[i]).value, items[j], results[i], parseFloat).error)
  {
    var h := HeaderOf(results[i]).value;
    ItemRowsPrefixErr(h, items, j + 1, results[i], parseFloat);
    assert items[..|items|] == items;
    assert RecordRows(results[i], parseFloat) == ItemRows(h, items, results[i], parseFloat);
    FlattenFailsAt(results, i, parseFloat);
  }

  /** A record whose item loop ran to the end adds exactly its rows. */
  lemma RecordDone(results: seq<Json>, i: nat, items: seq<Json>, before: seq<Row>, df: seq<Row>,
                   parseFloat: string -> Option<real>)
    requires i < |results| && Flatten(results[..i], parseFloat) == Ok(before)
    requires HeaderOf(results[i]).Ok? && ItemsOf(results[i]) == Ok(items)
    requires |before| <= |df| && df[..|before|] == before
    requires ItemRows(HeaderOf(results[i]).value, items[..|items|], results[i], parseFloat) == Ok(df[|before|..])
    ensures Flatten(results[..i + 1], parseFloat) == Ok(df)
  {
    assert items[..|items|] == items;
    assert RecordRows(results[i], parseFloat) == Ok(df[|before|..]);
    FlattenNext(results, i, parseFloat);
    assert df == before + df[|before|..];
  }

  lemma ItemRowsStep(h: Header, items: seq<Json>, j: nat, result: Json, parseFloat: string -> Option<real>)
    requires j < |items|
    ensures ItemRows(h, items[..j + 1], result, parseFloat)
         == match ItemRows(h, items[..j], result, parseFloat)
            case Err(e) => Err(e)
            case Ok(rows) =>
              match ItemRow(h, items[j], result, parseFloat)
              case Err(e) => Err(e)
              case Ok(row) => Ok(rows + [row])
  {
    assert items[..j + 1][..j] == items[..j] && items[..j + 1][j] == items[j];
  }

  lemma FlattenNext(results: seq<Json>, i: nat, parseFloat: string -> Option<real>)
    requires i < |results|
    ensures Flatten(results[..i + 1], parseFloat) == Join(Flatten(results[..i], parseFloat), RecordRows(results[i], parseFloat))
  {
    assert results[..i + 1][..i] == results[..i];
    FlattenLast(results[..i + 1], parseFloat);
  }

  /** Once a prefix of the items raises, the whole item list raises the same. */
  lemma ItemRowsPrefixErr(h: Header, items: seq<Json>, j: nat, result: Json, parseFloat: string -> Option<real>)
    requires j <= |items| && ItemRows(h, items[..j], result, parseFloat).Err?
    ensures ItemRows(h, items, result, parseFloat) == ItemRows(h, items[..j], result, parseFloat)
    decreases |items| - j
  {
    if j < |items| {
      assert items[..j + 1][..j] == items[..j];
      ItemRowsPrefixErr(h, items, j + 1, result, parseFloat);
    } else {
      assert items[..j] == items;
    }
  }
}
