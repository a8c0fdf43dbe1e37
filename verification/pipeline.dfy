/** How the two processors fit together: a reply that passes
    `validate_response` can only make `create_excel` raise through an amount
    or a total that `float()` rejects (or a missing header key other than
    the six it checks, of which there are none), and an end-to-end run on
    one single-quoted reply. */
module Pipeline {
  import opened Wrappers
  import opened JsonData
  import opened DateFormat
  import opened QwenProcessor
  import opened ExcelProcessor

  /** For a validated reply the header and the item list are always there,
      so its rows exist exactly when every coercion succeeds, the total
      being coerced only if there is an item; and row k is item k. */
  lemma ShapedRecordRows(result: Json, parseFloat: string -> Option<real>)
    requires ValidateResponse(result)
    ensures var items := result.fields[ItemsKey].elems;
      RecordRows(result, parseFloat).Ok? <==>
        (items == [] || ToFloat(result.fields[TotalKey], parseFloat).Ok?)
        && forall k :: 0 <= k < |items| ==> ToFloat(items[k].fields[AmountKey], parseFloat).Ok?
    ensures var items := result.fields[ItemsKey].elems;
      RecordRows(result, parseFloat).Ok? ==>
        var rows := RecordRows(result, parseFloat).value;
        |rows| == |items|
        && forall k :: 0 <= k < |items| ==>
             rows[k].itemName == items[k].fields[NameKey]
             && Ok(rows[k].amount) == ToFloat(items[k].fields[AmountKey], parseFloat)
  {
    assert forall f :: f in RequiredFields ==> f in result.fields;
    assert DocumentIdKey in RequiredFields && DateKey in RequiredFields && SubmitterKey in RequiredFields;
    assert DepartmentKey in RequiredFields && ItemsKey in RequiredFields && TotalKey in RequiredFields;
    var h := HeaderOf(result).value;
    var items := result.fields[ItemsKey].elems;
    assert ItemsOf(result) == Ok(items);
    ItemRowsSpec(h, items, result, parseFloat);
    assert forall k :: 0 <= k < |items| ==> IsItem(items[k]);
    if items != [] && ToFloat(result.fields[TotalKey], parseFloat).Err? {
      assert ItemRow(h, items[0], result, parseFloat).Err?;
    }
  }

  // ---------------------------------------------------------------------
  // One reply, end to end.

  /** A reply in the prompt's own single-quoted style, after some prose. */
  const ReplyBody := "'报销单号':'A001','日期':'2024年5月1日','报销人':'张三','部门':'财务部','项目':[{'名称':'打印','金额':12.5},{'名称':'交通','金额':30}],'总金额':42.5"
  const ReplyJson := "{" + ReplyBody + "}"
  const Preamble := "Here is the data: "
  const Reply := Preamble + ReplyJson

  function PrintItem(): Json {
    JObject(map[NameKey := JString("打印"), AmountKey := JNumber(12.5)])
  }

  function TravelItem(): Json {
    JObject(map[NameKey := JString("交通"), AmountKey := JNumber(30.0)])
  }

  /** What a strict JSON decoder makes of the repaired reply. */
  function ReplyValue(): Json {
    JObject(map[DocumentIdKey := JString("A001"), DateKey := JString("2024年5月1日"),
                SubmitterKey := JString("张三"), DepartmentKey := JString("财务部"),
                ItemsKey := JArray([PrintItem(), TravelItem()]), TotalKey := JNumber(42.5)])
  }

  lemma ReplyCandidate()
    ensures ExtractCandidate(Reply) == Ok(ReplyJson)
  {
    var p, q := |Preamble|, |Reply| - 1;
    assert Reply[p..] == ReplyJson;
    assert ReplyJson[0] == '{' && ReplyJson[|ReplyJson| - 1] == '}';
    assert Reply[p] == '{' && Reply[q] == '}';
    assert forall i :: 0 <= i < p ==> Reply[i] == Preamble[i] != '{';
    assert IsFirst(Reply, '{', p) && IsLast(Reply, '}', q);
    assert Reply[p..q + 1] == ReplyJson;
  }

  lemma ReplyValidates()
    ensures ValidateResponse(ReplyValue())
  {
    var m := ReplyValue().fields;
    forall f | f in RequiredFields ensures f in m {
    }
    var items := m[ItemsKey].elems;
    assert items == [PrintItem(), TravelItem()];
    assert IsItem(items[0]) && IsItem(items[1]);
  }

  /** The two rows the reply becomes: one per item, both carrying the
      header, the normalised date and the same total. */
  function ReplyRows(): seq<Row> {
    [Row(JString("A001"), JString("2024-05-01"), JString("张三"), JString("财务部"), JString("打印"), 12.5, 42.5),
     Row(JString("A001"), JString("2024-05-01"), JString("张三"), JString("财务部"), JString("交通"), 30.0, 42.5)]
  }

  function ReplyHeader(): Header {
    Header(JString("A001"), JString("2024-05-01"), JString("张三"), JString("财务部"))
  }

  lemma ReplyHeaderOf()
    ensures HeaderOf(ReplyValue()) == Ok(ReplyHeader())
  {
    var m := ReplyValue().fields;
    assert DocumentIdKey in m && DateKey in m && SubmitterKey in m && DepartmentKey in m;
    assert m[DateKey] == JString("2024年5月1日");
    ChineseDate();
    assert FormatDateValue(m[DateKey]) == JString("2024-05-01");
  }

  lemma ReplyItems(parseFloat: string -> Option<real>)
    ensures ItemsOf(ReplyValue()) == Ok([PrintItem(), TravelItem()])
    ensures ItemRow(ReplyHeader(), PrintItem(), ReplyValue(), parseFloat) == Ok(ReplyRows()[0])
    ensures ItemRow(ReplyHeader(), TravelItem(), ReplyValue(), parseFloat) == Ok(ReplyRows()[1])
  {
  }

  lemma RecordRowsOfParts(v: Json, h: Header, items: seq<Json>, parseFloat: string -> Option<real>)
    requires HeaderOf(v) == Ok(h) && ItemsOf(v) == Ok(items)
    ensures RecordRows(v, parseFloat) == ItemRows(h, items, v, parseFloat)
  {
  }

  lemma TwoItemRows(h: Header, a: Json, b: Json, v: Json, parseFloat: string -> Option<real>, ra: Row, rb: Row)
    requires ItemRow(h, a, v, parseFloat) == Ok(ra) && ItemRow(h, b, v, parseFloat) == Ok(rb)
    ensures ItemRows(h, [a, b], v, parseFloat) == Ok([ra, rb])
  {
    var one, two := [a], [a, b];
    assert one[..0] == [] && one[0] == a;
    assert ItemRows(h, one, v, parseFloat) == Ok([] + [ra]);
    assert [] + [ra] == [ra];
    assert two[..1] == one && two[1] == b;
    assert ItemRows(h, two, v, parseFloat) == Ok([ra] + [rb]);
    assert [ra] + [rb] == [ra, rb];
  }

  lemma ReplyRecordRows(parseFloat: string -> Option<real>)
    ensures RecordRows(ReplyValue(), parseFloat) == Ok(ReplyRows())
  {
    var v, h, rows := ReplyValue(), ReplyHeader(), ReplyRows();
    var items := [PrintItem(), TravelItem()];
    ReplyHeaderOf();
    ReplyItems(parseFloat);
    RecordRowsOfParts(v, h, items, parseFloat);
    TwoItemRows(h, PrintItem(), TravelItem(), v, parseFloat, rows[0], rows[1]);
    assert RecordRows(v, parseFloat) == ItemRows(h, items, v, parseFloat);
    assert ItemRows(h, items, v, parseFloat) == Ok([rows[0], rows[1]]);
    assert [rows[0], rows[1]] == rows;
  }

  lemma FlattenOne(v: Json, parseFloat: string -> Option<real>)
    ensures Flatten([v], parseFloat) == RecordRows(v, parseFloat)
  {
    assert [v][..0] == [];
    var r := RecordRows(v, parseFloat);
    assert r.Ok? ==> [] + r.value == r.value;
  }

  lemma ReplyParses(decode: string -> Option<Json>)
    requires decode(ReplyJson) == None && decode(RepairQuotes(ReplyJson)) == Some(ReplyValue())
    ensures ParseResponse(Reply, decode) == Ok(ReplyValue())
  {
    ReplyCandidate();
  }

  /** The reply goes through: the strict decode fails on the single quotes,
      the repaired text decodes, validation accepts it, and `create_excel`
      turns it into two spreadsheet lines under `Columns`:
      A001 | 2024-05-01 | 张三 | 财务部 | 打印 | 12.5 | 42.5 and
      A001 | 2024-05-01 | 张三 | 财务部 | 交通 | 30 | 42.5. */
  lemma ReplyEndToEnd(decode: string -> Option<Json>, parseFloat: string -> Option<real>)
    requires decode(ReplyJson) == None && decode(RepairQuotes(ReplyJson)) == Some(ReplyValue())
    ensures ParseResponse(Reply, decode) == Ok(ReplyValue())
    ensures ValidateResponse(ReplyValue())
    ensures Flatten([ReplyValue()], parseFloat) == Ok(ReplyRows())
    ensures var rows := Flatten([ReplyValue()], parseFloat).value;
      |rows| == 2
      && Cells(rows[0]) == [JString("A001"), JString("2024-05-01"), JString("张三"), JString("财务部"),
                            JString("打印"), JNumber(12.5), JNumber(42.5)]
      && Cells(rows[1]) == [JString("A001"), JString("2024-05-01"), JString("张三"), JString("财务部"),
                            JString("交通"), JNumber(30.0), JNumber(42.5)]
  {
    ReplyParses(decode);
    ReplyValidates();
    ReplyRecordRows(parseFloat);
    FlattenOne(ReplyValue(), parseFloat);
  }
}
