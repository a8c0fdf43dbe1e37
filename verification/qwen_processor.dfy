/** The text-to-JSON half of `QwenProcessor`: extracting a JSON candidate
    from the vision model's free-text reply, the single quote-repair retry
    around `json.loads`, and `validate_response`'s shape check. The request
    to the model itself is not part of this model; the reply text is an
    input, and `json.loads` is the parameter `decode`. */
module QwenProcessor {
  import opened Wrappers
  import opened JsonData

  /** Why no JSON value came out of a reply. */
  datatype ParseError =
    | NoJsonFound    // no '{' or no '}' in the reply
    | MalformedJson  // the candidate failed to decode, before and after repair

  // ---------------------------------------------------------------------
  // Locating the braces.

  /** p is the index of the first c in s. */
  predicate IsFirst(s: string, c: char, p: int) {
    0 <= p < |s| && s[p] == c && forall i :: 0 <= i < p ==> s[i] != c
  }

  /** q is the index of the last c in s. */
  predicate IsLast(s: string, c: char, q: int) {
    0 <= q < |s| && s[q] == c && forall i :: q < i < |s| ==> s[i] != c
  }

  /** `s.find(c)`: the first index holding c, or -1. */
  function Find(s: string, c: char): (r: int)
    ensures r == -1 <==> c !in s
    ensures r != -1 ==> IsFirst(s, c, r)
  {
    if s == [] then -1
    else if s[0] == c then 0
    else
      var i := Find(s[1..], c);
      if i == -1 then -1 else i + 1
  }

  /** `s.rfind(c)`: the last index holding c, or -1. */
  function RFind(s: string, c: char): (r: int)
    ensures r == -1 <==> c !in s
    ensures r != -1 ==> IsLast(s, c, r)
  {
    if s == [] then -1
    else if s[|s| - 1] == c then |s| - 1
    else
      var i := RFind(s[..|s| - 1], c);
      if i == -1 then
        assert s == s[..|s| - 1] + [s[|s| - 1]];
        -1
      else i
  }

  /** Python's `s[start:end]` for 0 <= start and end <= |s|: empty when the
      end is not past the start. */
  function Slice(s: string, start: nat, end: nat): (r: string)
    requires start <= |s| && end <= |s|
    ensures |r| == if end <= start then 0 else end - start
    ensures forall i :: 0 <= i < |r| ==> r[i] == s[start + i]
  {
    if end <= start then [] else s[start..end]
  }

  /** The candidate `response_text[find('{') : rfind('}') + 1]`. When the
      last '}' stands before the first '{' (as in "}{") the slice is empty. */
  function ExtractCandidate(text: string): (r: Result<string, ParseError>)
    ensures r.Err? <==> '{' !in text || '}' !in text
    ensures r.Err? ==> r.error == NoJsonFound
    ensures forall p, q :: IsFirst(text, '{', p) && IsLast(text, '}', q) ==>
      r == Ok(if p < q then text[p..q + 1] else [])
    ensures r.Ok? ==> IsInfix(r.value, text)
    ensures r.Ok? && r.value != [] ==> r.value[0] == '{' && r.value[|r.value| - 1] == '}'
  {
    var start := Find(text, '{');
    var end := RFind(text, '}') + 1;
    if start == -1 || end == 0 then Err(NoJsonFound)
    else
      var c := Slice(text, start, end);
      CandidateFacts(text, start, end);
      Ok(c)
  }

  /** What the slice between the first '{' and the last '}' is: the same
      whichever witnesses name those braces, a piece of the reply, and framed
      by the braces when not empty. */
  lemma CandidateFacts(text: string, start: nat, end: nat)
    requires 1 <= end <= |text| && IsFirst(text, '{', start) && IsLast(text, '}', end - 1)
    ensures forall p, q :: IsFirst(text, '{', p) && IsLast(text, '}', q) ==>
      Slice(text, start, end) == if p < q then text[p..q + 1] else []
    ensures IsInfix(Slice(text, start, end), text)
    ensures var c := Slice(text, start, end);
      c != [] ==> c[0] == '{' && c[|c| - 1] == '}'
  {
    var c := Slice(text, start, end);
    BracesUnique(text, start, end - 1);
    if end <= start {
      assert c == [] && text[..0] == [];
    } else {
      assert c == text[start..end];
      assert c[0] == text[start] && c[|c| - 1] == text[end - 1];
      InfixAt(c, text, start);
    }
  }

  /** The first '{' and the last '}' are unique. */
  lemma BracesUnique(text: string, start: int, last: int)
    requires IsFirst(text, '{', start) && IsLast(text, '}', last)
    ensures forall p, q :: IsFirst(text, '{', p) && IsLast(text, '}', q) ==> p == start && q == last
  {
    forall p, q | IsFirst(text, '{', p) && IsLast(text, '}', q) ensures p == start && q == last {
      FirstUnique(text, '{', p, start);
      LastUnique(text, '}', q, last);
    }
  }

  lemma FirstUnique(s: string, c: char, p: int, p': int)
    requires IsFirst(s, c, p) && IsFirst(s, c, p')
    ensures p == p'
  {
  }

  lemma LastUnique(s: string, c: char, q: int, q': int)
    requires IsLast(s, c, q) && IsLast(s, c, q')
    ensures q == q'
  {
  }

  // ---------------------------------------------------------------------
  // The quote repair.

  /** `json_str.replace("'", '"')`. */
  function RepairQuotes(s: string): (r: string)
    ensures |r| == |s|
    ensures forall i :: 0 <= i < |s| ==> r[i] == if s[i] == '\'' then '"' else s[i]
    ensures '\'' !in r
  {
    if s == [] then []
    else [if s[0] == '\'' then '"' else s[0]] + RepairQuotes(s[1..])
  }

  /** Repairing an already repaired string changes nothing. */
  lemma RepairQuotesIdempotent(s: string)
    ensures RepairQuotes(RepairQuotes(s)) == RepairQuotes(s)
  {
  }

  /** The JSON a reply writes with single quotes throughout, as in the
      prompt's own example: every '"' of a strict text turned into '\''. */
  function SingleQuoted(s: string): (r: string)
    ensures |r| == |s| && '"' !in r
    ensures forall i :: 0 <= i < |s| ==> r[i] == if s[i] == '"' then '\'' else s[i]
  {
    if s == [] then []
    else [if s[0] == '"' then '\'' else s[0]] + SingleQuoted(s[1..])
  }

  /** The repair undoes single-quoting of a text that had no '\'' of its own. */
  lemma {:induction false} RepairUndoesSingleQuoted(s: string)
    requires '\'' !in s
    ensures RepairQuotes(SingleQuoted(s)) == s
  {
    if s != [] {
      assert '\'' !in s[1..] by {
        assert forall i :: 0 <= i < |s| - 1 ==> s[1..][i] == s[i + 1];
      }
      RepairUndoesSingleQuoted(s[1..]);
    }
  }

  // ---------------------------------------------------------------------
  // Decoding with one retry.

  /** The JSON value `process_image` returns for a reply `text`. */
  function ParseResponse(text: string, decode: string -> Option<Json>): (r: Result<Json, ParseError>)
    ensures r == Err(NoJsonFound) <==> '{' !in text || '}' !in text
    ensures forall c :: ExtractCandidate(text) == Ok(c) ==>
      && (decode(c).Some? ==> r == Ok(decode(c).value))
      && (decode(c).None? ==> r.Ok? == decode(RepairQuotes(c)).Some?)
      && (r.Ok? ==> Some(r.value) == decode(c) || Some(r.value) == decode(RepairQuotes(c)))
  {
    var c :- ExtractCandidate(text);
    match decode(c)
    case Some(v) => Ok(v)
    case None =>
      match decode(RepairQuotes(c))
      case Some(v) => Ok(v)
      case None => Err(MalformedJson)
  }

  /** At most one repair: the outcome depends on the decoder only at the
      candidate and at its repaired form, so two decoders that agree there
      give the same outcome. */
  lemma ParseResponseConsults(text: string, decode: string -> Option<Json>, decode': string -> Option<Json>, c: string)
    requires ExtractCandidate(text) == Ok(c)
    requires decode(c) == decode'(c) && decode(RepairQuotes(c)) == decode'(RepairQuotes(c))
    ensures ParseResponse(text, decode) == ParseResponse(text, decode')
  {
  }

  /** A reply written with single quotes, as the prompt's example is, is
      recovered by the repair when the strict decoder rejects it. */
  lemma SingleQuotedReplyRecovered(before: string, json: string, after: string,
                                   decode: string -> Option<Json>, v: Json)
    requires '\'' !in json && '{' !in before && '}' !in after
    requires |json| >= 2 && json[0] == '{' && json[|json| - 1] == '}'
    requires decode(json) == Some(v) && decode(SingleQuoted(json)) == None
    ensures ParseResponse(before + SingleQuoted(json) + after, decode) == Ok(v)
  {
    var sq := SingleQuoted(json);
    SingleQuotedFramed(json);
    RepairUndoesSingleQuoted(json);
    FramedCandidate(before, sq, after);
    RepairedCandidate(before + sq + after, sq, decode);
  }

  /** Single-quoting keeps the framing braces. */
  lemma SingleQuotedFramed(json: string)
    requires |json| >= 2 && json[0] == '{' && json[|json| - 1] == '}'
    ensures var sq := SingleQuoted(json); |sq| >= 2 && sq[0] == '{' && sq[|sq| - 1] == '}'
  {
  }

  /** A candidate that fails to decode as it stands but decodes once
      repaired gives the repaired value. */
  lemma RepairedCandidate(text: string, c: string, decode: string -> Option<Json>)
    requires ExtractCandidate(text) == Ok(c)
    requires decode(c) == None && decode(RepairQuotes(c)).Some?
    ensures ParseResponse(text, decode) == Ok(decode(RepairQuotes(c)).value)
  {
  }

  /** A text between brace-free prose and a brace-free tail is itself the
      candidate, when it starts with '{' and ends with '}'. */
  lemma FramedCandidate(before: string, mid: string, after: string)
    requires '{' !in before && '}' !in after
    requires |mid| >= 2 && mid[0] == '{' && mid[|mid| - 1] == '}'
    ensures ExtractCandidate(before + mid + after) == Ok(mid)
  {
    var text := before + mid + after;
    var p, q := |before|, |before| + |mid| - 1;
    assert IsFirst(text, '{', p) by {
      forall i | 0 <= i < p ensures text[i] != '{' {
        assert text[i] == before[i];
      }
    }
    assert IsLast(text, '}', q) by {
      forall i | q < i < |text| ensures text[i] != '}' {
        assert text[i] == after[i - q - 1];
      }
    }
    assert text[p..q + 1] == mid;
  }

  /** When the last '}' precedes the first '{' the candidate is empty, so a
      reply with both braces still fails, as malformed rather than as
      holding no JSON. */
  lemma ReversedBraces(decode: string -> Option<Json>)
    requires decode([]) == None
    ensures ParseResponse("}{", decode) == Err(MalformedJson)
  {
    assert IsFirst("}{", '{', 1) && IsLast("}{", '}', 0);
    assert RepairQuotes([]) == [];
  }

  // ---------------------------------------------------------------------
  // Validation.

  /** The keys the prompt asks the model for. */
  const DocumentIdKey := "报销单号"
  const DateKey := "日期"
  const SubmitterKey := "报销人"
  const DepartmentKey := "部门"
  const ItemsKey := "项目"
  const TotalKey := "总金额"
  const NameKey := "名称"
  const AmountKey := "金额"

  const RequiredFields: seq<string> := [DocumentIdKey, DateKey, SubmitterKey, DepartmentKey, ItemsKey, TotalKey]

  /** A line item: a dict holding a name and an amount. */
  predicate IsItem(v: Json) {
    v.JObject? && NameKey in v.fields && AmountKey in v.fields
  }

  /** The shape the rest of the pipeline expects of a reply. The total is
      required to be present but is not compared with the items. */
  predicate WellShaped(data: Json) {
    && data.JObject?
    && (forall f :: f in RequiredFields ==> f in data.fields)
    && data.fields[ItemsKey].JArray?
    && forall i :: 0 <= i < |data.fields[ItemsKey].elems| ==> IsItem(data.fields[ItemsKey].elems[i])
  }

  /** The loop over the required fields from the k-th on: `field not in
      data` with Python's `in`, Ok(false) at the first missing field. */
  function CheckRequired(data: Json, k: nat): (r: Result<bool, Exc>)
    requires k <= |RequiredFields|
    ensures data.JObject? ==> r == Ok(forall j :: k <= j < |RequiredFields| ==> RequiredFields[j] in data.fields)
    ensures k < |RequiredFields| && (data.JNull? || data.JBool? || data.JNumber?) ==> r == Err(TypeError)
    decreases |RequiredFields| - k
  {
    if k == |RequiredFields| then Ok(true)
    else
      var present :- Contains(data, RequiredFields[k]);
      if !present then Ok(false) else CheckRequired(data, k + 1)
  }

  /** The loop over the items; `isinstance` is checked first, so the `in`
      tests only ever see dicts and cannot raise. */
  function CheckItems(items: seq<Json>): (ok: bool)
    ensures ok <==> forall i :: 0 <= i < |items| ==> IsItem(items[i])
  {
    if items == [] then true
    else if !IsItem(items[0]) then false
    else
      assert forall i :: 1 <= i < |items| ==> items[i] == items[1..][i - 1];
      CheckItems(items[1..])
  }

  /** The body of `validate_response`'s try block, with the exception it
      may raise. */
  function ValidationSteps(data: Json): (r: Result<bool, Exc>)
    ensures data.JObject? ==> r.Ok?
    ensures r.Err? ==> r.error == TypeError
    ensures r == Ok(true) <==> WellShaped(data)
  {
    var complete :- CheckRequired(data, 0);
    assert data.JObject? && complete ==> (forall f :: f in RequiredFields ==> f in data.fields) by {
      if data.JObject? && complete {
        forall f | f in RequiredFields ensures f in data.fields {
          var j :| 0 <= j < |RequiredFields| && RequiredFields[j] == f;
        }
      }
    }
    assert WellShaped(data) ==> forall j :: 0 <= j < |RequiredFields| ==> RequiredFields[j] in data.fields;
    if !complete then Ok(false)
    else
      var items :- Subscript(data, ItemsKey);
      if !items.JArray? then Ok(false)
      else Ok(CheckItems(items.elems))
  }

  /** `validate_response(data)`: never raises, an exception inside reads as
      False. */
  function ValidateResponse(data: Json): (ok: bool)
    ensures ok <==> WellShaped(data)
  {
    match ValidationSteps(data)
    case Ok(b) => b
    case Err(_) => false
  }

  /** A missing required field fails validation. */
  lemma MissingFieldRejected(m: map<string, Json>, f: string)
    requires f in RequiredFields && f !in m
    ensures !ValidateResponse(JObject(m))
  {
  }

  /** The total is never reconciled with the items: any total is accepted,
      and an empty item list is accepted. */
  lemma TotalIgnored(m: map<string, Json>, total: Json)
    requires ValidateResponse(JObject(m))
    ensures ValidateResponse(JObject(m[TotalKey := total]))
  {
    assert TotalKey != ItemsKey;
  }

  lemma EmptyItemsAccepted(m: map<string, Json>)
    requires forall f :: f in RequiredFields ==> f in m
    requires m[ItemsKey] == JArray([])
    ensures ValidateResponse(JObject(m))
  {
  }

  /** Only dicts are accepted. */
  lemma NonObjectRejected(data: Json)
    requires !data.JObject?
    ensures !ValidateResponse(data)
  {
  }

  /** A list holding the six field names passes the membership loop and then
      raises TypeError on `data["项目"]`; the catch-all turns it into False. */
  lemma ListOfFieldNamesRaises()
    ensures var data := JArray(seq(|RequiredFields|, i requires 0 <= i < |RequiredFields| => JString(RequiredFields[i])));
      ValidationSteps(data) == Err(TypeError) && !ValidateResponse(data)
  {
    var data := JArray(seq(|RequiredFields|, i requires 0 <= i < |RequiredFields| => JString(RequiredFields[i])));
    assert forall k :: 0 <= k < |RequiredFields| ==> data.elems[k] == JString(RequiredFields[k]);
    assert CheckRequired(data, 5) == Ok(true);
    assert CheckRequired(data, 4) == Ok(true);
    assert CheckRequired(data, 3) == Ok(true);
    assert CheckRequired(data, 2) == Ok(true);
    assert CheckRequired(data, 1) == Ok(true);
    assert CheckRequired(data, 0) == Ok(true);
  }
}
