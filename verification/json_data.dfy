/** A decoded JSON value (RFC 8259) as Python's json module hands it over,
    and the few Python operations the pipeline applies to such values:
    `key in v`, `v[key]`, iteration and `float(v)`. Each operation returns
    the exception Python would raise instead of a value. */
module JsonData {
  import opened Wrappers

  /** Numbers keep their decimal value; Python's int/float distinction and
      IEEE rounding are not modelled. Objects are dicts with distinct keys. */
  datatype Json =
    | JNull
    | JBool(b: bool)
    | JNumber(n: real)
    | JString(s: string)
    | JArray(elems: seq<Json>)
    | JObject(fields: map<string, Json>)

  /** The Python exceptions the core can raise. */
  datatype Exc = KeyError | TypeError | ValueError

  /** Python's `t in s` on two str values: t occurs in s as a contiguous run. */
  predicate IsInfix(t: string, s: string)
    decreases |s|
  {
    t <= s || (s != [] && IsInfix(t, s[1..]))
  }

  lemma {:induction false} InfixAt(t: string, s: string, i: nat)
    requires i + |t| <= |s| && s[i..i + |t|] == t
    ensures IsInfix(t, s)
    decreases i
  {
    if i > 0 {
      assert s[1..][i - 1..i - 1 + |t|] == s[i..i + |t|];
      InfixAt(t, s[1..], i - 1);
    } else {
      assert s[..|t|] == t;
    }
  }

  /** t occurs in s starting at index i. */
  predicate OccursAt(t: string, s: string, i: int) {
    0 <= i && i + |t| <= |s| && s[i..i + |t|] == t
  }

  /** The recursive substring test agrees with "occurs at some index". */
  lemma {:induction false} InfixIff(t: string, s: string)
    ensures IsInfix(t, s) <==> exists i :: OccursAt(t, s, i)
    decreases |s|
  {
    if exists i :: OccursAt(t, s, i) {
      var i :| OccursAt(t, s, i);
      InfixAt(t, s, i);
    }
    if IsInfix(t, s) {
      if t <= s {
        assert OccursAt(t, s, 0);
      } else {
        InfixIff(t, s[1..]);
        var i :| OccursAt(t, s[1..], i);
        assert s[1..][i..i + |t|] == s[i + 1..i + 1 + |t|];
        assert OccursAt(t, s, i + 1);
      }
    }
  }

  /** Python's `key in v` for a str key: dict membership, list membership
      (only a str element can equal a str), substring test on a str, and
      TypeError for None, bool and numbers. */
  function Contains(v: Json, key: string): (r: Result<bool, Exc>)
    ensures r.Ok? <==> v.JObject? || v.JArray? || v.JString?
    ensures r.Err? ==> r.error == TypeError
    ensures v.JObject? ==> r == Ok(key in v.fields)
    ensures v.JArray? ==> r == Ok(exists i :: 0 <= i < |v.elems| && v.elems[i] == JString(key))
    ensures v.JString? ==> r == Ok(exists i :: OccursAt(key, v.s, i))
  {
    if v.JObject? then Ok(key in v.fields)
    else if v.JArray? then Ok(JString(key) in v.elems)
    else if v.JString? then
      InfixIff(key, v.s);
      Ok(IsInfix(key, v.s))
    else Err(TypeError)
  }

  /** Python's `v[key]` for a str key: KeyError for a dict without the key,
      TypeError for every other kind of value (list and str indices must be
      integers; None, bool and numbers are not subscriptable). */
  function Subscript(v: Json, key: string): (r: Result<Json, Exc>)
    ensures r.Ok? <==> v.JObject? && key in v.fields
    ensures r.Ok? ==> r.value == v.fields[key]
    ensures r.Err? ==> r.error == (if v.JObject? then KeyError else TypeError)
  {
    match v
    case JObject(m) => if key in m then Ok(m[key]) else Err(KeyError)
    case _ => Err(TypeError)
  }

  /** Python's `float(v)`: numbers convert exactly, True and False become 1
      and 0, a str goes through Python's float-literal reader (a parameter
      here: `parseFloat`, None meaning ValueError), and None, lists and dicts
      raise TypeError. */
  function ToFloat(v: Json, parseFloat: string -> Option<real>): (r: Result<real, Exc>)
    ensures r.Ok? <==> v.JNumber? || v.JBool? || (v.JString? && parseFloat(v.s).Some?)
    ensures r.Err? ==> r.error == (if v.JString? then ValueError else TypeError)
    ensures v.JNumber? ==> r == Ok(v.n)
    ensures v.JBool? ==> r == Ok(if v.b then 1.0 else 0.0)
    ensures v.JString? && r.Ok? ==> Some(r.value) == parseFloat(v.s)
  {
    match v
    case JNumber(x) => Ok(x)
    case JBool(b) => Ok(if b then 1.0 else 0.0)
    case JString(s) =>
      if parseFloat(s).Some? then Ok(parseFloat(s).value) else Err(ValueError)
    case _ => Err(TypeError)
  }
}
