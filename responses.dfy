/** How the node reads a response: the generic extractor the paginator uses
    (`extractDataFromResponse`) and the keyed list/single unwrap that each resource
    operation repeats inline after its request. */
module Responses {
  import opened Wrappers
  import opened JsValues

  /** The value of the first field, in key order, whose value is an array. */
  function FirstArrayField(fields: seq<(string, Value)>): Option<seq<Value>> {
    if |fields| == 0 then None
    else if fields[0].1.Arr? then Some(fields[0].1.items)
    else FirstArrayField(fields[1..])
  }

  /** `extractDataFromResponse(response)`, first match wins. */
  function ExtractData(response: Value): seq<Value> {
    if !Truthy(response) then []
    else if response.Arr? then response.items
    else if Truthy(Get(response, "data")) && Get(response, "data").Arr? then Get(response, "data").items
    else if Truthy(Get(response, "data")) && Get(response, "data").Obj? then [Get(response, "data")]
    else if response.Obj? && FirstArrayField(response.fields).Some? then FirstArrayField(response.fields).value
    else [response]
  }

  /** A string response is parsed; one that does not parse is kept as it is. */
  function ParseIfString(raw: Value, parse: JsonParser): (v: Value)
    ensures !raw.Str? ==> v == raw
    ensures raw.Str? && parse(raw.s).None? ==> v == raw
    ensures raw.Str? && parse(raw.s).Some? ==> v == parse(raw.s).value
  {
    if raw.Str? then (match parse(raw.s) case Some(p) => p case None => raw) else raw
  }

  /** The single-record unwrap (get-one and create operations): the record under `key`
      when the response is an object holding it, otherwise the whole parsed response. */
  function NormalizeSingle(raw: Value, key: string, parse: JsonParser): Value {
    var p := ParseIfString(raw, parse);
    if Truthy(p) && (p.Obj? || p.Arr?) && Has(p, key) then Get(p, key) else p
  }

  /** The list unwrap (get-all operations): the value under `key` as a list (a non-array
      wrapped as one element), else the array itself, else the one value as a list. */
  function Normalize(raw: Value, key: string, parse: JsonParser): seq<Value> {
    var p := ParseIfString(raw, parse);
    if Truthy(p) && (p.Obj? || p.Arr?) && Has(p, key) then
      (var v := Get(p, key); if v.Arr? then v.items else [v])
    else if p.Arr? then p.items
    else [p]
  }

  /** A value read as a list of records: an array's elements, anything else alone. */
  function AsList(v: Value): seq<Value> {
    if v.Arr? then v.items else [v]
  }

  // ---------------------------------------------------------------------------
  // Properties of the extractor

  /** Falsy responses give no records. */
  lemma {:induction false} ExtractFalsy(response: Value)
    requires !Truthy(response)
    ensures ExtractData(response) == []
  {
  }

  /** An array is returned as it is, so extracting is idempotent on the extractor's own output. */
  lemma {:induction false} ExtractIdempotent(response: Value)
    ensures ExtractData(Arr(ExtractData(response))) == ExtractData(response)
  {
  }

  /** With no usable `data`, an object yields the first array-valued property in key order
      (an empty array included). */
  lemma {:induction false} ExtractFirstArray(fields: seq<(string, Value)>, i: nat)
    requires !Truthy(Get(Obj(fields), "data")) || !(Get(Obj(fields), "data").Arr? || Get(Obj(fields), "data").Obj?)
    requires i < |fields| && fields[i].1.Arr?
    requires forall j :: 0 <= j < i ==> !fields[j].1.Arr?
    ensures ExtractData(Obj(fields)) == fields[i].1.items
  {
    FirstArrayFieldAt(fields, i);
  }

  /** An object with no usable `data` and no array property yields itself alone. */
  lemma {:induction false} ExtractNoArray(fields: seq<(string, Value)>)
    requires !Truthy(Get(Obj(fields), "data")) || !(Get(Obj(fields), "data").Arr? || Get(Obj(fields), "data").Obj?)
    requires forall j :: 0 <= j < |fields| ==> !fields[j].1.Arr?
    ensures ExtractData(Obj(fields)) == [Obj(fields)]
  {
    FirstArrayFieldNone(fields);
  }

  /** The first array-valued field is found, whatever follows it. */
  lemma {:induction false} FirstArrayFieldAt(fields: seq<(string, Value)>, i: nat)
    requires i < |fields| && fields[i].1.Arr?
    requires forall j :: 0 <= j < i ==> !fields[j].1.Arr?
    ensures FirstArrayField(fields) == Some(fields[i].1.items)
  {
    if i > 0 {
      assert !fields[0].1.Arr?;
      FirstArrayFieldAt(fields[1..], i - 1);
    }
  }

  /** Without array-valued fields there is nothing to find, and conversely. */
  lemma {:induction false} FirstArrayFieldNone(fields: seq<(string, Value)>)
    ensures FirstArrayField(fields).None? <==> forall j :: 0 <= j < |fields| ==> !fields[j].1.Arr?
  {
    if |fields| > 0 && !fields[0].1.Arr? {
      FirstArrayFieldNone(fields[1..]);
      assert forall j :: 1 <= j < |fields| ==> fields[j] == fields[1..][j - 1];
    }
  }

  /** The `data` envelope is read exactly as the keyed unwrap reads the key `data`, whenever
      `data` holds an array or an object. */
  lemma {:induction false} ExtractAgreesWithDataUnwrap(fields: seq<(string, Value)>, parse: JsonParser)
    requires Get(Obj(fields), "data").Arr? || Get(Obj(fields), "data").Obj?
    ensures ExtractData(Obj(fields)) == Normalize(Obj(fields), "data", parse)
  {
    LookupFound(fields, "data");
  }

  // ---------------------------------------------------------------------------
  // Properties of the keyed unwrap

  /** The list unwrap is the single-record unwrap read as a list: the two inline variants agree. */
  lemma {:induction false} ListIsSingleAsList(raw: Value, key: string, parse: JsonParser)
    ensures Normalize(raw, key, parse) == AsList(NormalizeSingle(raw, key, parse))
  {
  }

  /** `{ key: [a, b] }` gives `[a, b]`; `{ key: x }` with `x` not an array gives `[x]`. */
  lemma {:induction false} EnvelopeUnwrap(fields: seq<(string, Value)>, key: string, parse: JsonParser)
    requires HasKey(fields, key)
    ensures Normalize(Obj(fields), key, parse) == AsList(Lookup(fields, key))
    ensures NormalizeSingle(Obj(fields), key, parse) == Lookup(fields, key)
  {
  }

  /** An array is taken as the record list unchanged, so normalizing is idempotent. */
  lemma {:induction false} NormalizeIdempotent(raw: Value, key: string, parse: JsonParser)
    ensures Normalize(Arr(Normalize(raw, key, parse)), key, parse) == Normalize(raw, key, parse)
  {
  }

  /** A string response is parsed once and then read exactly as if the server had sent the
      parsed value (a parsed string is not parsed again). */
  lemma {:induction false} ParsedOnce(s: string, v: Value, key: string, parse: JsonParser)
    requires parse(s) == Some(v) && !v.Str?
    ensures Normalize(Str(s), key, parse) == Normalize(v, key, parse)
    ensures NormalizeSingle(Str(s), key, parse) == NormalizeSingle(v, key, parse)
  {
  }

  /** A string that does not parse is kept: it is the one record. */
  lemma {:induction false} UnparsableKept(s: string, key: string, parse: JsonParser)
    requires parse(s).None?
    ensures Normalize(Str(s), key, parse) == [Str(s)]
    ensures NormalizeSingle(Str(s), key, parse) == Str(s)
  {
  }

  /** The list is empty exactly when the payload (the value under the key, or the parsed
      response itself when the key is absent) is an empty array. */
  lemma {:induction false} NormalizeEmptyIff(raw: Value, key: string, parse: JsonParser)
    ensures Normalize(raw, key, parse) == [] <==> NormalizeSingle(raw, key, parse) == Arr([])
  {
    ListIsSingleAsList(raw, key, parse);
  }

  /** Worked example: `{"projects": [{"id":1},{"id":2}]}` under `projects` gives the two records,
      and `{"projects": {"id":1}}` gives the one record. */
  lemma {:induction false} ProjectsEnvelopeExample(parse: JsonParser)
    ensures var p1 := Obj([("id", Number(JsNumbers.Fin(1.0)))]);
            var p2 := Obj([("id", Number(JsNumbers.Fin(2.0)))]);
            && Normalize(Obj([("projects", Arr([p1, p2]))]), "projects", parse) == [p1, p2]
            && Normalize(Obj([("projects", p1)]), "projects", parse) == [p1]
  {
    var p1 := Obj([("id", Number(JsNumbers.Fin(1.0)))]);
    var p2 := Obj([("id", Number(JsNumbers.Fin(2.0)))]);
    var f1 := [("projects", Arr([p1, p2]))];
    var f2 := [("projects", p1)];
    assert f1[0].0 == "projects" && HasKey(f1, "projects");
    assert f2[0].0 == "projects" && HasKey(f2, "projects");
  }
}
