/** Payload decoding and type coercion of the MQTT source. A payload that decodes to a
    JSON object becomes a multi-field mapping whose values go through `float()` where it
    accepts them; every other payload becomes the single field `"value"`, chosen from the
    RAW bytes: `str()` of them for a stringified measurement, else `float()` of them, else
    the bytes unchanged. */
module Payload {
  import opened Types

  /** The Python builtins the decoder calls, whose internals are not modelled:
      `json.loads` (None when it raises ValueError), `float()` of a text string and of
      a byte string (None when it raises ValueError), and `str()` of a byte string. */
  datatype Primitives = Primitives(
    jsonLoads: Bytes -> Option<Json>,
    parseFloat: string -> Option<real>,
    parseFloatBytes: Bytes -> Option<real>,
    bytesToStr: Bytes -> string)

  /** `float()` of a JSON null, array or object raises TypeError, which the source does
      not catch. */
  predicate RaisesTypeError(j: Json) {
    j.JNull? || j.JArray? || j.JObject?
  }

  /** One member of a JSON object after `float()` with ValueError ignored; None when
      `float()` raises TypeError. */
  function CoerceMember(prims: Primitives, j: Json): (r: Option<Value>)
    ensures r.None? <==> RaisesTypeError(j)
    ensures j.JBool? ==> r == Some(Num(if j.b then 1.0 else 0.0))
    ensures j.JNumber? ==> r == Some(Num(j.x))
    ensures j.JString? && prims.parseFloat(j.s).Some? ==> r == Some(Num(prims.parseFloat(j.s).value))
    ensures j.JString? && prims.parseFloat(j.s).None? ==> r == Some(Str(j.s))
  {
    match j
    case JBool(b) => Some(Num(if b then 1.0 else 0.0))
    case JNumber(x) => Some(Num(x))
    case JString(s) =>
      (match prims.parseFloat(s)
       case Some(x) => Some(Num(x))
       case None => Some(Str(s)))
    case _ => None
  }

  /** The multi-field branch: every member coerced, or the TypeError of one that cannot be. */
  function CoerceObject(prims: Primitives, members: map<string, Json>): (r: Result<Fields, Error>)
    ensures r.Failure? <==> exists k :: k in members && RaisesTypeError(members[k])
    ensures r.Failure? ==> r.error == TypeError
    ensures r.Success? ==> r.value.Keys == members.Keys
    ensures r.Success? ==> forall k :: k in members ==> Some(r.value[k]) == CoerceMember(prims, members[k])
  {
    if forall k :: k in members ==> CoerceMember(prims, members[k]).Some? then
      Success(map k | k in members :: CoerceMember(prims, members[k]).value)
    else
      Failure(TypeError)
  }

  /** The single-field branch's value, decided from the raw payload. */
  function SingleValue(prims: Primitives, measurement: string, stringify: seq<string>, raw: Bytes): Value
  {
    if measurement in stringify then Str(prims.bytesToStr(raw))
    else
      match prims.parseFloatBytes(raw)
      case Some(x) => Num(x)
      case None => Raw(raw)
  }

  /** Whether `json.loads` turns the payload into a JSON object. */
  predicate DecodesToObject(prims: Primitives, raw: Bytes) {
    prims.jsonLoads(raw).Some? && prims.jsonLoads(raw).value.JObject?
  }

  /** The decoding step of the message handler. */
  function DecodePayload(prims: Primitives, measurement: string, stringify: seq<string>, raw: Bytes)
    : (r: Result<Fields, Error>)
    // Multi-field branch: same keys, each value as float() leaves it; TypeError escapes.
    ensures DecodesToObject(prims, raw) ==>
      var members := prims.jsonLoads(raw).value.members;
      && (r.Failure? <==> exists k :: k in members && RaisesTypeError(members[k]))
      && (r.Failure? ==> r.error == TypeError)
      && (r.Success? ==> r.value.Keys == members.Keys)
      && (r.Success? ==> forall k :: k in members ==> Some(r.value[k]) == CoerceMember(prims, members[k]))
    // Single-field branch: exactly the key "value", chosen from the raw bytes.
    ensures !DecodesToObject(prims, raw) ==>
      && r.Success?
      && r.value.Keys == {"value"}
      && (measurement in stringify ==> r.value["value"] == Str(prims.bytesToStr(raw)))
      && (measurement !in stringify && prims.parseFloatBytes(raw).Some? ==>
            r.value["value"] == Num(prims.parseFloatBytes(raw).value))
      && (measurement !in stringify && prims.parseFloatBytes(raw).None? ==>
            r.value["value"] == Raw(raw))
  {
    match prims.jsonLoads(raw)
    case Some(JObject(members)) => CoerceObject(prims, members)
    case _ => Success(map["value" := SingleValue(prims, measurement, stringify, raw)])
  }

  /** The stringify set is never consulted for a JSON object payload, nor is the
      measurement name. */
  lemma DictDecodeIgnoresStringify(prims: Primitives, m1: string, s1: seq<string>,
                                   m2: string, s2: seq<string>, raw: Bytes)
    requires DecodesToObject(prims, raw)
    ensures DecodePayload(prims, m1, s1, raw) == DecodePayload(prims, m2, s2, raw)
  {
  }

  /** A payload that `json.loads` accepts as a scalar or array is decoded exactly as if it
      were not JSON at all: the parsed value plays no part. */
  lemma NonObjectJsonIsIgnored(prims: Primitives, measurement: string, stringify: seq<string>, raw: Bytes)
    requires prims.jsonLoads(raw).Some? && !prims.jsonLoads(raw).value.JObject?
    ensures var notJson := prims.(jsonLoads := (b: Bytes) => None);
      DecodePayload(prims, measurement, stringify, raw) == DecodePayload(notJson, measurement, stringify, raw)
  {
  }

  /** A decoded JSON object never holds the raw payload bytes as a value: each member is a
      number or a text string; raw bytes appear only in the single-field branch. */
  lemma DecodedDictHoldsNoRawBytes(prims: Primitives, measurement: string, stringify: seq<string>, raw: Bytes)
    requires DecodesToObject(prims, raw)
    requires DecodePayload(prims, measurement, stringify, raw).Success?
    ensures forall k :: k in DecodePayload(prims, measurement, stringify, raw).value ==>
      !DecodePayload(prims, measurement, stringify, raw).value[k].Raw?
  {
    var members := prims.jsonLoads(raw).value.members;
    var fields := DecodePayload(prims, measurement, stringify, raw).value;
    forall k | k in fields
      ensures !fields[k].Raw?
    {
      assert Some(fields[k]) == CoerceMember(prims, members[k]);
    }
  }

  /** Worked cases: numeric-looking strings in an object become numbers and the rest stay
      strings; a scalar payload is a number unless its measurement is stringified, in
      which case it is `str()` of the raw bytes. */
  lemma DecodeExamples(prims: Primitives, obj: Bytes, scalar: Bytes)
    requires prims.jsonLoads(obj) == Some(JObject(map["a" := JString("1.5"), "b" := JString("x")]))
    requires prims.parseFloat("1.5") == Some(1.5) && prims.parseFloat("x") == None
    requires prims.jsonLoads(scalar) == Some(JNumber(23.4)) && prims.parseFloatBytes(scalar) == Some(23.4)
    ensures DecodePayload(prims, "temp", ["temp"], obj) == Success(map["a" := Num(1.5), "b" := Str("x")])
    ensures DecodePayload(prims, "temp", [], scalar) == Success(map["value" := Num(23.4)])
    ensures DecodePayload(prims, "temp", ["temp"], scalar) == Success(map["value" := Str(prims.bytesToStr(scalar))])
  {
    var fields := DecodePayload(prims, "temp", ["temp"], obj).value;
    assert fields.Keys == {"a", "b"};
    assert fields["a"] == Num(1.5) && fields["b"] == Str("x");
    var expected := map["a" := Num(1.5), "b" := Str("x")];
    assert expected.Keys == {"a", "b"};
    assert forall k :: k in fields ==> fields[k] == expected[k];
    assert fields == expected;
  }
}
