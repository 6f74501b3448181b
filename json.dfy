/** Parsed JSON values, as Foundation's JSON coders deliver them to the
    `Codable` conformances. The JSON text itself is not modelled: reading
    text into a value and writing a value as text are parameters. */
module Json {
  import opened Wrappers
  import opened Errors
  import opened Bytes

  datatype JsonValue =
    | JNull
    | JString(str: string)
    | JInt(num: int)
    | JArray(items: seq<JsonValue>)
    | JObject(fields: map<string, JsonValue>)

  /** `JSONDecoder` on a byte slice: `None` when the text is not JSON. */
  type JsonReader = Bytes -> Option<JsonValue>

  /** `JSONEncoder`: its output is a `Data`, whose count is a Swift `Int`. */
  type JsonWriter = w: JsonValue -> Bytes | forall v :: |w(v)| <= IntMax
    witness (v: JsonValue) => []

  /** A writer and a reader agree on a value when reading the written text
      gives the value back. */
  predicate RoundTrips(read: JsonReader, write: JsonWriter, v: JsonValue) {
    read(write(v)) == Some(v)
  }

  /** Decoding a Swift `Int`: a JSON integer that fits in 64 bits. */
  function DecodeInt(v: JsonValue): (r: Option<int>)
    ensures r.Some? <==> v.JInt? && IsInt(v.num)
    ensures r.Some? ==> r.value == v.num
  {
    if v.JInt? && IsInt(v.num) then Some(v.num) else None
  }

  /** Decoding `[Int]`: an array each of whose items decodes as an `Int`. */
  function DecodeIntArray(v: JsonValue): (r: Option<seq<int>>)
    ensures r.Some? <==> v.JArray? && forall i :: 0 <= i < |v.items| ==> DecodeInt(v.items[i]).Some?
    ensures r.Some? ==>
      && |r.value| == |v.items|
      && forall i :: 0 <= i < |v.items| ==> v.items[i] == JInt(r.value[i])
  {
    if v.JArray? && forall i :: 0 <= i < |v.items| ==> DecodeInt(v.items[i]).Some? then
      Some(seq(|v.items|, i requires 0 <= i < |v.items| => v.items[i].num))
    else
      None
  }

  function EncodeIntArray(xs: seq<int>): (v: JsonValue)
    ensures v.JArray? && |v.items| == |xs|
  {
    JArray(seq(|xs|, i requires 0 <= i < |xs| => JInt(xs[i])))
  }

  /** Decoding `[String: String]`: an object all of whose values are strings. */
  function DecodeStringMap(v: JsonValue): (r: Option<map<string, string>>)
    ensures r.Some? <==> v.JObject? && forall k :: k in v.fields ==> v.fields[k].JString?
    ensures r.Some? ==>
      && r.value.Keys == v.fields.Keys
      && forall k :: k in r.value ==> v.fields[k] == JString(r.value[k])
  {
    if v.JObject? && forall k :: k in v.fields ==> v.fields[k].JString? then
      Some(map k | k in v.fields :: v.fields[k].str)
    else
      None
  }

  function EncodeStringMap(m: map<string, string>): (v: JsonValue)
    ensures v.JObject? && v.fields.Keys == m.Keys
  {
    JObject(map k | k in m :: JString(m[k]))
  }

  predicate AllInts(xs: seq<int>) {
    forall i :: 0 <= i < |xs| ==> IsInt(xs[i])
  }

  /** `[Int]` round trip, for values that fit in an `Int`. */
  lemma IntArrayRoundTrip(xs: seq<int>)
    requires AllInts(xs)
    ensures DecodeIntArray(EncodeIntArray(xs)) == Some(xs)
  {
    var v := EncodeIntArray(xs);
    assert forall i :: 0 <= i < |xs| ==> v.items[i] == JInt(xs[i]);
    assert DecodeIntArray(v).Some?;
    assert DecodeIntArray(v).value == xs;
  }

  /** `[String: String]` round trip. */
  lemma StringMapRoundTrip(m: map<string, string>)
    ensures DecodeStringMap(EncodeStringMap(m)) == Some(m)
  {
    var v := EncodeStringMap(m);
    assert DecodeStringMap(v).Some?;
    assert DecodeStringMap(v).value == m;
  }
}
