/** `HeaderElement`: the value at one key of the header, either the
    free-form metadata map or a tensor descriptor. */
module HeaderElements {
  import opened Wrappers
  import opened Errors
  import opened Json
  import opened DTypes
  import Descriptors

  type TensorData = Descriptors.TensorData

  /** `Constants.metadataKey`, the one key whose value may be metadata. */
  const MetadataKey: string := "__metadata__"

  /** The current revision's element; its metadata payload is optional
      (a `null` in the header). The older revisions' elements are the
      values with a present payload. */
  datatype HeaderElement =
    | Metadata(entries: Option<map<string, string>>)
    | Tensor(data: TensorData)

  /** The `metadata` accessor. */
  function MetadataOf(e: HeaderElement): (r: Option<map<string, string>>)
    ensures r.Some? ==> e == Metadata(r)
  {
    if e.Metadata? then e.entries else None
  }

  /** The `tensorData` accessor. */
  function TensorDataOf(e: HeaderElement): (r: Option<TensorData>)
    ensures r.Some? <==> e.Tensor?
    ensures r.Some? ==> e == Tensor(r.value)
  {
    if e.Tensor? then Some(e.data) else None
  }

  /** `encode(to:)`: the payload itself, `null` for absent metadata. */
  function ToJson(e: HeaderElement): JsonValue {
    match e
    case Metadata(None) => JNull
    case Metadata(Some(m)) => EncodeStringMap(m)
    case Tensor(t) => Descriptors.ToJson(t)
  }

  /** `validateMetadataKey`: metadata may only sit at the reserved key. */
  function CheckMetadataKey(key: string): (r: Result<(), Error>)
    ensures r.Ok? <==> key == MetadataKey
    ensures r.Err? ==> r.error == MetadataIncompleteBuffer
  {
    if key == MetadataKey then Ok(()) else Err(MetadataIncompleteBuffer)
  }

  /** The current revision's `init(from:)` for the value at `key`: a
      string-to-string object, then `null`, then a descriptor. A failed
      descriptor decode is swallowed by `try?` and reported as an invalid
      element, unless it stopped the process. */
  function Classify(key: string, v: JsonValue): (r: Result<HeaderElement, Error>)
    ensures r.Ok? && r.value.Metadata? ==> key == MetadataKey
    ensures r.Ok? && r.value.Metadata? && r.value.entries.Some? ==>
              DecodeStringMap(v) == r.value.entries
    ensures r == Ok(Metadata(None)) <==> key == MetadataKey && v == JNull
    ensures r.Ok? && r.value.Tensor? ==>
              && DecodeStringMap(v).None? && v != JNull
              && Descriptors.FromJson(v) == Ok(r.value.data)
    ensures r == Err(MetadataIncompleteBuffer) <==>
              key != MetadataKey && (DecodeStringMap(v).Some? || v == JNull)
    ensures r == Err(Trap) <==>
              DecodeStringMap(v).None? && v != JNull && Descriptors.FromJson(v) == Err(Trap)
    ensures r.Err? ==> r.error == MetadataIncompleteBuffer || r.error == Trap || r.error == DecodingError
  {
    if DecodeStringMap(v).Some? then
      if key == MetadataKey then Ok(Metadata(DecodeStringMap(v))) else Err(MetadataIncompleteBuffer)
    else if v == JNull then
      if key == MetadataKey then Ok(Metadata(None)) else Err(MetadataIncompleteBuffer)
    else
      match Descriptors.FromJson(v)
      case Ok(t) => Ok(Tensor(t))
      case Err(Trap) => Err(Trap)
      case Err(_) => Err(DecodingError)
  }

  /** The first revision's `init(from:)`: no key check and no `null`. */
  function ClassifyLegacy(v: JsonValue): (r: Result<HeaderElement, Error>)
    ensures r.Ok? && r.value.Metadata? ==>
              r.value.entries.Some? && DecodeStringMap(v) == r.value.entries
    ensures r.Ok? && r.value.Tensor? ==>
              DecodeStringMap(v).None? && Descriptors.FromJson(v) == Ok(r.value.data)
    ensures r.Err? ==> r.error == Trap || r.error == DecodingError
    ensures r == Err(DecodingError) <==>
              DecodeStringMap(v).None? && Descriptors.FromJson(v) == Err(DecodingError)
  {
    if DecodeStringMap(v).Some? then Ok(Metadata(DecodeStringMap(v)))
    else
      match Descriptors.FromJson(v)
      case Ok(t) => Ok(Tensor(t))
      case Err(Trap) => Err(Trap)
      case Err(_) => Err(DecodingError)
  }

  /** The second revision's `init(from:)`: like the first, but a
      descriptor's `dtype` must be one of the ten tags. */
  function ClassifyTyped(v: JsonValue): (r: Result<HeaderElement, Error>)
    ensures r.Ok? && r.value.Tensor? ==> FromRawValue(r.value.data.dtype).Some?
    ensures r.Ok? ==> ClassifyLegacy(v) == r
    ensures r.Err? ==> r.error == Trap || r.error == DecodingError
  {
    if DecodeStringMap(v).Some? then Ok(Metadata(DecodeStringMap(v)))
    else
      match Descriptors.FromJsonTyped(v)
      case Ok(t) => Ok(Tensor(t))
      case Err(Trap) => Err(Trap)
      case Err(_) => Err(DecodingError)
  }

  /** An element whose numbers fit in an `Int`. */
  predicate Fits(e: HeaderElement) {
    e.Tensor? ==> Descriptors.Fits(e.data)
  }

  /** May `e` be stored at `key` in the current revision? */
  predicate Admissible(key: string, e: HeaderElement) {
    Fits(e) && (e.Metadata? ==> key == MetadataKey)
  }

  /** Encoding an element and classifying it at the same key gives it back
      exactly when the element is admissible there. */
  lemma RoundTrip(key: string, e: HeaderElement)
    ensures Fits(e) ==> (Classify(key, ToJson(e)) == Ok(e) <==> Admissible(key, e))
  {
    match e
    case Metadata(None) =>
    case Metadata(Some(m)) => StringMapRoundTrip(m);
    case Tensor(t) =>
      Descriptors.NotAStringMap(t);
      if Fits(e) { Descriptors.RoundTrip(t); }
  }

  lemma RoundTripLegacy(e: HeaderElement)
    requires Fits(e) && e != Metadata(None)
    ensures ClassifyLegacy(ToJson(e)) == Ok(e)
  {
    match e
    case Metadata(Some(m)) => StringMapRoundTrip(m);
    case Tensor(t) => Descriptors.NotAStringMap(t); Descriptors.RoundTrip(t);
  }

  lemma RoundTripTyped(e: HeaderElement)
    requires Fits(e) && e != Metadata(None)
    requires e.Tensor? ==> FromRawValue(e.data.dtype).Some?
    ensures ClassifyTyped(ToJson(e)) == Ok(e)
  {
    match e
    case Metadata(Some(m)) => StringMapRoundTrip(m);
    case Tensor(t) => Descriptors.NotAStringMap(t); Descriptors.RoundTripTyped(t);
  }

  /** The accessors partition the elements: a descriptor answers only
      `tensorData`, present metadata only `metadata`, and `null` metadata
      neither. */
  lemma AccessorsPartition(e: HeaderElement)
    ensures TensorDataOf(e).Some? ==> MetadataOf(e).None?
    ensures TensorDataOf(e).None? && MetadataOf(e).None? <==> e == Metadata(None)
  {
  }

  /** Where the current revision departs from the first: at the reserved
      key it also accepts `null`; at any other key it rejects metadata and
      `null` instead of storing them; everywhere else the two agree. */
  lemma RevisionsAgreeElsewhere(key: string, v: JsonValue)
    ensures key == MetadataKey && v != JNull ==> Classify(key, v) == ClassifyLegacy(v)
    ensures DecodeStringMap(v).None? && v != JNull ==> Classify(key, v) == ClassifyLegacy(v)
    ensures key != MetadataKey && DecodeStringMap(v).Some? ==>
              ClassifyLegacy(v).Ok? && Classify(key, v) == Err(MetadataIncompleteBuffer)
    ensures ClassifyLegacy(JNull) == Err(DecodingError)
  {
  }

  /** The typed revision rejects exactly the descriptors whose tag is
      unknown, and otherwise agrees with the first revision. */
  lemma TypedAgreesWithLegacy(v: JsonValue)
    ensures ClassifyTyped(v) != ClassifyLegacy(v) <==>
              DecodeStringMap(v).None? && v.JObject? && Descriptors.DTypeKey in v.fields
              && v.fields[Descriptors.DTypeKey].JString?
              && FromRawValue(v.fields[Descriptors.DTypeKey].str).None?
              && Descriptors.FromJson(v) != Err(DecodingError)
  {
  }
}
