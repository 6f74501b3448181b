/** `TensorData`: one tensor's descriptor in the header. */
module Descriptors {
  import opened Wrappers
  import opened Errors
  import opened Json
  import opened DTypes
  import opened OffsetRanges

  /** The descriptor as TensorData.swift has it. The second revision's
      descriptor (Structs/TensorData.swift) holds a `DType` instead of a
      string; it is this datatype with a `dtype` that `FromRawValue` accepts. */
  datatype TensorData = TensorData(dtype: string, shape: seq<int>, dataOffsets: OffsetRange)

  /** The header's field names (after the snake-case key conversion). */
  const DTypeKey: string := "dtype"
  const ShapeKey: string := "shape"
  const DataOffsetsKey: string := "data_offsets"

  /** The synthesized `encode(to:)`. */
  function ToJson(t: TensorData): (v: JsonValue)
    ensures v.JObject? && v.fields.Keys == {DTypeKey, ShapeKey, DataOffsetsKey}
  {
    JObject(map[DTypeKey := JString(t.dtype),
                ShapeKey := EncodeIntArray(t.shape),
                DataOffsetsKey := OffsetRanges.ToJson(t.dataOffsets)])
  }

  /** The synthesized `init(from:)`, which decodes `dtype`, `shape` and
      `dataOffsets` in that order; other fields are ignored. */
  function FromJson(v: JsonValue): (r: Result<TensorData, Error>)
    ensures r.Ok? ==>
      && v.JObject?
      && DTypeKey in v.fields && v.fields[DTypeKey] == JString(r.value.dtype)
      && ShapeKey in v.fields && DecodeIntArray(v.fields[ShapeKey]) == Some(r.value.shape)
      && DataOffsetsKey in v.fields
      && OffsetRanges.FromJson(v.fields[DataOffsetsKey]) == Ok(r.value.dataOffsets)
    ensures r.Err? ==> r.error == Trap || r.error == DecodingError
    ensures r == Err(Trap) ==>
      && v.JObject? && DataOffsetsKey in v.fields
      && OffsetRanges.FromJson(v.fields[DataOffsetsKey]) == Err(Trap)
  {
    if !v.JObject? then Err(DecodingError)
    else if DTypeKey !in v.fields || !v.fields[DTypeKey].JString? then Err(DecodingError)
    else if ShapeKey !in v.fields || DecodeIntArray(v.fields[ShapeKey]).None? then Err(DecodingError)
    else if DataOffsetsKey !in v.fields then Err(DecodingError)
    else
      match OffsetRanges.FromJson(v.fields[DataOffsetsKey])
      case Err(e) => Err(e)
      case Ok(r) => Ok(TensorData(v.fields[DTypeKey].str, DecodeIntArray(v.fields[ShapeKey]).value, r))
  }

  /** The second revision's decoder: `dtype` must be one of the ten tags,
      and an unknown tag throws before `shape` and `dataOffsets` are read. */
  function FromJsonTyped(v: JsonValue): (r: Result<TensorData, Error>)
    ensures r.Ok? ==> FromRawValue(r.value.dtype).Some? && FromJson(v) == r
    ensures FromJson(v).Ok? && FromRawValue(FromJson(v).value.dtype).Some? ==> r == FromJson(v)
  {
    if v.JObject? && DTypeKey in v.fields && v.fields[DTypeKey].JString?
       && FromRawValue(v.fields[DTypeKey].str).None?
    then Err(DecodingError)
    else FromJson(v)
  }

  /** Every number in the descriptor fits in a Swift `Int`. */
  predicate Fits(t: TensorData) {
    AllInts(t.shape) && OffsetRanges.Fits(t.dataOffsets)
  }

  lemma RoundTrip(t: TensorData)
    requires Fits(t)
    ensures FromJson(ToJson(t)) == Ok(t)
  {
    IntArrayRoundTrip(t.shape);
    OffsetRanges.RoundTrip(t.dataOffsets);
  }

  lemma RoundTripTyped(t: TensorData)
    requires Fits(t) && FromRawValue(t.dtype).Some?
    ensures FromJsonTyped(ToJson(t)) == Ok(t)
  {
    RoundTrip(t);
  }

  /** An encoded descriptor is never string-to-string shaped: its `shape`
      is an array. */
  lemma NotAStringMap(t: TensorData)
    ensures DecodeStringMap(ToJson(t)).None?
  {
    assert !ToJson(t).fields[ShapeKey].JString?;
  }
}
