/** The ten scalar tags of the format (`DType`) and the string constants
    the other revisions use for them. */
module DTypes {
  import opened Wrappers

  datatype DType = Float64 | Float32 | Float16 | Int32 | UInt32 | Int16 | UInt16 | Int8 | UInt8 | Bool

  /** The `rawValue` of each case, the tag written in a header's `dtype` field. */
  function RawValue(d: DType): string {
    match d
    case Float64 => "F64"
    case Float32 => "F32"
    case Float16 => "F16"
    case Int32 => "I32"
    case UInt32 => "U32"
    case Int16 => "I16"
    case UInt16 => "U16"
    case Int8 => "I8"
    case UInt8 => "U8"
    case Bool => "BOOL"
  }

  /** `DType(rawValue:)`: the case whose tag is `s`, if any. */
  function FromRawValue(s: string): (r: Option<DType>)
    ensures r.Some? ==> RawValue(r.value) == s
  {
    match s
    case "F64" => Some(Float64)
    case "F32" => Some(Float32)
    case "F16" => Some(Float16)
    case "I32" => Some(Int32)
    case "U32" => Some(UInt32)
    case "I16" => Some(Int16)
    case "U16" => Some(UInt16)
    case "I8" => Some(Int8)
    case "U8" => Some(UInt8)
    case "BOOL" => Some(Bool)
    case _ => None
  }

  /** Every tag, once. */
  const AllDTypes: seq<DType> :=
    [Float64, Float32, Float16, Int32, UInt32, Int16, UInt16, Int8, UInt8, Bool]

  /** `Constants.DataType`: the same tags as plain strings. */
  const DataTypeFloat64: string := "F64"
  const DataTypeFloat32: string := "F32"
  const DataTypeFloat16: string := "F16"
  const DataTypeInt32: string := "I32"
  const DataTypeUInt32: string := "U32"
  const DataTypeInt16: string := "I16"
  const DataTypeUInt16: string := "U16"
  const DataTypeInt8: string := "I8"
  const DataTypeUInt8: string := "U8"
  const DataTypeBool: string := "BOOL"

  /** There are exactly ten tags. */
  lemma ExactlyTenTags(d: DType)
    ensures |AllDTypes| == 10
    ensures d in AllDTypes
    ensures forall i, j :: 0 <= i < j < |AllDTypes| ==> AllDTypes[i] != AllDTypes[j]
  {
  }

  /** `init(rawValue:)` inverts `rawValue`. */
  lemma RawValueRoundTrip(d: DType)
    ensures FromRawValue(RawValue(d)) == Some(d)
  {
  }

  /** The raw strings are pairwise distinct. */
  lemma RawValueInjective(d: DType, e: DType)
    ensures RawValue(d) == RawValue(e) ==> d == e
  {
    RawValueRoundTrip(d);
    RawValueRoundTrip(e);
  }

  /** A string that is no tag is rejected. */
  lemma FromRawValueRejects(s: string)
    ensures (forall d :: RawValue(d) != s) <==> FromRawValue(s) == None
  {
    if FromRawValue(s).Some? {
      assert RawValue(FromRawValue(s).value) == s;
    } else {
      forall d ensures RawValue(d) != s {
        RawValueRoundTrip(d);
      }
    }
  }

  /** The enum's raw strings are the strings of `Constants.DataType`. */
  lemma RawValuesAreConstants()
    ensures RawValue(Float64) == DataTypeFloat64 && RawValue(Float32) == DataTypeFloat32
    ensures RawValue(Float16) == DataTypeFloat16 && RawValue(Int32) == DataTypeInt32
    ensures RawValue(UInt32) == DataTypeUInt32 && RawValue(Int16) == DataTypeInt16
    ensures RawValue(UInt16) == DataTypeUInt16 && RawValue(Int8) == DataTypeInt8
    ensures RawValue(UInt8) == DataTypeUInt8 && RawValue(Bool) == DataTypeBool
  {
  }
}
