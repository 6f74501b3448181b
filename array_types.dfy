/** The tables between the format's tags and the host array's data types.
    `float16Compiled` stands for the compile-time condition under which the
    source includes its Float16 cases (every target except Intel macOS). */
module ArrayTables {
  import opened Wrappers
  import opened Errors
  import opened DTypes
  import opened MLDataType

  /** The byte width of one scalar of an array data type. */
  function ScalarSize(t: ArrayDataType, float16Compiled: bool): Result<int, Error> {
    match t
    case MLFloat64 => Ok(8)
    case MLFloat32 => Ok(4)
    case MLInt32 => Ok(4)
    case MLFloat16 => if float16Compiled then Ok(2) else Err(UnsupportedArrayDataType(t))
    case MLInt8 => Err(UnsupportedArrayDataType(t))
  }

  /** The `dtype()` of a multi-array or shaped array: the header tag of its data type. */
  function DTypeString(t: ArrayDataType): Result<string, Error> {
    match t
    case MLFloat64 => Ok(DataTypeFloat64)
    case MLFloat32 => Ok(DataTypeFloat32)
    case MLFloat16 => Ok(DataTypeFloat16)
    case MLInt32 => Ok(DataTypeInt32)
    case MLInt8 => Err(UnsupportedArrayDataType(t))
  }

  /** `DType(mlMultiArrayDataType:)`. */
  function DTypeOf(t: ArrayDataType, float16Compiled: bool): Result<DType, Error> {
    match t
    case MLFloat64 => Ok(Float64)
    case MLFloat32 => Ok(Float32)
    case MLInt32 => Ok(Int32)
    case MLFloat16 => if float16Compiled then Ok(Float16) else Err(UnsupportedArrayDataType(t))
    case MLInt8 => Err(UnsupportedArrayDataType(t))
  }

  /** `DType.mlMultiArrayDataType`. */
  function ArrayFromDType(d: DType, float16Compiled: bool): Result<ArrayDataType, Error> {
    match d
    case Float64 => Ok(MLFloat64)
    case Float32 => Ok(MLFloat32)
    case Int32 => Ok(MLInt32)
    case Float16 => if float16Compiled then Ok(MLFloat16) else Err(UnsupportedDataType(RawValue(d)))
    case _ => Err(UnsupportedDataType(RawValue(d)))
  }

  /** `toMLMultiArrayDataType(from:)`: the array data type for a header tag. */
  function ArrayTypeFromTag(tag: string, float16Compiled: bool): Result<ArrayDataType, Error> {
    if tag == DataTypeFloat64 then Ok(MLFloat64)
    else if tag == DataTypeFloat32 then Ok(MLFloat32)
    else if tag == DataTypeFloat16 then
      (if float16Compiled then Ok(MLFloat16) else Err(UnsupportedDataType(tag)))
    else if tag == DataTypeInt32 then Ok(MLInt32)
    else Err(UnsupportedDataType(tag))
  }

  /** Exactly F64, F32 and I32, and F16 where compiled, have an array data type. */
  lemma ArrayFromDTypeDomain(d: DType, float16Compiled: bool)
    ensures ArrayFromDType(d, float16Compiled).Ok?
        <==> d == Float64 || d == Float32 || d == Int32 || (float16Compiled && d == Float16)
    ensures ArrayFromDType(d, float16Compiled).Err?
        ==> ArrayFromDType(d, float16Compiled).error == UnsupportedDataType(RawValue(d))
  {
  }

  /** The two maps of DType+MLMultiArrayDataType.swift invert each other
      wherever they succeed. */
  lemma DTypeArrayRoundTrip(d: DType, t: ArrayDataType, float16Compiled: bool)
    ensures ArrayFromDType(d, float16Compiled).Ok?
        ==> DTypeOf(ArrayFromDType(d, float16Compiled).value, float16Compiled) == Ok(d)
    ensures DTypeOf(t, float16Compiled).Ok?
        ==> ArrayFromDType(DTypeOf(t, float16Compiled).value, float16Compiled) == Ok(t)
  {
  }

  /** `toMLMultiArrayDataType(from: dtype())` gives back the original data
      type for every type with a tag (F16 only where compiled). */
  lemma TagRoundTrip(t: ArrayDataType, float16Compiled: bool)
    ensures DTypeString(t).Ok? && (t == MLFloat16 ==> float16Compiled)
        ==> ArrayTypeFromTag(DTypeString(t).value, float16Compiled) == Ok(t)
    ensures DTypeString(t).Ok? <==> t != MLInt8
  {
  }

  /** The string-keyed table of Utils.swift is the DType-keyed table of
      DType+MLMultiArrayDataType.swift applied to the parsed tag, with the
      same error for tags that are not DTypes. */
  lemma TagTableAgreesWithDTypeTable(tag: string, float16Compiled: bool)
    ensures ArrayTypeFromTag(tag, float16Compiled)
         == match FromRawValue(tag)
            case Some(d) => ArrayFromDType(d, float16Compiled)
            case None => Err(UnsupportedDataType(tag))
  {
  }

  /** The string-valued `dtype()` of the adapters and the DType-valued
      `dtype` of the extension agree, except that the former names F16 even
      where Float16 is not compiled. */
  lemma DTypeStringAgreesWithDTypeOf(t: ArrayDataType, float16Compiled: bool)
    ensures DTypeOf(t, float16Compiled).Ok?
        ==> DTypeString(t) == Ok(RawValue(DTypeOf(t, float16Compiled).value))
    ensures DTypeOf(t, float16Compiled).Err? && DTypeString(t).Ok?
        <==> t == MLFloat16 && !float16Compiled
  {
  }

  /** A data type has a scalar width exactly when it has a DType, and the
      widths are those of Float64, Float32, Float16 and Int32. */
  lemma ScalarSizeWidths(t: ArrayDataType, float16Compiled: bool)
    ensures ScalarSize(t, float16Compiled).Ok? <==> DTypeOf(t, float16Compiled).Ok?
    ensures ScalarSize(t, float16Compiled).Ok? ==>
      ScalarSize(t, float16Compiled).value ==
        match t
        case MLFloat64 => 8
        case MLFloat16 => 2
        case _ => 4
  {
  }
}
