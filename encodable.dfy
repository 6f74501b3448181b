/** `SafetensorsEncodable`: what the encoder asks of a tensor. Each
    requirement that may throw is recorded as its observed outcome. */
module Encodables {
  import opened Wrappers
  import opened Errors
  import opened Bytes
  import opened MLDataType
  import opened DTypes
  import opened ArrayTables
  import opened OffsetRanges
  import opened Shapes
  import Descriptors

  /** `scalarCount`, `tensorShape`, and the outcomes of `dtype()`,
      `scalarSize()` and `toData()`. The second revision's `dtype` is a
      `DType`; here it is its tag. */
  datatype Encodable = Encodable(
    scalarCount: int,
    tensorShape: seq<int>,
    dtype: Result<string, Error>,
    scalarSize: Result<int, Error>,
    data: Result<Bytes, Error>)

  /** `byteCount = scalarSize * scalarCount`, a trapping multiplication. */
  function ByteCount(e: Encodable): (r: Result<int, Error>)
    ensures e.scalarSize.Err? ==> r == Err(e.scalarSize.error)
    ensures e.scalarSize.Ok? ==>
      if IsInt(e.scalarSize.value * e.scalarCount) then r == Ok(e.scalarSize.value * e.scalarCount)
      else r == Err(Trap)
  {
    var size :- e.scalarSize;
    if IsInt(size * e.scalarCount) then Ok(size * e.scalarCount) else Err(Trap)
  }

  /** `tensorData(at:)`: `dtype` is evaluated first, then `byteCount`, then
      the trapping `offset + byteCount`. */
  function TensorDataAt(e: Encodable, offset: int): (r: Result<Descriptors.TensorData, Error>)
    ensures e.dtype.Err? ==> r == Err(e.dtype.error)
    ensures e.dtype.Ok? && ByteCount(e).Err? ==> r == Err(ByteCount(e).error)
    ensures r.Ok? <==> e.dtype.Ok? && ByteCount(e).Ok? && IsInt(offset + ByteCount(e).value)
    ensures r.Ok? ==>
      && r.value.dtype == e.dtype.value
      && r.value.shape == e.tensorShape
      && r.value.dataOffsets.start == offset
      && r.value.dataOffsets.end - r.value.dataOffsets.start == ByteCount(e).value
  {
    var dtype :- e.dtype;
    var count :- ByteCount(e);
    if IsInt(offset + count) then
      Ok(Descriptors.TensorData(dtype, e.tensorShape, OffsetRange(offset, offset + count)))
    else Err(Trap)
  }

  /** With the default offset 0 the range is `OffsetRange(end:)` of the
      byte count. */
  lemma TensorDataAtDefault(e: Encodable)
    requires TensorDataAt(e, 0).Ok?
    ensures TensorDataAt(e, 0).value.dataOffsets == EndingAt(ByteCount(e).value)
  {
  }

  /** A tensor for which every requirement succeeds. */
  predicate Encodes(e: Encodable) {
    e.dtype.Ok? && ByteCount(e).Ok? && e.data.Ok?
  }

  /** An `MLMultiArray` or `MLShapedArray` of the given shape and data type
      (Backend/, MLMultiArray.swift): the scalar count is the product of the
      shape, the tag and width come from the tables. */
  function ArrayEncodable(shape: seq<int>, t: ArrayDataType, float16Compiled: bool, bytes: Result<Bytes, Error>)
    : (e: Encodable)
    ensures e.scalarCount == Product(shape) && e.tensorShape == shape
    ensures e.dtype == DTypeString(t) && e.scalarSize == ScalarSize(t, float16Compiled)
    ensures e.data == bytes
  {
    Encodable(Product(shape), shape, DTypeString(t), ScalarSize(t, float16Compiled), bytes)
  }

  /** The second revision's `MLMultiArray` conformance, whose `dtype` is
      `DType(mlMultiArrayDataType:)`. */
  function TypedArrayEncodable(shape: seq<int>, t: ArrayDataType, float16Compiled: bool, bytes: Result<Bytes, Error>)
    : (e: Encodable)
    ensures e.scalarCount == Product(shape) && e.tensorShape == shape
    ensures e.dtype.Ok? ==> FromRawValue(e.dtype.value).Some?
    ensures e.scalarSize == ScalarSize(t, float16Compiled)
    ensures e.data == bytes
  {
    var dtype := match DTypeOf(t, float16Compiled)
      case Ok(d) => Ok(RawValue(d))
      case Err(err) => Err(err);
    Encodable(Product(shape), shape, dtype, ScalarSize(t, float16Compiled), bytes)
  }

  /** An array's byte count is the width of its data type times the number
      of its scalars; types without a tag have no byte count. */
  lemma ArrayByteCount(shape: seq<int>, t: ArrayDataType, float16Compiled: bool, bytes: Result<Bytes, Error>)
    requires IsInt(8 * Product(shape))
    ensures var e := ArrayEncodable(shape, t, float16Compiled, bytes);
      && (ByteCount(e).Ok? <==> t != MLInt8 && (t == MLFloat16 ==> float16Compiled))
      && (ByteCount(e).Ok? ==>
            ByteCount(e).value == (match t case MLFloat64 => 8 case MLFloat16 => 2 case _ => 4) * Product(shape))
  {
    var n := Product(shape);
    if n >= 0 {
      assert 0 <= 2 * n <= 4 * n <= 8 * n;
    } else {
      assert 8 * n <= 4 * n <= 2 * n <= 0;
    }
  }

  /** The two conformances agree wherever the typed one has a tag. */
  lemma ConformancesAgree(shape: seq<int>, t: ArrayDataType, float16Compiled: bool, bytes: Result<Bytes, Error>)
    ensures TypedArrayEncodable(shape, t, float16Compiled, bytes).dtype.Ok? ==>
      TypedArrayEncodable(shape, t, float16Compiled, bytes) == ArrayEncodable(shape, t, float16Compiled, bytes)
  {
    DTypeStringAgreesWithDTypeOf(t, float16Compiled);
  }
}
