/** `ParsedSafetensors`: a decoded file, with its lookups and the reads
    that build an array for one tensor. */
module Containers {
  import opened Wrappers
  import opened Errors
  import opened Bytes
  import opened MLDataType
  import opened ArrayTables
  import opened OffsetRanges
  import opened HeaderElements
  import opened Headers
  import opened Shapes
  import Validation

  /** The three `let` fields; no operation changes them. `rawData` is the
      whole file, prefix and header included. */
  datatype Container = Container(headerOffset: int, header: Header, rawData: Bytes)

  /** `keys`: every key of the header, the reserved key included. */
  function Keys(c: Container): (r: set<string>)
    ensures forall k :: k in r <==> k in c.header
  {
    c.header.Keys
  }

  /** `metadata`: the map stored under the reserved key, if there is one. */
  function Metadata(c: Container): (r: Option<map<string, string>>)
    ensures r.Some? <==> MetadataKey in c.header && c.header[MetadataKey].Metadata?
                         && c.header[MetadataKey].entries.Some?
    ensures r.Some? ==> c.header[MetadataKey] == HeaderElements.Metadata(r)
    ensures r.None? <==> MetadataKey !in c.header || c.header[MetadataKey] == HeaderElements.Metadata(None)
                         || c.header[MetadataKey].Tensor?
  {
    if MetadataKey in c.header then MetadataOf(c.header[MetadataKey]) else None
  }

  /** `tensorData(forKey:)` of the current revision. */
  function TensorData(c: Container, key: string): (r: Result<Descriptors.TensorData, Error>)
    ensures r.Ok? <==> key in c.header && c.header[key].Tensor?
    ensures r.Ok? ==> c.header[key] == Tensor(r.value)
    ensures r.Err? ==> r.error == MissingTensorDataForKey(key)
  {
    if key in c.header && TensorDataOf(c.header[key]).Some? then Ok(c.header[key].data)
    else Err(MissingTensorDataForKey(key))
  }

  /** `tensorData(forKey:)` of the older revisions, whose error carries no key. */
  function TensorDataLegacy(c: Container, key: string): (r: Result<Descriptors.TensorData, Error>)
    ensures r.Ok? <==> key in c.header && c.header[key].Tensor?
    ensures r.Ok? ==> c.header[key] == Tensor(r.value)
    ensures r.Err? ==> r.error == MissingTensorData
  {
    if key in c.header && TensorDataOf(c.header[key]).Some? then Ok(c.header[key].data)
    else Err(MissingTensorData)
  }

  function Lookup(c: Container, key: string, legacy: bool): Result<Descriptors.TensorData, Error> {
    if legacy then TensorDataLegacy(c, key) else TensorData(c, key)
  }

  /** The two lookups find the same descriptors and differ only in their error. */
  lemma LookupsAgree(c: Container, key: string)
    ensures TensorData(c, key).Ok? <==> TensorDataLegacy(c, key).Ok?
    ensures TensorData(c, key).Ok? ==> TensorData(c, key) == TensorDataLegacy(c, key)
  {
  }

  /** A tensor's bytes inside the whole buffer. */
  datatype Slice = Slice(startIndex: int, endIndex: int, count: int)

  /** `startIndex = start + headerOffset`, `endIndex = end + headerOffset`,
      `count = endIndex - startIndex`, each a Swift `Int` operation that
      traps on overflow. */
  function AbsoluteSlice(r: OffsetRange, headerOffset: int): (s: Result<Slice, Error>)
    ensures s.Ok? <==> IsInt(r.start + headerOffset) && IsInt(r.end + headerOffset) && IsInt(r.end - r.start)
    ensures s.Ok? ==> s.value.endIndex - s.value.startIndex == s.value.count == r.end - r.start
    ensures s.Ok? ==> s.value.startIndex - headerOffset == r.start
    ensures s.Err? ==> s.error == Trap
  {
    if !IsInt(r.start + headerOffset) || !IsInt(r.end + headerOffset) then Err(Trap)
    else if !IsInt((r.end + headerOffset) - (r.start + headerOffset)) then Err(Trap)
    else Ok(Slice(r.start + headerOffset, r.end + headerOffset, (r.end + headerOffset) - (r.start + headerOffset)))
  }

  /** Reading `count` bytes at `startIndex` of the buffer. A read outside the
      buffer is undefined behaviour in the source; here it is a trap. */
  function ReadSlice(data: Bytes, s: Slice): (r: Result<Bytes, Error>)
    ensures r.Ok? <==> 0 <= s.startIndex <= s.endIndex <= |data|
    ensures r.Ok? ==>
      && |r.value| == s.endIndex - s.startIndex
      && forall i :: 0 <= i < |r.value| ==> r.value[i] == data[s.startIndex + i]
    ensures r.Err? ==> r.error == Trap
  {
    if 0 <= s.startIndex <= s.endIndex <= |data| then Ok(data[s.startIndex..s.endIndex]) else Err(Trap)
  }

  /** The bytes of the tensor at `key`: lookup, slice, read. */
  function TensorBytes(c: Container, key: string, legacy: bool): Result<Bytes, Error> {
    var td :- Lookup(c, key, legacy);
    var s :- AbsoluteSlice(td.dataOffsets, c.headerOffset);
    ReadSlice(c.rawData, s)
  }

  /** A lookup failure is reported before the buffer is touched. */
  lemma LookupErrorFirst(c: Container, key: string, legacy: bool)
    requires Lookup(c, key, legacy).Err?
    ensures TensorBytes(c, key, legacy) == Err(if legacy then MissingTensorData else MissingTensorDataForKey(key))
  {
  }

  /** The array built for a tensor: its data type, shape, strides (none for
      a shaped array) and bytes. */
  datatype ArrayValue =
    | MultiArray(dataType: ArrayDataType, shape: seq<int>, strides: seq<int>, bytes: Bytes)
    | ShapedArray(dataType: ArrayDataType, shape: seq<int>, bytes: Bytes)

  /** The stride loop of `mlMultiArray`: walk the shape from the last
      dimension, append the running product, multiply it by the dimension
      (a trapping `*=`), then reverse the list. */
  method RowMajorStrides(shape: seq<int>) returns (r: Result<seq<int>, Error>)
    ensures r.Ok? <==> StridesFit(shape)
    ensures r.Ok? ==> r.value == Strides(shape)
    ensures r.Err? ==> r.error == Trap
  {
    var strides: seq<int> := [];
    var stride := 1;
    var j := |shape|;
    assert shape[|shape|..] == [];
    while j > 0
      invariant 0 <= j <= |shape|
      invariant LoopState(shape, j, strides, stride)
      invariant FitsFrom(shape, j)
    {
      var next := shape[j - 1] * stride;
      StrideStep(shape, j, strides, stride);
      strides := strides + [stride];
      if !IsInt(next) {
        return Err(Trap);
      }
      stride := next;
      j := j - 1;
    }
    FitsFromAll(shape, 0);
    ReversedSuffixProducts(shape, strides);
    return Ok(Reverse(strides));
  }

  /** Every suffix product from index `j` on is an `Int`. */
  ghost predicate FitsFrom(shape: seq<int>, j: nat)
    requires j <= |shape|
    decreases |shape| - j
  {
    IsInt(Product(shape[j..])) && (j < |shape| ==> FitsFrom(shape, j + 1))
  }

  lemma {:induction false} FitsFromAll(shape: seq<int>, j: nat)
    requires j <= |shape| && FitsFrom(shape, j)
    ensures forall i :: j <= i <= |shape| ==> IsInt(Product(shape[i..]))
    decreases |shape| - j
  {
    if j < |shape| {
      FitsFromAll(shape, j + 1);
    }
  }

  /** What the stride loop has built after visiting the dimensions from
      index `j` on. */
  ghost predicate LoopState(shape: seq<int>, j: nat, strides: seq<int>, stride: int)
    requires j <= |shape|
  {
    && stride == Product(shape[j..])
    && |strides| == |shape| - j
    && forall m :: 0 <= m < |strides| ==> strides[m] == Product(shape[|shape| - m..])
  }

  lemma StrideStep(shape: seq<int>, j: nat, strides: seq<int>, stride: int)
    requires 0 < j <= |shape| && LoopState(shape, j, strides, stride)
    ensures LoopState(shape, j - 1, strides + [stride], shape[j - 1] * stride)
    ensures shape[j - 1] * stride == Product(shape[j - 1..])
  {
    ProductStep(shape, j - 1);
  }

  /** The loop's list, suffix products from the last dimension on, reversed
      is the row-major strides. */
  lemma ReversedSuffixProducts(shape: seq<int>, strides: seq<int>)
    requires |strides| == |shape|
    requires forall m :: 0 <= m < |strides| ==> strides[m] == Product(shape[|shape| - m..])
    ensures Reverse(strides) == Strides(shape)
  {
    var reversed := Reverse(strides);
    forall i | 0 <= i < |shape| ensures reversed[i] == Strides(shape)[i] {
      var m := |shape| - 1 - i;
      assert reversed[i] == strides[m];
      assert strides[m] == Product(shape[|shape| - m..]);
      assert |shape| - m == i + 1;
    }
  }

  /** `mlMultiArray(forKey:)`. `legacy` selects the older revisions'
      lookup error (Safetensors.swift, Structs/ParsedTensors.swift); the data
      type comes from the tag table, which for a valid tag is also the
      `DType` table of the second revision. */
  method MultiArrayFor(c: Container, key: string, legacy: bool, float16Compiled: bool)
    returns (r: Result<ArrayValue, Error>)
    ensures Lookup(c, key, legacy).Err? ==> r == Err(Lookup(c, key, legacy).error)
    ensures Lookup(c, key, legacy).Ok?
         && ArrayTypeFromTag(Lookup(c, key, legacy).value.dtype, float16Compiled).Err?
         ==> r == Err(ArrayTypeFromTag(Lookup(c, key, legacy).value.dtype, float16Compiled).error)
    ensures r.Ok? <==>
      && Lookup(c, key, legacy).Ok?
      && ArrayTypeFromTag(Lookup(c, key, legacy).value.dtype, float16Compiled).Ok?
      && TensorBytes(c, key, legacy).Ok?
      && StridesFit(Lookup(c, key, legacy).value.shape)
    ensures r.Ok? ==>
      var td := Lookup(c, key, legacy).value;
      r.value == MultiArray(ArrayTypeFromTag(td.dtype, float16Compiled).value, td.shape,
                            Strides(td.shape), TensorBytes(c, key, legacy).value)
    ensures r.Err? && Lookup(c, key, legacy).Ok?
         && ArrayTypeFromTag(Lookup(c, key, legacy).value.dtype, float16Compiled).Ok?
         ==> r.error == Trap
  {
    var lookup := Lookup(c, key, legacy);
    if lookup.Err? {
      return Err(lookup.error);
    }
    var td := lookup.value;
    var dataType := ArrayTypeFromTag(td.dtype, float16Compiled);
    if dataType.Err? {
      return Err(dataType.error);
    }
    var slice := AbsoluteSlice(td.dataOffsets, c.headerOffset);
    if slice.Err? {
      return Err(slice.error);
    }
    var strides := RowMajorStrides(td.shape);
    if strides.Err? {
      return Err(strides.error);
    }
    var bytes := ReadSlice(c.rawData, slice.value);
    if bytes.Err? {
      return Err(bytes.error);
    }
    return Ok(MultiArray(dataType.value, td.shape, strides.value, bytes.value));
  }

  /** `mlShapedArray(forKey:)` for a requested scalar type: an unsupported
      stored tag throws first, then a tag of another type throws
      `dataTypeMismatch`, and only then is the buffer read. */
  function ShapedArrayFor(c: Container, key: string, scalarType: ArrayDataType, float16Compiled: bool)
    : (r: Result<ArrayValue, Error>)
    ensures TensorData(c, key).Err? ==> r == Err(MissingTensorDataForKey(key))
    ensures r == Err(DataTypeMismatch) <==>
      && TensorData(c, key).Ok?
      && ArrayTypeFromTag(TensorData(c, key).value.dtype, float16Compiled).Ok?
      && ArrayTypeFromTag(TensorData(c, key).value.dtype, float16Compiled).value != scalarType
    ensures TensorData(c, key).Ok? && ArrayTypeFromTag(TensorData(c, key).value.dtype, float16Compiled).Err? ==>
      r == Err(ArrayTypeFromTag(TensorData(c, key).value.dtype, float16Compiled).error)
    ensures r.Ok? <==>
      && TensorData(c, key).Ok?
      && ArrayTypeFromTag(TensorData(c, key).value.dtype, float16Compiled) == Ok(scalarType)
      && TensorBytes(c, key, false).Ok?
    ensures r.Ok? ==>
      r.value == ShapedArray(scalarType, TensorData(c, key).value.shape, TensorBytes(c, key, false).value)
    ensures r.Err? && TensorData(c, key).Ok?
         && ArrayTypeFromTag(TensorData(c, key).value.dtype, float16Compiled) == Ok(scalarType)
         ==> r.error == Trap
  {
    var td :- TensorData(c, key);
    var dataType :- ArrayTypeFromTag(td.dtype, float16Compiled);
    if dataType != scalarType then Err(DataTypeMismatch)
    else
      var s :- AbsoluteSlice(td.dataOffsets, c.headerOffset);
      var bytes :- ReadSlice(c.rawData, s);
      Ok(ShapedArray(dataType, td.shape, bytes))
  }

  /** After the corrected `validate`, a tensor with a supported tag is read
      as a shaped array of exactly its stored type, holding its range of the
      data segment, and every other scalar type is a `dataTypeMismatch`. */
  lemma ValidatedShapedArray(c: Container, key: string, float16Compiled: bool)
    requires 0 <= c.headerOffset <= |c.rawData| <= IntMax
    requires Validation.Validate(c.header, |c.rawData| - c.headerOffset).Ok?
    requires key in c.header && c.header[key].Tensor?
    requires ArrayTypeFromTag(c.header[key].data.dtype, float16Compiled).Ok?
    ensures var r := c.header[key].data.dataOffsets;
      0 <= r.start <= r.end <= |c.rawData| - c.headerOffset
    ensures var td := c.header[key].data;
      var t := ArrayTypeFromTag(td.dtype, float16Compiled).value;
      ShapedArrayFor(c, key, t, float16Compiled) ==
        Ok(ShapedArray(t, td.shape, c.rawData[c.headerOffset + td.dataOffsets.start..c.headerOffset + td.dataOffsets.end]))
    ensures forall u :: u != ArrayTypeFromTag(c.header[key].data.dtype, float16Compiled).value ==>
      ShapedArrayFor(c, key, u, float16Compiled) == Err(DataTypeMismatch)
  {
    ValidatedSlicesInBounds(c, key, false);
  }

  /** After the corrected `validate`, with the header ending at
      `headerOffset`, every tensor's bytes lie inside the buffer: the slice
      does not overflow and reads exactly the tensor's range of the data
      segment. The buffer's count is a Swift `Int`. */
  lemma ValidatedSlicesInBounds(c: Container, key: string, legacy: bool)
    requires 0 <= c.headerOffset <= |c.rawData| <= IntMax
    requires Validation.Validate(c.header, |c.rawData| - c.headerOffset).Ok?
    requires key in c.header && c.header[key].Tensor?
    ensures var r := c.header[key].data.dataOffsets;
      0 <= r.start <= r.end <= |c.rawData| - c.headerOffset
    ensures var r := c.header[key].data.dataOffsets;
      TensorBytes(c, key, legacy) == Ok(c.rawData[c.headerOffset + r.start..c.headerOffset + r.end])
  {
    Validation.ValidBounds(c.header, |c.rawData| - c.headerOffset, key);
  }
}
