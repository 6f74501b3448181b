# safetensors codec, modelled in Dafny

This project models the container codec of `swift-safetensors` and proves
properties of the model. A safetensors file has three parts, in order:

- an 8-byte little-endian count `N`;
- `N` bytes of JSON header, which maps tensor names to descriptors
  (`dtype`, `shape`, `data_offsets`) and may hold a string map under the
  reserved key `__metadata__`;
- the data segment, in which each descriptor's `[start, end)` names that
  tensor's bytes.

The model covers the following:

- `decode` and `validate`, and `encode` as a loop with its invariant.
- The second revision's `HeaderDecoder` and `HeaderEncoder`.
- The three revisions of `HeaderElement` classification. The current
  revision has the reserved-key check, the first has none, and the second
  uses the typed descriptor.
- `OffsetRange`, the `DType` tag table and the array data-type tables.
- `byteCount`, `tensorData(at:)` and the container lookups.
- The stride loop of `mlMultiArray` and the slice bounds.
- The sharded index's lookup, and `zfill`.

The headline results:

- Under the corrected check, `decode(encode(T, M))` gives back the header,
  the metadata and every tensor's bytes (`RoundTrip.DecodeEncode`,
  `RoundTrip.DecodeEncodeMetadata` and `RoundTrip.DecodeEncodeBytes`).
- Under the corrected check, every accepted container keeps each tensor
  inside the data segment (`Framing.DecodedSlicesInBounds`). `decode` as
  written does not: it accepts a tensor that runs past the data and one with
  a negative length (`Framing.DecodeAsWrittenAcceptsReversedRange`).
- Every byte of an accepted data segment belongs to exactly one tensor
  (`Validation.ValidCovers` and `Validation.ValidDisjoint`).
- Two places where `validate` as written departs from that promise are
  recorded under "Findings".

Modules follow the source:

| module | what it models |
|---|---|
| `Bytes` | the length prefix |
| `DTypes` and `ArrayTables` | the tag and width tables |
| `Json` | parsed JSON values |
| `OffsetRanges` | `OffsetRange` |
| `Descriptors` | `TensorData` |
| `HeaderElements` | `HeaderElement` |
| `Headers` | the header dictionary |
| `Validation` | `validate` |
| `Containers` | `ParsedSafetensors` |
| `Encodables` | `SafetensorsEncodable` |
| `Encoder` | `encode` |
| `Framing` | `decode`, `HeaderDecoder` and `HeaderEncoder` |
| `RoundTrip` | the encode/decode round trip |
| `Index` | `ParsedSafetensorsIndex` |
| `ZFill` | `String.zfill` |

Conventions:

- **Errors.** Thrown errors are `Err` values of a `Result`. A Swift runtime
  trap is the error `Trap`, because the process stops instead of throwing.
  Traps include a failed `precondition`, an `Int` overflow and a `Range`
  with its bounds reversed.
- **Integers.** Swift's `Int` is 64 bits wide. The model checks every
  arithmetic step of the source that can overflow (`IsInt`).
- **Supplied from outside.** Whatever the code takes from Foundation, CoreML
  or the platform is a parameter of the model:
  - the JSON reader and writer (`JsonReader`, `JsonWriter`);
  - the file system (`FileSystem`);
  - whether Float16 is compiled in (`float16Compiled`);
  - the order in which a dictionary is visited: a sequence of pairs for
    `encode`, and any listing of the keys for `validate`.

## Model

| member | source | states |
|---|---|---|
| Bytes.LoadU64 | Sources/Safetensors/Safetensors.swift:219-221 | the count is read from the first 8 bytes as an unsigned little-endian value below 2^64 |
| Bytes.StoreU64 | Sources/Safetensors/Safetensors.swift:284 | the written count is exactly 8 bytes long |
| Bytes.LoadStoreU64 | Sources/Safetensors/Utils/HeaderEncoder.swift:20 | reading back the prefix written for `n` gives `n` |
| Bytes.StoreLoadU64 | Sources/Safetensors/Utils/HeaderDecoder.swift:24-26 | writing back the value read from a prefix reproduces those 8 bytes, so the load loses nothing |
| Bytes.LoadU64Prefix | Sources/Safetensors/Safetensors.swift:219 | the count depends on `data[0..<8]` only |
| DTypes.FromRawValue | Sources/Safetensors/Enums/DType.swift:9-20 | any case `init(rawValue:)` returns has exactly that string as its raw value |
| DTypes.ExactlyTenTags | Sources/Safetensors/Enums/DType.swift:9-20 | there are exactly ten tags, each listed once |
| DTypes.RawValueRoundTrip | Sources/Safetensors/Enums/DType.swift:9 | `init(rawValue:)` inverts `rawValue` |
| DTypes.RawValueInjective | Sources/Safetensors/Enums/DType.swift:10-19 | distinct tags have distinct raw strings |
| DTypes.FromRawValueRejects | Sources/Safetensors/Enums/DType.swift:9 | a string is rejected if and only if it is no tag's raw value |
| DTypes.RawValuesAreConstants | Sources/Safetensors/Utils.swift:7-18 | the enum's raw strings are the strings of `Constants.DataType` |
| ArrayTables.ArrayFromDTypeDomain | Sources/Safetensors/Extensions/DType+MLMultiArrayDataType.swift:28-45 | `mlMultiArrayDataType` succeeds exactly for F64, F32 and I32, and F16 where compiled; any other tag throws `unsupportedDataType` with its raw value |
| ArrayTables.DTypeArrayRoundTrip | Sources/Safetensors/Extensions/DType+MLMultiArrayDataType.swift:11-45 | the two maps invert each other in both directions wherever they succeed |
| ArrayTables.TagRoundTrip | Sources/Safetensors/Backend/MLMultiArray.swift:77-94 | `toMLMultiArrayDataType(from: dtype())` returns the original data type, for F16 only where compiled; `dtype()` fails exactly for the unsupported types |
| ArrayTables.TagTableAgreesWithDTypeTable | Sources/Safetensors/Utils.swift:21-38 | the string table equals the DType table applied to the parsed tag; a string that is no tag throws `unsupportedDataType` with that string |
| ArrayTables.DTypeStringAgreesWithDTypeOf | Sources/Safetensors/Backend/MLMultiArray.swift:13-26 | the string `dtype()` names the tag the typed `dtype` gives; they differ only for F16 where Float16 is not compiled |
| ArrayTables.ScalarSizeWidths | Sources/Safetensors/Extensions/MLMultiArrayDataType+ScalarSize.swift:11-28 | a data type has a width exactly when it has a DType; the widths are 8 for double, 2 for float16, and 4 for float32 and int32 |
| Json.DecodeIntArray | Sources/Safetensors/OffsetRange.swift:12 | `[Int]` decodes exactly from an array of 64-bit integers, item by item |
| Json.DecodeStringMap | Sources/Safetensors/HeaderElement.swift:27 | `[String: String]` decodes exactly from an object whose values are all strings, and keeps every key |
| Json.IntArrayRoundTrip | Sources/Safetensors/OffsetRange.swift:12-19 | an encoded `[Int]` decodes back to itself |
| Json.StringMapRoundTrip | Sources/Safetensors/HeaderElement.swift:27-47 | an encoded string map decodes back to itself |
| OffsetRanges.EndingAt | Sources/Safetensors/Structs/OffsetRange.swift:12-15 | `init(end:)` defaults `start` to 0 |
| OffsetRanges.FromJson | Sources/Safetensors/OffsetRange.swift:10-16 | decoding succeeds exactly for a 2-element `[Int]` and takes start and end from it in order; a non-`[Int]` is a decoding error; another length fails the `precondition` (a trap) |
| OffsetRanges.RoundTrip | Sources/Safetensors/OffsetRange.swift:10-20 | decoding an encoded range gives it back, including when start > end |
| OffsetRanges.EqualityIsFieldwise | Sources/Safetensors/Structs/OffsetRange.swift:32-36 | two ranges are equal if and only if both fields are |
| Descriptors.ToJson | Sources/Safetensors/Safetensors.swift:69-79 | the descriptor encodes as an object with exactly the fields `dtype`, `shape` and `data_offsets` |
| Descriptors.FromJson | Sources/Safetensors/TensorData.swift:3-13 | when decoding succeeds, each field of the result is read from its own JSON field; failures are decoding errors or the offset range's trap, and a trap comes only from `data_offsets` |
| Descriptors.FromJsonTyped | Sources/Safetensors/Structs/TensorData.swift:7-17 | the typed descriptor decodes exactly the string descriptors whose tag is one of the ten, and to the same value |
| Descriptors.RoundTrip | Sources/Safetensors/TensorData.swift:3-13 | a descriptor whose numbers fit in `Int` decodes back from its encoding |
| Descriptors.RoundTripTyped | Sources/Safetensors/Structs/TensorData.swift:7-17 | the same for the typed descriptor, given a valid tag |
| Descriptors.NotAStringMap | Sources/Safetensors/HeaderElement.swift:27-34 | an encoded descriptor is never taken for metadata |
| HeaderElements.MetadataOf | Sources/Safetensors/HeaderElement.swift:9-14 | `metadata` returns a map only from a metadata element holding that map |
| HeaderElements.TensorDataOf | Sources/Safetensors/HeaderElement.swift:16-21 | `tensorData` returns a descriptor exactly for a descriptor element, and that element's payload |
| HeaderElements.CheckMetadataKey | Sources/Safetensors/HeaderElement.swift:53-60 | `validateMetadataKey` passes if and only if the key is `__metadata__`, and otherwise throws `metadataIncompleteBuffer` |
| HeaderElements.Classify | Sources/Safetensors/HeaderElement.swift:25-41 | metadata only at the reserved key; `null` becomes absent metadata exactly at the reserved key; a descriptor only for a non-map, non-null value that decodes as one; `metadataIncompleteBuffer` exactly for a map or `null` elsewhere; the trap exactly when the descriptor's offsets trap |
| HeaderElements.ClassifyLegacy | Sources/Safetensors/Safetensors.swift:44-56 | any string map is metadata, whatever the key; otherwise a descriptor; a decoding error exactly when neither decodes |
| HeaderElements.ClassifyTyped | Sources/Safetensors/Enums/HeaderElement.swift:25-37 | accepts only what the first revision accepts, and only descriptors with a valid tag |
| HeaderElements.RoundTrip | Sources/Safetensors/HeaderElement.swift:43-51 | encoding an element and classifying it at a key gives it back if and only if it may sit at that key |
| HeaderElements.RoundTripLegacy | Sources/Safetensors/Safetensors.swift:44-66 | the first revision gives back every element it can hold |
| HeaderElements.RoundTripTyped | Sources/Safetensors/Enums/HeaderElement.swift:25-47 | the second revision gives back every element it can hold |
| HeaderElements.AccessorsPartition | Sources/Safetensors/HeaderElement.swift:8-22 | both accessors never answer at once, and both are nil only for `null` metadata |
| HeaderElements.RevisionsAgreeElsewhere | Sources/Safetensors/HeaderElement.swift:25-41 | the current revision differs from the first only for `null` at the reserved key and for metadata or `null` elsewhere, which it rejects |
| HeaderElements.TypedAgreesWithLegacy | Sources/Safetensors/Enums/HeaderElement.swift:29 | the typed revision differs from the first exactly on descriptors with an unknown tag |
| Headers.HeaderToJson | Sources/Safetensors/Safetensors.swift:283 | the dictionary encodes as an object with the same keys, each holding the encoded element |
| Headers.DecodeHeaderMap | Sources/Safetensors/Safetensors.swift:228 | decoding succeeds exactly when the value is an object all of whose entries classify, and keeps every key with its element; on failure the error is that of some failing entry |
| Headers.HeaderRoundTrip | Sources/Safetensors/HeaderElement.swift:25-51 | a header whose elements are admissible at their keys decodes back from its encoding |
| Headers.HeaderRoundTripLegacy | Sources/Safetensors/Enums/HeaderElement.swift:25-47 | the same for the first and second revisions |
| Headers.MetadataOnlyAtReservedKey | Sources/Safetensors/HeaderElement.swift:27-32 | in a decoded header, metadata sits only at `__metadata__` |
| Headers.Enumeration | Sources/Safetensors/Safetensors.swift:186-187 | some listing of the dictionary's values visits each key exactly once |
| Headers.RangesIn | Sources/Safetensors/Safetensors.swift:188 | `compactMap` gives at most one range per visited key |
| Headers.TensorRangesOfAnyEnumeration | Sources/Safetensors/Safetensors.swift:186-188 | every visiting order of the keys gives the same multiset of ranges |
| Headers.RangesInPermutation | Sources/Safetensors/Safetensors.swift:186-188 | permuting the keys permutes the ranges |
| Headers.RangeOfKeyIsInTensorRanges | Sources/Safetensors/Safetensors.swift:188 | every tensor's range is among the collected ranges |
| Headers.TwoKeysInTensorRanges | Sources/Safetensors/Safetensors.swift:188 | two tensors with the same range contribute it twice |
| Headers.TensorRangeHasKey | Sources/Safetensors/Safetensors.swift:188 | every collected range belongs to some tensor |
| Headers.RangesIgnoreOtherFields | Sources/Safetensors/Safetensors.swift:188 | metadata and the descriptors' other fields do not change the collected ranges |
| Validation.SortRanges | Sources/Safetensors/Safetensors.swift:189 | the sort returns a permutation of its input, sorted by (start, end) |
| Validation.SortedUnique | Sources/Safetensors/Safetensors.swift:189 | two (start, end)-sorted permutations of the same ranges are equal, which a start-only sort does not guarantee |
| Validation.CheckTiling | Sources/Safetensors/Safetensors.swift:190-200 | the three guards pass if and only if the list is non-empty, starts at 0, ends at `dataCount` and each end is the next start; otherwise `metadataIncompleteBuffer` |
| Validation.ValidateAsWritten | Sources/Safetensors/Safetensors.swift:185-201 | for any arrangement the start-only sort may produce, `validate` passes exactly when that arrangement tiles `dataCount`; a header without tensors fails |
| Validation.SortedTensorRanges | Sources/Safetensors/Safetensors.swift:186-189 | the tensors' ranges, and only those, in (start, end) order |
| Validation.Validate | Sources/Safetensors/Safetensors.swift:185-201 | the corrected check passes if and only if the sorted ranges are well formed and tile `dataCount`; it fails only with `metadataIncompleteBuffer` |
| Validation.ChainIsSortedLex | Sources/Safetensors/Safetensors.swift:196-200 | a well-formed chain in which each end is the next start is already sorted |
| Validation.TilingBounds | Sources/Safetensors/Safetensors.swift:193-200 | every range of a well-formed tiling lies within `[0, dataCount]` |
| Validation.TilingCovers | Sources/Safetensors/Safetensors.swift:193-200 | a well-formed tiling covers every position of `[0, dataCount)` |
| Validation.TilingDisjoint | Sources/Safetensors/Safetensors.swift:196-200 | no position lies in two ranges of a well-formed tiling |
| Validation.TilingLength | Sources/Safetensors/Safetensors.swift:193-200 | the ranges' lengths add up to `dataCount` |
| Validation.ValidBounds | Sources/Safetensors/Safetensors.swift:185-201 | after the check passes, every tensor lies inside the data segment |
| Validation.ValidDisjoint | Sources/Safetensors/Safetensors.swift:185-201 | after the check passes, two different tensors never share a byte |
| Validation.ValidCovers | Sources/Safetensors/Safetensors.swift:185-201 | after the check passes, every byte of the data segment belongs to some tensor |
| Validation.NoTensorsRejected | Sources/Safetensors/Safetensors.swift:186-192 | a header that is empty or holds only metadata fails in both versions of the check |
| Validation.ValidateComplete | Sources/Safetensors/Safetensors.swift:193-200 | the check passes whenever some visiting order of the keys gives a well-formed tiling, whatever the dictionary's order |
| Validation.ValidateCorrectsAsWritten | Sources/Safetensors/Safetensors.swift:185-201 | the corrected check passes if and only if every range has start ≤ end and some start-sorted arrangement passes as written |
| Validation.ValidateSeesOnlyRanges | Sources/Safetensors/Safetensors.swift:186-189 | both versions of the check depend only on the multiset of the tensors' ranges |
| Validation.AsWrittenAcceptsReversedRange | Sources/Safetensors/Safetensors.swift:193-200 | as written, `[0, 5]` and `[5, 3]` pass with `dataCount` 3; the corrected check rejects them |
| Validation.AsWrittenDependsOnTieOrder | Sources/Safetensors/Safetensors.swift:189 | as written, `[0, 0]` and `[0, 4]` with `dataCount` 4 pass in one start-sorted order and fail in the other; the corrected check passes them |
| Validation.CounterexampleHeaders | Sources/Safetensors/Safetensors.swift:186-188 | the two fixed headers have exactly those two pairs of ranges |
| Validation.SortsByStartExist | Sources/Safetensors/Safetensors.swift:185-189 | the start-only sort the as-written decode takes as a parameter can be met: by the (start, end) sort, and by a sort that puts `[0, 4]` before `[0, 0]` |
| Validation.ArrangementOfReversed | Sources/Safetensors/Safetensors.swift:189 | every start-sorted arrangement of `[0, 5]` and `[5, 3]` is that order |
| Validation.ArrangementsOfTie | Sources/Safetensors/Safetensors.swift:189 | a start-sorted arrangement of `[0, 0]` and `[0, 4]` is one of the two orders |
| Containers.Keys | Sources/Safetensors/ParsedSafetensors.swift:19-21 | `keys` is exactly the header's key set, the reserved key included |
| Containers.Metadata | Sources/Safetensors/ParsedSafetensors.swift:23-25 | a map exactly when `__metadata__` holds present metadata, and that map; nil when the key is absent, holds `null` or holds a descriptor |
| Containers.TensorData | Sources/Safetensors/ParsedSafetensors.swift:27-32 | succeeds exactly for a key holding a descriptor and returns it unchanged; otherwise `missingTensorDataForKey` with that key |
| Containers.TensorDataLegacy | Sources/Safetensors/Structs/ParsedTensors.swift:29-34 | the same lookup, failing with `missingTensorData` |
| Containers.LookupsAgree | Sources/Safetensors/Safetensors.swift:100-105 | the revisions' lookups find the same descriptors |
| Containers.AbsoluteSlice | Sources/Safetensors/Backend/MLMultiArray.swift:106-108 | the slice starts at `start + headerOffset`, and its count is `end - start`; it traps exactly when an addition or the subtraction overflows |
| Containers.ReadSlice | Sources/Safetensors/Safetensors.swift:165-168 | a read inside the buffer returns the `count` bytes at `startIndex` |
| Containers.LookupErrorFirst | Sources/Safetensors/Backend/MLMultiArray.swift:104-105 | a lookup failure is reported before the buffer is touched |
| Containers.RowMajorStrides | Sources/Safetensors/Backend/MLMultiArray.swift:109-115 | the loop with its in-place reverse returns the row-major strides, each the product of the later dimensions; it traps exactly when a running product overflows |
| Containers.MultiArrayFor | Sources/Safetensors/Backend/MLMultiArray.swift:103-140 | reported in this order: the lookup error, then the unsupported tag, and only then a trap; on success, the array has the table's data type, the shape, the row-major strides and the tensor's bytes |
| Containers.ShapedArrayFor | Sources/Safetensors/Backend/MLShapedArray.swift:89-122 | lookup error first, then the unsupported-tag error; `dataTypeMismatch` exactly when the tag is supported but of another type; success exactly when the lookup succeeds, the tag is the requested type and the bytes can be read, with the requested type, the shape and the tensor's bytes; otherwise a trap |
| Containers.ValidatedShapedArray | Sources/Safetensors/Backend/MLShapedArray.swift:93-97 | after the corrected check, a tensor with a supported tag reads as a shaped array of its stored type holding its range of the data segment, and every other scalar type is `dataTypeMismatch` |
| Containers.ValidatedSlicesInBounds | Sources/Safetensors/Backend/MLMultiArray.swift:106-108 | once validated, every tensor's slice reads exactly its range of the data segment without a trap |
| Shapes.Strides | Sources/Safetensors/Structs/ParsedTensors.swift:76-82 | there is one stride per dimension |
| Shapes.StridesRecurrence | Sources/Safetensors/Backend/MLMultiArray.swift:111-114 | each stride is the next dimension times the next stride |
| Shapes.StridesEnds | Sources/Safetensors/Structs/ParsedTensors.swift:76-82 | the last stride is 1, and the first dimension times the first stride is the scalar count |
| Shapes.StridesExample | Tests/SafetensorsTests/MLMultiArrayTests.swift:46 | shape `[2, 2]` has strides `[2, 1]` |
| Encodables.ByteCount | Sources/Safetensors/Protocols/SafetensorsEncodable.swift:18-24 | `byteCount` is `scalarSize × scalarCount`; a `scalarSize` error propagates and an overflow traps |
| Encodables.TensorDataAt | Sources/Safetensors/Protocols/SafetensorsEncodable.swift:26-37 | `dtype` errors come first, then `byteCount` errors; on success dtype and shape are copied, start is the offset, and the length is the byte count |
| Encodables.TensorDataAtDefault | Sources/Safetensors/Protocols/SafetensorsEncodable.swift:27 | at the default offset 0 the range is `OffsetRange(end: byteCount)` |
| Encodables.ArrayEncodable | Sources/Safetensors/Backend/MLMultiArray.swift:4-43 | `scalarCount` is the product of the shape, `tensorShape` is the shape, and `dtype()` and `scalarSize()` are the tables' values |
| Encodables.TypedArrayEncodable | Sources/Safetensors/Extensions/MLMultiArray+SafetensorsEncodable.swift:4-23 | the same, with a `dtype` that is always a valid tag |
| Encodables.ArrayByteCount | Sources/Safetensors/Backend/MLMultiArray.swift:28-43 | an array has a byte count exactly when its type is supported; it is the width times the product of the shape |
| Encodables.ConformancesAgree | Sources/Safetensors/Extensions/MLMultiArray+SafetensorsEncodable.swift:13-17 | the two conformances agree wherever the typed one has a tag |
| Encoder.EncodeStep | Sources/Safetensors/Safetensors.swift:268-276 | one iteration: it succeeds exactly when the tensor encodes and the offset does not overflow; it advances the offset by the byte count, appends the data and stores the descriptor at the running offset |
| Encoder.WithMetadata | Sources/Safetensors/Safetensors.swift:278-280 | metadata, when given, is stored under `__metadata__`; otherwise the header is unchanged |
| Encoder.Encode | Sources/Safetensors/Safetensors.swift:259-286 | the loop's result is the encoding the specification function gives: its invariant is the state after the first `i` tensors, and the first failure is the result |
| Encoder.PrefixFailurePersists | Sources/Safetensors/Safetensors.swift:267-277 | once an iteration throws, `encode` throws that error |
| Encoder.EncodeSucceeds | Sources/Safetensors/Safetensors.swift:265-277 | the loop succeeds exactly when every tensor encodes and no running offset overflows; `previousOffset` is then the sum of the byte counts, and `tensorData` is the concatenated `toData()` outputs |
| Encoder.DescriptorAtOffset | Sources/Safetensors/Safetensors.swift:268-274 | tensor `i`'s range runs from the sum of the earlier byte counts to the sum including its own |
| Encoder.EncodeLayout | Sources/Safetensors/Safetensors.swift:267-277 | the header's keys are exactly the tensors' names, each holding its descriptor at its running offset |
| Encoder.EncodeOutput | Sources/Safetensors/Safetensors.swift:281-285 | the output is the 8-byte count of the JSON header, then the header, then the tensors' bytes in order; the count reads back as the header's length |
| Encoder.EncodeMetadata | Sources/Safetensors/Safetensors.swift:278-280 | metadata is stored under `__metadata__` after the tensors; every other entry is kept, and the keys grow by the reserved key exactly when metadata is given |
| Framing.HeaderBytes | Sources/Safetensors/Safetensors.swift:225 | the header is exactly the `N` bytes after the prefix |
| Framing.Decode | Sources/Safetensors/Safetensors.swift:215-237 | the corrected `decode`, with the current revision's classifier: an accepted buffer is kept whole as `rawData` and is at least 8 bytes long |
| Framing.DecodeAsWritten | Sources/Safetensors/Safetensors.swift:215-237 | `decode` as written, with the first revision's classifier and `validate` as written over a start-only sort: an accepted buffer is kept whole as `rawData` and is at least 8 bytes long |
| Framing.DecodeAsWrittenAcceptsReversedRange | Sources/Safetensors/Safetensors.swift:193-200 | as written, a framed buffer whose header gives `[0, 5]` and `[5, 3]` over 3 data bytes decodes, whatever the sort does; the corrected decode rejects it |
| Framing.DecodeAsWrittenDependsOnTieOrder | Sources/Safetensors/Safetensors.swift:189 | as written, a framed buffer whose header gives `[0, 0]` and `[0, 4]` over 4 data bytes decodes exactly when the sort leaves `[0, 0]` first; the corrected decode accepts it |
| Framing.DecodeRejects | Sources/Safetensors/Safetensors.swift:216-228 | `invalidHeaderSize` if and only if there are fewer than 8 bytes; a trap for a count that cannot be an offset; `invalidHeaderData` if and only if `8 + N` exceeds the length; a decoding error when the header is not JSON |
| Framing.DecodeAccepts | Sources/Safetensors/Safetensors.swift:229-236 | on success, `headerOffset == N + 8`, the header is the decoded JSON, and `validate` has passed with `dataCount == count − headerOffset` |
| Framing.DecodeFramed | Sources/Safetensors/Safetensors.swift:215-237 | a buffer framed as `encode` frames it, whose header decodes and validates, decodes to that header |
| Framing.FramedCount | Sources/Safetensors/Safetensors.swift:221-225 | in a framed buffer the count is the header's length, and the header slice is the header |
| Framing.DecodedKeys | Sources/Safetensors/ParsedSafetensors.swift:19-21 | a decoded container's keys are the keys of the JSON header object, with metadata only at the reserved key |
| Framing.DecodedSlicesInBounds | Sources/Safetensors/Safetensors.swift:231 | every tensor of a decoded container lies inside the data segment, and reading it gives exactly those bytes |
| Framing.DecodedHasTensor | Sources/Safetensors/Safetensors.swift:190-192 | a decoded container holds at least one tensor |
| Framing.HeaderDecoderDecode | Sources/Safetensors/Utils/HeaderDecoder.swift:18-37 | `invalidHeaderData` if and only if the buffer is short or `8 + N` exceeds its length; a trap for an unusable count; on success the size is `8 + N`, and the header is decoded from the JSON by the typed revision, with no validation of the offsets |
| Framing.HeaderDecoderIgnoresTrailingBytes | Sources/Safetensors/Utils/HeaderDecoder.swift:32-34 | bytes after `8 + N` do not affect the result |
| Framing.HeaderEncoderEncode | Sources/Safetensors/Utils/HeaderEncoder.swift:18-23 | the output is `8 + |json|` long, with the JSON after the prefix and a count that reads back as its length |
| Framing.HeaderCodecRoundTrip | Sources/Safetensors/Utils/HeaderEncoder.swift:18-23 | given JSON coders that agree on the header, decoding the encoder's output gives back the header and the output's length |
| RoundTrip.OffsetsGrow | Sources/Safetensors/Safetensors.swift:272-274 | with matching sizes, the running offsets never decrease |
| RoundTrip.PayloadLength | Sources/Safetensors/Safetensors.swift:274-276 | the data segment is as long as the final `previousOffset` |
| RoundTrip.PayloadSlice | Sources/Safetensors/Safetensors.swift:272-276 | tensor `i`'s `toData()` bytes sit exactly at its range of the data segment |
| RoundTrip.EntryOfTensor | Sources/Safetensors/Safetensors.swift:269-279 | each tensor's name holds its descriptor at its running offset, also after the metadata is added |
| RoundTrip.HeaderKeys | Sources/Safetensors/Safetensors.swift:275-280 | the header's keys are the names, plus `__metadata__` when metadata is given |
| RoundTrip.HeaderAdmissible | Sources/Safetensors/Safetensors.swift:275-279 | every entry `encode` writes may stand at its key in the current revision |
| RoundTrip.EncodedHeaderHoldsChain | Sources/Safetensors/Safetensors.swift:272-275 | each name holds a descriptor whose range runs from its running offset to the next |
| RoundTrip.EncodedRangesTile | Sources/Safetensors/Safetensors.swift:265-277 | `encode`'s ranges, in loop order, form a well-formed tiling of the data segment |
| RoundTrip.EncodedHeaderSound | Sources/Safetensors/Safetensors.swift:278-283 | the encoded header decodes back from its JSON, and passes the corrected check against the data segment |
| RoundTrip.EncodedHeaderValid | Sources/Safetensors/Safetensors.swift:185-201 | the corrected check accepts `encode`'s header whatever the dictionary order |
| RoundTrip.DecodeEncode | Sources/Safetensors/Safetensors.swift:259-286 | `decode(encode(T, M))` is the container of the encoded bytes, with the header `encode` built, when there is a tensor, names are distinct and not reserved, sizes match and the JSON coders agree |
| RoundTrip.DecodeEncodeMetadata | Sources/Safetensors/Safetensors.swift:278-280 | the decoded container's `metadata` is `M` |
| RoundTrip.DecodeEncodeDescriptor | Sources/Safetensors/Safetensors.swift:269-275 | each tensor's decoded descriptor is the one `tensorData(at:)` gives at its running offset |
| RoundTrip.DecodeEncodeBytes | Sources/Safetensors/Safetensors.swift:276 | reading a tensor of the decoded container gives back its `toData()` bytes |
| RoundTrip.EncodedTensorBytes | Sources/Safetensors/Safetensors.swift:276 | in the container `encode` frames, each tensor's bytes are its `toData()` bytes |
| Index.AppendingPathComponent | Sources/Safetensors/ParsedSafetensorsIndex.swift:41 | one more path component; a file URL stays a file URL |
| Index.ShardURL | Sources/Safetensors/ParsedSafetensorsIndex.swift:37-41 | fails exactly for a key missing from the weight map, with `missingTensorDataForKey(key)`; otherwise the mapped file under the argument base URL, if given, and under the stored one if not |
| Index.Read | Sources/Safetensors/Safetensors.swift:206-210 | a non-file URL fails the `precondition`; an unreadable file fails; otherwise the file's contents are decoded |
| Index.ParsedSafetensorsFor | Sources/Safetensors/ParsedSafetensorsIndex.swift:33-42 | a missing key is reported before any file is read; otherwise the shard is read |
| Index.TensorDataFor | Sources/Safetensors/ParsedSafetensorsIndex.swift:44-49 | the result is the resolved shard's `tensorData(forKey:)`, or the shard's error |
| Index.FoundInNamedShard | Sources/Safetensors/ParsedSafetensorsIndex.swift:33-49 | a descriptor found through the index is that key's descriptor in the decoded file the weight map names |
| Index.NewIndex | Sources/Safetensors/ParsedSafetensorsIndex.swift:23-31 | each field of the memberwise init holds its argument |
| ZFill.ZFill | Sources/Safetensors/Utils.swift:41-51 | unchanged when at least `width` long; otherwise exactly `width` long, with the zeros before the string, or after a leading `-` |
| ZFill.ZFillIdempotent | Sources/Safetensors/Utils.swift:41-51 | padding twice is padding once |

## Left out

- File writing (`write(_:metadata:to:)`): not modelled. Reading is an
  uninterpreted `FileSystem` from URLs to bytes.
- JSON text: reading and writing it are parameters (`JsonReader`,
  `JsonWriter`).
  - The snake-case key conversion is not modelled; field names appear as the
    header spells them (`data_offsets`).
  - Tensor names and metadata keys pass through verbatim.
  - `RoundTrip.DecodeEncode` assumes the reader inverts the writer on the
    header `encode` builds.
- CoreML objects: the `MLMultiArray`/`MLShapedArray` constructors and the
  `toData()` copies are left to the host framework.
  - An array is recorded as its data type, shape, strides and bytes.
  - The outcome of `toData()` is a field of the tensor, including its
  runtime `#available` check.
  - The model does not capture `noCopy`, that is, an array aliasing the
  file buffer.
- `mlTensor` and the MLTensor adapters: not modelled. Their lookup and slice
  arithmetic are those of `Containers.AbsoluteSlice`.
- Concurrency: none in the source.
- Floating point: tensor contents are opaque bytes.
- The shard planner (`groupsForSharding`), sharded writing, `decodeIndex`
  and `readFromIndex` are not part of this model.
- Whether Float16 is compiled in is the parameter `float16Compiled`, not a
  platform test.
- Dictionary order: `encode` visits its dictionary in an unspecified order,
  which the model takes as the order of a sequence of distinct names.
  `validate` is stated for every order `header.values` may give.
- `Encodables.ArrayEncodable`: `scalarCount` is the exact product of the
  shape. It does not model the trap of the `reduce` multiplication on
  overflow, because the product is only consumed by `byteCount`, whose own
  multiplication is checked.
- `Encodables.TypedArrayEncodable`: the same simplification of
  `scalarCount`.
- `Descriptors.FromJson`: the first revision stores `dataOffsets` as `[Int]`
  of any length. It traps only when `validate` or a read indexes a missing
  element, and it ignores elements after the second. The model uses the
  later revisions' `OffsetRange`, which traps at decoding for any length
  other than 2.
- `Containers.ReadSlice`: a read outside the buffer is undefined behaviour in
  the source. The model reports it as a trap.
- `Framing.Decode`: it requires the buffer to be at most `Int.max` bytes long,
  as a `Data` count is.
- `Framing.Decode`: it uses the corrected `validate` (see "Findings"). The
  as-written check is `Validation.ValidateAsWritten`, and `decode` as
  written is `Framing.DecodeAsWritten`.
- `Framing.Decode`: it classifies entries with the current revision's
  `HeaderElement` (HeaderElement.swift), which rejects metadata under any
  key but `__metadata__` and accepts `null` there. Safetensors.swift's own
  `decode` uses that file's first-revision `HeaderElement`, which accepts a
  string map under any key and rejects `null`; `Framing.DecodeAsWritten`
  uses that one. The round-trip lemmas in `RoundTrip` and
  `Framing.DecodedSlicesInBounds` are about `Framing.Decode`.
- `Index.Read`: a URL is its file flag and its path components. Nothing else
  about URLs is modelled.
- `ZFill.ZFill`: Swift's `String.count` counts grapheme clusters. Here a
  string is a sequence of characters, so padding a string of combining
  characters is not modelled.
- `Headers.DecodeHeaderMap`: the error reported for a header with several bad
  entries is that of some bad entry, not a particular one, because
  Foundation's visiting order is not specified.
- Errors: an unsupported array data type carries the data type instead of
  its raw value's description.

## Code over description

Where the format's prose description and the code differ, the model
follows the code:

- The count is loaded as a signed `Int`, not as an unsigned 64-bit value. A
  count of 2^63 or more, or one that overflows `8 + N`, stops the process.
- `OffsetRange` checks neither `start <= end` nor the array length with an
  error. The length is a `precondition`.
- A header that is not JSON surfaces Foundation's decoding error, not
  `invalidHeaderData`.
- `decode` of Safetensors.swift validates the offsets, and
  `HeaderDecoder.decode` does not.

## Findings

| source | as written | input that shows it | evidently intended | confidence | as-written member | corrected member |
|---|---|---|---|---|---|---|
| Sources/Safetensors/Safetensors.swift:193-200 | only the chain of ends and starts is checked, never `start <= end`, so a range with a negative length passes and another range may reach past the data | two tensors with data offsets `[0, 5]` and `[5, 3]`, and 3 data bytes | every range has `start <= end` and lies inside the data segment, so each byte belongs to exactly one tensor | not executed | Framing.DecodeAsWrittenAcceptsReversedRange | Validation.Validate |
| Sources/Safetensors/Safetensors.swift:189 | ranges are sorted by start only, so the order of ranges sharing a start is left to the dictionary and the sort, and the verdict depends on it | an empty tensor at `[0, 0]` and a 4-byte tensor at `[0, 4]` with 4 data bytes, which is what `encode` writes when the empty tensor comes first | the verdict does not depend on iteration order, and every layout `encode` writes is accepted | not executed | Framing.DecodeAsWrittenDependsOnTieOrder | Validation.Validate |

The corrected check sorts by (start, end) and rejects a range whose end is
below its start. Its intended properties are proved beside it:

- `Validation.ValidBounds`: every tensor lies inside the data segment.
- `Validation.ValidDisjoint` and `Validation.ValidCovers`: each byte belongs
  to exactly one tensor.
- `Validation.ValidateComplete`: every back-to-back layout is accepted.
- `Validation.ValidateCorrectsAsWritten`: the corrected check is the
  as-written one restricted to well-formed ranges and a good arrangement.

`Framing.Decode` uses the corrected check. At the level of `validate`
alone, the two discrepancies are `Validation.AsWrittenAcceptsReversedRange`
and `Validation.AsWrittenDependsOnTieOrder`.
