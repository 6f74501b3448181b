/** The container's framing: an 8-byte little-endian count `N`, `N` bytes of
    JSON header, then the data segment. `decode` of Safetensors.swift, and
    the later `HeaderDecoder`/`HeaderEncoder` pair. */
module Framing {
  import opened Wrappers
  import opened Errors
  import opened Bytes
  import opened Json
  import opened HeaderElements
  import opened Headers
  import opened Containers
  import opened OffsetRanges
  import Validation

  /** The count `ptr.load(as: Int.self)` reads is stored as a signed `Int`.
      A count of at least 2^63 reads as a negative `Int`, and
      `data[8..<8 + N]` is then an invalid `Range`; a count above
      `Int.max - 8` makes `8 + N` overflow. Both stop the process. */
  predicate CountTraps(data: Bytes)
    requires |data| >= PrefixSize
  {
    LoadU64(data) > IntMax - PrefixSize
  }

  /** The header's JSON bytes, `data[8..<8 + N]`. */
  function HeaderBytes(data: Bytes): (s: Bytes)
    requires |data| >= PrefixSize && PrefixSize + LoadU64(data) <= |data|
    ensures |s| == LoadU64(data)
    ensures forall i :: 0 <= i < |s| ==> s[i] == data[PrefixSize + i]
  {
    data[PrefixSize..PrefixSize + LoadU64(data)]
  }

  /** `decode(_:)` of Safetensors.swift: the size guard, the count, the
      bounds guard, the JSON header, then `validate` over the data segment.
      `Data.count` is a Swift `Int`. What it accepts and rejects is stated
      by `DecodeRejects` and `DecodeAccepts`. */
  ghost function Decode(data: Bytes, parse: JsonReader): (r: Result<Container, Error>)
    requires |data| <= IntMax
    ensures r.Ok? ==> |data| >= PrefixSize && r.value.rawData == data
  {
    if |data| < PrefixSize then Err(InvalidHeaderSize)
    else if CountTraps(data) then Err(Trap)
    else if |data| < PrefixSize + LoadU64(data) then Err(InvalidHeaderData)
    else
      match parse(HeaderBytes(data))
      case None => Err(DecodingError)
      case Some(j) =>
        var header :- DecodeHeaderMap(j, Current);
        var headerOffset := LoadU64(data) + PrefixSize;
        var _ :- Validation.Validate(header, |data| - headerOffset);
        Ok(Container(headerOffset, header, data))
  }

  /** `decode(_:)` as Safetensors.swift writes it: the same framing, the
      entries decoded by that file's own `HeaderElement` (a string map is
      metadata under any key), and `validate` without the corrections, with
      `arrange` standing for its start-only sort. */
  ghost function DecodeAsWritten(data: Bytes, parse: JsonReader, arrange: Header -> seq<OffsetRange>): (r: Result<Container, Error>)
    requires |data| <= IntMax && Validation.SortsByStart(arrange)
    ensures r.Ok? ==> |data| >= PrefixSize && r.value.rawData == data
  {
    if |data| < PrefixSize then Err(InvalidHeaderSize)
    else if CountTraps(data) then Err(Trap)
    else if |data| < PrefixSize + LoadU64(data) then Err(InvalidHeaderData)
    else
      match parse(HeaderBytes(data))
      case None => Err(DecodingError)
      case Some(j) =>
        var header :- DecodeHeaderMap(j, Legacy);
        var headerOffset := LoadU64(data) + PrefixSize;
        var _ :- Validation.ValidateAsWritten(header, arrange(header), |data| - headerOffset);
        Ok(Container(headerOffset, header, data))
  }

  /** As written, `decode` accepts a buffer whose header gives the ranges
      `[0, 5]` and `[5, 3]` over a 3-byte data segment, whatever order the
      sort leaves: the first tensor runs past the end of the data and the
      second has a negative length. The corrected decode rejects it. */
  lemma DecodeAsWrittenAcceptsReversedRange(json: Bytes, segment: Bytes, parse: JsonReader, arrange: Header -> seq<OffsetRange>)
    requires PrefixSize + |json| + |segment| <= IntMax && |segment| == 3
    requires parse(json) == Some(HeaderToJson(Validation.ReversedHeader))
    requires Validation.SortsByStart(arrange)
    ensures var out := StoreU64(|json|) + json + segment;
      && DecodeAsWritten(out, parse, arrange) == Ok(Container(PrefixSize + |json|, Validation.ReversedHeader, out))
      && Decode(out, parse).Err?
    ensures Validation.ReversedHeader["a"].data.dataOffsets.end > |segment|
    ensures Validation.ReversedHeader["b"].data.dataOffsets.start > Validation.ReversedHeader["b"].data.dataOffsets.end
  {
    var out := StoreU64(|json|) + json + segment;
    var h := Validation.ReversedHeader;
    FramedCount(out, json, segment);
    HeaderRoundTripLegacy(h, Legacy);
    HeaderRoundTrip(h);
    Validation.CounterexampleHeaders();
    Validation.ArrangementOfReversed(arrange(h));
    Validation.AsWrittenAcceptsReversedRange(h);
  }

  /** As written, `decode` of a buffer whose header gives an empty tensor
      `[0, 0]` and a 4-byte tensor `[0, 4]` over 4 bytes of data, the layout
      `encode` writes when the empty tensor comes first, succeeds exactly
      when the sort leaves the empty range first. The corrected decode
      accepts it. */
  lemma DecodeAsWrittenDependsOnTieOrder(json: Bytes, segment: Bytes, parse: JsonReader, arrange: Header -> seq<OffsetRange>)
    requires PrefixSize + |json| + |segment| <= IntMax && |segment| == 4
    requires parse(json) == Some(HeaderToJson(Validation.TieHeader))
    requires Validation.SortsByStart(arrange)
    ensures var out := StoreU64(|json|) + json + segment;
      && (DecodeAsWritten(out, parse, arrange).Ok? <==> arrange(Validation.TieHeader) == [Validation.Empty0, Validation.Full4])
      && Decode(out, parse) == Ok(Container(PrefixSize + |json|, Validation.TieHeader, out))
  {
    var out := StoreU64(|json|) + json + segment;
    var h := Validation.TieHeader;
    FramedCount(out, json, segment);
    HeaderRoundTripLegacy(h, Legacy);
    HeaderRoundTrip(h);
    Validation.CounterexampleHeaders();
    Validation.ArrangementsOfTie(arrange(h));
    Validation.AsWrittenDependsOnTieOrder(h);
  }

  /** The errors `decode` reports: `invalidHeaderSize` exactly for a buffer
      shorter than the count, a trap for a count that cannot be an offset,
      `invalidHeaderData` exactly when the header would run past the end,
      and a decoding error when the header is not JSON. */
  lemma DecodeRejects(data: Bytes, parse: JsonReader)
    requires |data| <= IntMax
    ensures Decode(data, parse) == Err(InvalidHeaderSize) <==> |data| < PrefixSize
    ensures |data| >= PrefixSize && CountTraps(data) ==> Decode(data, parse) == Err(Trap)
    ensures Decode(data, parse) == Err(InvalidHeaderData) <==>
      && |data| >= PrefixSize && !CountTraps(data)
      && |data| < PrefixSize + LoadU64(data)
    ensures
      && |data| >= PrefixSize && !CountTraps(data) && |data| >= PrefixSize + LoadU64(data)
      && parse(HeaderBytes(data)).None?
      ==> Decode(data, parse) == Err(DecodingError)
  {
    if |data| >= PrefixSize && !CountTraps(data) && |data| >= PrefixSize + LoadU64(data) {
      var r := Decode(data, parse);
      match parse(HeaderBytes(data))
      case None =>
      case Some(j) =>
        HeaderMapError(j);
        if DecodeHeaderMap(j, Current).Ok? {
          ValidateError(data, j);
        }
    }
  }

  /** The errors of the header and of `validate` are neither size error. */
  lemma HeaderMapError(j: JsonValue)
    ensures DecodeHeaderMap(j, Current).Err? ==>
      DecodeHeaderMap(j, Current).error != InvalidHeaderSize && DecodeHeaderMap(j, Current).error != InvalidHeaderData
  {
  }

  lemma ValidateError(data: Bytes, j: JsonValue)
    requires |data| >= PrefixSize && !CountTraps(data) && |data| >= PrefixSize + LoadU64(data)
    requires DecodeHeaderMap(j, Current).Ok?
    ensures var v := Validation.Validate(DecodeHeaderMap(j, Current).value, |data| - (LoadU64(data) + PrefixSize));
      v.Err? ==> v.error != InvalidHeaderSize && v.error != InvalidHeaderData
  {
  }

  /** What an accepted buffer decodes to: the header ends after the count
      and its `N` bytes, the bytes are kept whole, the JSON parses and its
      header decodes, and the corrected `validate` accepts it. */
  lemma DecodeAccepts(data: Bytes, parse: JsonReader)
    requires |data| <= IntMax && Decode(data, parse).Ok?
    ensures var c := Decode(data, parse).value;
      && |data| >= PrefixSize + LoadU64(data)
      && c.headerOffset == LoadU64(data) + PrefixSize
      && c.rawData == data
      && parse(HeaderBytes(data)).Some?
      && DecodeHeaderMap(parse(HeaderBytes(data)).value, Current) == Ok(c.header)
      && Validation.Validate(c.header, |data| - c.headerOffset).Ok?
  {
  }

  /** A buffer framed as `encode` frames it, whose header text parses to a
      header that decodes and validates against the rest, decodes to that
      header with the header ending at `8 + |json|`. */
  lemma DecodeFramed(out: Bytes, json: Bytes, segment: Bytes, parse: JsonReader, h: Header)
    requires PrefixSize + |json| + |segment| <= IntMax
    requires out == StoreU64(|json|) + json + segment
    requires parse(json).Some? && DecodeHeaderMap(parse(json).value, Current) == Ok(h)
    requires Validation.Validate(h, |segment|).Ok?
    ensures Decode(out, parse) == Ok(Container(PrefixSize + |json|, h, out))
  {
    FramedCount(out, json, segment);
  }

  /** The count of a framed buffer is the length of its header text. */
  lemma FramedCount(out: Bytes, json: Bytes, segment: Bytes)
    requires PrefixSize + |json| + |segment| <= IntMax
    requires out == StoreU64(|json|) + json + segment
    ensures |out| >= PrefixSize && LoadU64(out) == |json| && !CountTraps(out)
    ensures |out| >= PrefixSize + LoadU64(out) && HeaderBytes(out) == json
    ensures |out| - (LoadU64(out) + PrefixSize) == |segment|
  {
    assert IntMax < Pow256(8);
    assert out[..PrefixSize] == StoreU64(|json|)[..PrefixSize];
    LoadU64Prefix(out, StoreU64(|json|));
    LoadStoreU64(|json|);
    assert HeaderBytes(out) == json;
  }

  /** A decoded container's keys are the keys of the JSON header object, and
      the current revision keeps metadata at the reserved key only. */
  lemma DecodedKeys(data: Bytes, parse: JsonReader, c: Container)
    requires |data| <= IntMax && Decode(data, parse) == Ok(c)
    ensures |data| >= PrefixSize + LoadU64(data) && parse(HeaderBytes(data)).Some?
    ensures parse(HeaderBytes(data)).value.JObject?
    ensures Keys(c) == parse(HeaderBytes(data)).value.fields.Keys
    ensures forall k :: k in c.header && c.header[k].Metadata? ==> k == MetadataKey
  {
    DecodeAccepts(data, parse);
    var j := parse(HeaderBytes(data)).value;
    forall k | k in c.header && c.header[k].Metadata?
      ensures k == MetadataKey
    {
      MetadataOnlyAtReservedKey(j, k);
    }
  }

  /** Every tensor of a decoded container lies inside the data segment,
      and its bytes are read without a trap. */
  lemma DecodedSlicesInBounds(data: Bytes, parse: JsonReader, c: Container, key: string, legacy: bool)
    requires |data| <= IntMax && Decode(data, parse) == Ok(c)
    requires key in c.header && c.header[key].Tensor?
    ensures var r := c.header[key].data.dataOffsets;
      && 0 <= r.start <= r.end <= |data| - c.headerOffset
      && TensorBytes(c, key, legacy) == Ok(data[c.headerOffset + r.start..c.headerOffset + r.end])
  {
    DecodeAccepts(data, parse);
    ValidatedSlicesInBounds(c, key, legacy);
  }

  /** A decoded container holds at least one tensor. */
  lemma DecodedHasTensor(data: Bytes, parse: JsonReader, c: Container)
    requires |data| <= IntMax && Decode(data, parse) == Ok(c)
    ensures exists k :: k in c.header && c.header[k].Tensor?
  {
    DecodeAccepts(data, parse);
    if !exists k :: k in c.header && c.header[k].Tensor? {
      Validation.NoTensorsRejected(c.header, |data| - c.headerOffset);
    }
  }

  // ----- the second revision: HeaderDecoder and HeaderEncoder -----

  /** `HeaderDecoder.decode`: the same framing, but a short buffer is
      `invalidHeaderData`, the elements are decoded by the typed revision,
      and the offsets are not validated. It returns `8 + N` and the header. */
  ghost function HeaderDecoderDecode(data: Bytes, parse: JsonReader): (r: Result<(int, Header), Error>)
    requires |data| <= IntMax
    ensures |data| < PrefixSize ==> r == Err(InvalidHeaderData)
    ensures |data| >= PrefixSize && CountTraps(data) ==> r == Err(Trap)
    ensures r == Err(InvalidHeaderData) <==>
      || |data| < PrefixSize
      || (!CountTraps(data) && |data| < PrefixSize + LoadU64(data))
    ensures r.Ok? ==>
      && |data| >= PrefixSize + LoadU64(data)
      && r.value.0 == PrefixSize + LoadU64(data)
      && parse(HeaderBytes(data)).Some?
      && DecodeHeaderMap(parse(HeaderBytes(data)).value, Typed) == Ok(r.value.1)
  {
    if |data| < PrefixSize then Err(InvalidHeaderData)
    else if CountTraps(data) then Err(Trap)
    else if |data| < PrefixSize + LoadU64(data) then Err(InvalidHeaderData)
    else
      match parse(HeaderBytes(data))
      case None => Err(DecodingError)
      case Some(j) =>
        var header :- DecodeHeaderMap(j, Typed);
        Ok((PrefixSize + LoadU64(data), header))
  }

  /** The decoder reads nothing past byte `8 + N`: two buffers that agree
      on their first `8 + N` bytes decode alike, whatever follows. */
  lemma HeaderDecoderIgnoresTrailingBytes(data: Bytes, other: Bytes, parse: JsonReader)
    requires |data| <= IntMax && |other| <= IntMax
    requires |data| >= PrefixSize && !CountTraps(data)
    requires PrefixSize + LoadU64(data) <= |data| && PrefixSize + LoadU64(data) <= |other|
    requires other[..PrefixSize + LoadU64(data)] == data[..PrefixSize + LoadU64(data)]
    ensures HeaderDecoderDecode(other, parse) == HeaderDecoderDecode(data, parse)
  {
    var m := PrefixSize + LoadU64(data);
    assert other[..m][..PrefixSize] == other[..PrefixSize];
    assert data[..m][..PrefixSize] == data[..PrefixSize];
    assert LoadU64(other) == LoadU64(data);
    assert HeaderBytes(other) == other[..m][PrefixSize..];
    assert HeaderBytes(data) == data[..m][PrefixSize..];
  }

  /** `HeaderEncoder.encode`: the JSON header's byte count in 8 bytes, then
      the JSON. A result longer than `Int.max` cannot be built. */
  function HeaderEncoderEncode(h: Header, write: JsonWriter): (r: Result<Bytes, Error>)
    ensures r.Ok? <==> PrefixSize + |write(HeaderToJson(h))| <= IntMax
    ensures r.Ok? ==>
      && |r.value| == PrefixSize + |write(HeaderToJson(h))|
      && r.value[PrefixSize..] == write(HeaderToJson(h))
      && LoadU64(r.value) == |write(HeaderToJson(h))|
    ensures r.Err? ==> r.error == Trap
  {
    var json := write(HeaderToJson(h));
    if PrefixSize + |json| > IntMax then Err(Trap)
    else
      var out := StoreU64(|json|) + json;
      assert out[..PrefixSize] == StoreU64(|json|)[..PrefixSize];
      LoadU64Prefix(out, StoreU64(|json|));
      LoadStoreU64(|json|);
      Ok(out)
  }

  /** Round trip: given a JSON coder pair that agrees on the header, the
      decoder gives back the encoded header and the encoding's length. */
  lemma HeaderCodecRoundTrip(h: Header, write: JsonWriter, parse: JsonReader)
    requires LegacyHeader(h, Typed)
    requires RoundTrips(parse, write, HeaderToJson(h))
    requires HeaderEncoderEncode(h, write).Ok?
    ensures var out := HeaderEncoderEncode(h, write).value;
      HeaderDecoderDecode(out, parse) == Ok((|out|, h))
  {
    var out := HeaderEncoderEncode(h, write).value;
    assert HeaderBytes(out) == out[PrefixSize..];
    HeaderRoundTripLegacy(h, Typed);
  }
}
