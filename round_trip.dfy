/** What `decode` makes of `encode`'s output: the same header, the same
    metadata, and each tensor's bytes at its own range. */
module RoundTrip {
  import opened Wrappers
  import opened Errors
  import opened Bytes
  import opened Json
  import opened OffsetRanges
  import opened HeaderElements
  import opened Headers
  import opened Encodables
  import opened Encoder
  import opened Containers
  import opened Framing
  import Validation
  import Descriptors

  /** The header `encode` builds, metadata included. */
  function EncodedHeader(ts: Tensors, metadata: Option<map<string, string>>): Header
    requires EncodePrefix(ts).Ok?
  {
    WithMetadata(EncodePrefix(ts).value.header, metadata)
  }

  /** Every `toData()` returns as many bytes as the tensor's byte count. */
  predicate SizesMatch(ts: Tensors) {
    forall i :: 0 <= i < |ts| && ByteCount(ts[i].1).Ok? && ts[i].1.data.Ok? ==>
      |ts[i].1.data.value| == ByteCount(ts[i].1).value
  }

  /** Every shape dimension is a Swift `Int`. */
  predicate ShapesFit(ts: Tensors) {
    forall i :: 0 <= i < |ts| ==> Json.AllInts(ts[i].1.tensorShape)
  }

  /** No tensor is named like the metadata. */
  predicate NoReservedName(ts: Tensors) {
    forall i :: 0 <= i < |ts| ==> ts[i].0 != MetadataKey
  }

  /** The names of the first `n` tensors, in order. */
  function NameList(ts: Tensors, n: nat): (ks: seq<string>)
    requires n <= |ts|
    ensures |ks| == n && forall i :: 0 <= i < n ==> ks[i] == ts[i].0
  {
    if n == 0 then [] else NameList(ts, n - 1) + [ts[n - 1].0]
  }

  // ----- the data segment -----

  /** With sizes that match, the running offsets never decrease. */
  lemma {:induction false} OffsetsGrow(ts: Tensors, n: nat, i: nat)
    requires n <= |ts| && AllEncode(ts, n) && SizesMatch(ts) && i <= n
    ensures 0 <= Offset(ts, i) <= Offset(ts, n)
  {
    if i < n {
      assert Encodes(ts[n - 1].1);
      assert AllEncode(ts, n - 1);
      OffsetsGrow(ts, n - 1, i);
    } else if n > 0 {
      OffsetsGrow(ts, n - 1, 0);
      assert Encodes(ts[n - 1].1);
    }
  }

  /** The data segment is as long as the tensors' byte counts added up. */
  lemma {:induction false} PayloadLength(ts: Tensors, n: nat)
    requires n <= |ts| && AllEncode(ts, n) && SizesMatch(ts)
    ensures |Payload(ts, n)| == Offset(ts, n)
  {
    if n > 0 {
      assert AllEncode(ts, n - 1);
      assert Encodes(ts[n - 1].1);
      PayloadLength(ts, n - 1);
    }
  }

  /** Tensor `i`'s bytes sit at `[Offset(i), Offset(i + 1))` of the data
      segment. */
  lemma {:induction false} PayloadSlice(ts: Tensors, n: nat, i: nat)
    requires n <= |ts| && AllEncode(ts, n) && SizesMatch(ts) && i < n
    ensures 0 <= Offset(ts, i) <= Offset(ts, i + 1) <= |Payload(ts, n)|
    ensures Payload(ts, n)[Offset(ts, i)..Offset(ts, i + 1)] == ts[i].1.data.value
  {
    assert AllEncode(ts, n - 1);
    assert Encodes(ts[n - 1].1);
    PayloadLength(ts, n);
    PayloadLength(ts, n - 1);
    OffsetsGrow(ts, n, i);
    OffsetsGrow(ts, n, i + 1);
    if i < n - 1 {
      PayloadSlice(ts, n - 1, i);
      assert Payload(ts, n) == Payload(ts, n - 1) + ts[n - 1].1.data.value;
    }
  }

  // ----- the header -----

  /** Where each tensor sits in the encoded header. */
  lemma EntryOfTensor(ts: Tensors, metadata: Option<map<string, string>>, i: nat)
    requires DistinctNames(ts) && NoReservedName(ts) && EncodePrefix(ts).Ok? && i < |ts|
    ensures AllEncode(ts, |ts|)
    ensures ts[i].0 in EncodedHeader(ts, metadata)
    ensures TensorDataAt(ts[i].1, Offset(ts, i)).Ok?
    ensures EncodedHeader(ts, metadata)[ts[i].0] == Tensor(TensorDataAt(ts[i].1, Offset(ts, i)).value)
    ensures EncodedHeader(ts, metadata)[ts[i].0].data.dataOffsets == OffsetRange(Offset(ts, i), Offset(ts, i + 1))
  {
    assert ts[..|ts|] == ts;
    EncodeLayout(ts, |ts|);
    var g := EncodePrefix(ts).value.header;
    assert Placed(ts, i, g);
    assert ts[i].0 != MetadataKey;
    DescriptorAtOffset(ts, |ts|, i);
    EncodeMetadata(g, metadata);
  }

  /** The encoded header's keys: the tensors' names, and the reserved key
      when metadata is given. */
  lemma HeaderKeys(ts: Tensors, metadata: Option<map<string, string>>)
    requires DistinctNames(ts) && EncodePrefix(ts).Ok?
    ensures EncodedHeader(ts, metadata).Keys
         == NameSet(ts, |ts|) + (if metadata.Some? then {MetadataKey} else {})
  {
    assert ts[..|ts|] == ts;
    EncodeLayout(ts, |ts|);
    EncodeMetadata(EncodePrefix(ts).value.header, metadata);
  }

  /** Every element of the encoded header is admissible at its key. */
  lemma HeaderAdmissible(ts: Tensors, metadata: Option<map<string, string>>)
    requires DistinctNames(ts) && NoReservedName(ts) && ShapesFit(ts) && EncodePrefix(ts).Ok?
    ensures AdmissibleHeader(EncodedHeader(ts, metadata))
  {
    var h := EncodedHeader(ts, metadata);
    HeaderKeys(ts, metadata);
    forall k | k in h ensures Admissible(k, h[k]) {
      if k != MetadataKey || metadata.None? {
        assert k in NameSet(ts, |ts|);
        var i :| 0 <= i < |ts| && ts[i].0 == k;
        EntryOfTensor(ts, metadata, i);
        assert IsInt(Offset(ts, i)) && IsInt(Offset(ts, i + 1));
      } else {
        EncodeMetadata(EncodePrefix(ts).value.header, metadata);
      }
    }
  }

  /** Distinct names make the name listing a listing of the name set. */
  lemma NameListCountsOnce(ts: Tensors, n: nat)
    requires n <= |ts| && DistinctNames(ts)
    ensures multiset(NameList(ts, n)) == multiset(NameSet(ts, n))
  {
    var ks := NameList(ts, n);
    assert NameSet(ts, n) == set k | k in ks;
    DistinctCountsOnce(ks);
  }

  /** A sequence without repetitions counts each of its elements once. */
  lemma {:induction false} DistinctCountsOnce(ks: seq<string>)
    requires forall i, j :: 0 <= i < j < |ks| ==> ks[i] != ks[j]
    ensures multiset(ks) == multiset(set k | k in ks)
  {
    if ks != [] {
      var init := ks[..|ks| - 1];
      var x := ks[|ks| - 1];
      assert ks == init + [x];
      DistinctCountsOnce(init);
      assert x !in init by {
        forall i | 0 <= i < |init| ensures init[i] != x {
          assert init[i] == ks[i];
        }
      }
      assert (set k | k in ks) == (set k | k in init) + {x};
      MultisetOfAddition((set k | k in init), x);
    }
  }

  lemma MultisetOfAddition(s: set<string>, x: string)
    requires x !in s
    ensures multiset(s + {x}) == multiset(s) + multiset{x}
  {
    forall y ensures multiset(s + {x})[y] == (multiset(s) + multiset{x})[y] {
      if y == x {
        assert y in s + {x};
      }
    }
  }

  /** A listing of the encoded header's keys: the names, then the reserved
      key when metadata is given. */
  function KeyListing(ts: Tensors, metadata: Option<map<string, string>>): seq<string> {
    NameList(ts, |ts|) + (if metadata.Some? then [MetadataKey] else [])
  }

  lemma KeyListingIsEnumeration(ts: Tensors, metadata: Option<map<string, string>>)
    requires DistinctNames(ts) && NoReservedName(ts) && EncodePrefix(ts).Ok?
    ensures multiset(KeyListing(ts, metadata)) == multiset(EncodedHeader(ts, metadata).Keys)
  {
    HeaderKeys(ts, metadata);
    NameListCountsOnce(ts, |ts|);
    if metadata.Some? {
      assert MetadataKey !in NameSet(ts, |ts|);
      assert multiset(NameSet(ts, |ts|) + {MetadataKey}) == multiset(NameSet(ts, |ts|)) + multiset{MetadataKey};
    } else {
      assert KeyListing(ts, metadata) == NameList(ts, |ts|);
    }
  }

  /** Each tensor's entry in `h` is a descriptor whose range runs from its
      running offset to the next. */
  predicate HoldsChain(ts: Tensors, h: Header)
    requires AllEncode(ts, |ts|)
  {
    forall j :: 0 <= j < |ts| ==>
      && ts[j].0 in h && h[ts[j].0].Tensor?
      && h[ts[j].0].data.dataOffsets == OffsetRange(Offset(ts, j), Offset(ts, j + 1))
  }

  lemma EncodedHeaderHoldsChain(ts: Tensors, metadata: Option<map<string, string>>)
    requires DistinctNames(ts) && NoReservedName(ts) && EncodePrefix(ts).Ok?
    ensures AllEncode(ts, |ts|)
    ensures HoldsChain(ts, EncodedHeader(ts, metadata))
  {
    assert ts[..|ts|] == ts;
    EncodeLayout(ts, |ts|);
    forall j | 0 <= j < |ts|
      ensures && ts[j].0 in EncodedHeader(ts, metadata) && EncodedHeader(ts, metadata)[ts[j].0].Tensor?
              && EncodedHeader(ts, metadata)[ts[j].0].data.dataOffsets == OffsetRange(Offset(ts, j), Offset(ts, j + 1))
    {
      EntryOfTensor(ts, metadata, j);
    }
  }

  /** Visiting the first `n` names gives the range chain of the first `n`
      tensors. */
  lemma {:induction false} RangesOfNames(ts: Tensors, h: Header, n: nat)
    requires AllEncode(ts, |ts|) && HoldsChain(ts, h) && n <= |ts|
    ensures |RangesIn(h, NameList(ts, n))| == n
    ensures forall i :: 0 <= i < n ==> RangesIn(h, NameList(ts, n))[i] == OffsetRange(Offset(ts, i), Offset(ts, i + 1))
  {
    if n > 0 {
      RangesOfNames(ts, h, n - 1);
      RangesInConcat(h, NameList(ts, n - 1), [ts[n - 1].0]);
      assert RangesIn(h, [ts[n - 1].0]) == [OffsetRange(Offset(ts, n - 1), Offset(ts, n))];
    }
  }

  /** With sizes that match, each tensor ends at or after its start. */
  lemma OffsetStep(ts: Tensors, i: nat)
    requires AllEncode(ts, |ts|) && SizesMatch(ts) && i < |ts|
    ensures Offset(ts, i) <= Offset(ts, i + 1)
  {
    assert Encodes(ts[i].1);
    assert |ts[i].1.data.value| == ByteCount(ts[i].1).value;
  }

  /** The chain of running offsets is a well-formed tiling of their
      total. */
  lemma {:induction false} OffsetChainTiles(ts: Tensors, rs: seq<OffsetRange>)
    requires |ts| > 0 && AllEncode(ts, |ts|) && SizesMatch(ts) && |rs| == |ts|
    requires forall i :: 0 <= i < |ts| ==> rs[i] == OffsetRange(Offset(ts, i), Offset(ts, i + 1))
    ensures Validation.WellFormed(rs) && Validation.Tiles(rs, Offset(ts, |ts|))
  {
    forall i | 0 <= i < |rs| ensures rs[i].start <= rs[i].end {
      OffsetStep(ts, i);
    }
    assert rs[0] == OffsetRange(Offset(ts, 0), Offset(ts, 1));
    assert Offset(ts, 0) == 0;
    assert rs[|rs| - 1].end == Offset(ts, |ts|);
    forall i | 0 <= i < |rs| - 1 ensures rs[i].end == rs[i + 1].start {
      assert rs[i] == OffsetRange(Offset(ts, i), Offset(ts, i + 1));
      assert rs[i + 1] == OffsetRange(Offset(ts, i + 1), Offset(ts, i + 2));
    }
  }

  /** The ranges of the names, in order, are a well-formed tiling of the
      data segment. */
  lemma ChainTiles(ts: Tensors, h: Header)
    requires |ts| > 0 && AllEncode(ts, |ts|) && SizesMatch(ts) && HoldsChain(ts, h)
    ensures var rs := RangesIn(h, NameList(ts, |ts|));
      Validation.WellFormed(rs) && Validation.Tiles(rs, |Payload(ts, |ts|)|)
  {
    RangesOfNames(ts, h, |ts|);
    OffsetChainTiles(ts, RangesIn(h, NameList(ts, |ts|)));
    PayloadLength(ts, |ts|);
  }

  /** The same for the whole listing of the encoded header's keys: the
      metadata entry adds no range. */
  lemma EncodedRangesTile(ts: Tensors, metadata: Option<map<string, string>>)
    requires |ts| > 0 && DistinctNames(ts) && NoReservedName(ts) && SizesMatch(ts) && EncodePrefix(ts).Ok?
    ensures AllEncode(ts, |ts|)
    ensures var rs := RangesIn(EncodedHeader(ts, metadata), KeyListing(ts, metadata));
      Validation.WellFormed(rs) && Validation.Tiles(rs, |Payload(ts, |ts|)|)
  {
    var h := EncodedHeader(ts, metadata);
    var n := |ts|;
    EncodedHeaderHoldsChain(ts, metadata);
    ChainTiles(ts, h);
    var extra := if metadata.Some? then [MetadataKey] else [];
    RangesInConcat(h, NameList(ts, n), extra);
    if metadata.Some? {
      EncodeMetadata(EncodePrefix(ts).value.header, metadata);
      assert RangesIn(h, [MetadataKey]) == [];
    } else {
      assert RangesIn(h, []) == [];
    }
    assert RangesIn(h, KeyListing(ts, metadata)) == RangesIn(h, NameList(ts, n));
  }

  // ----- the round trip -----

  /** `decode(encode(T, M))` is the container of the encoded bytes, with the
      header `encode` built, whenever the JSON coders agree on that header,
      there is at least one tensor, no name is the reserved key and every
      `toData()` has the tensor's byte count. */
  lemma DecodeEncode(ts: Tensors, metadata: Option<map<string, string>>, write: JsonWriter, parse: JsonReader)
    requires |ts| > 0 && DistinctNames(ts) && NoReservedName(ts)
    requires SizesMatch(ts) && ShapesFit(ts)
    requires EncodeSpec(ts, metadata, write).Ok?
    requires RoundTrips(parse, write, HeaderToJson(EncodedHeader(ts, metadata)))
    ensures var out := EncodeSpec(ts, metadata, write).value;
      var json := write(HeaderToJson(EncodedHeader(ts, metadata)));
      && |out| <= IntMax
      && Decode(out, parse) == Ok(Container(PrefixSize + |json|, EncodedHeader(ts, metadata), out))
  {
    var h := EncodedHeader(ts, metadata);
    var json := write(HeaderToJson(h));
    EncodeOutput(ts, metadata, write);
    EncodedHeaderSound(ts, metadata);
    DecodeFramed(EncodeSpec(ts, metadata, write).value, json, Payload(ts, |ts|), parse, h);
  }

  /** The JSON form of the encoded header decodes back to it, and the
      corrected `validate` accepts it against the data segment. */
  lemma EncodedHeaderSound(ts: Tensors, metadata: Option<map<string, string>>)
    requires |ts| > 0 && DistinctNames(ts) && NoReservedName(ts) && SizesMatch(ts) && ShapesFit(ts)
    requires EncodePrefix(ts).Ok?
    ensures AllEncode(ts, |ts|)
    ensures DecodeHeaderMap(HeaderToJson(EncodedHeader(ts, metadata)), Current) == Ok(EncodedHeader(ts, metadata))
    ensures Validation.Validate(EncodedHeader(ts, metadata), |Payload(ts, |ts|)|).Ok?
  {
    HeaderAdmissible(ts, metadata);
    HeaderRoundTrip(EncodedHeader(ts, metadata));
    EncodedHeaderValid(ts, metadata);
  }

  /** The corrected `validate` accepts the encoded header against the data
      segment. */
  lemma EncodedHeaderValid(ts: Tensors, metadata: Option<map<string, string>>)
    requires |ts| > 0 && DistinctNames(ts) && NoReservedName(ts) && SizesMatch(ts) && EncodePrefix(ts).Ok?
    ensures AllEncode(ts, |ts|)
    ensures Validation.Validate(EncodedHeader(ts, metadata), |Payload(ts, |ts|)|).Ok?
  {
    KeyListingIsEnumeration(ts, metadata);
    EncodedRangesTile(ts, metadata);
    Validation.ValidateComplete(EncodedHeader(ts, metadata), |Payload(ts, |ts|)|, KeyListing(ts, metadata));
  }

  /** The decoded container's metadata is the metadata given to `encode`. */
  lemma DecodeEncodeMetadata(ts: Tensors, metadata: Option<map<string, string>>, write: JsonWriter, parse: JsonReader)
    requires |ts| > 0 && DistinctNames(ts) && NoReservedName(ts)
    requires SizesMatch(ts) && ShapesFit(ts)
    requires EncodeSpec(ts, metadata, write).Ok?
    requires RoundTrips(parse, write, HeaderToJson(EncodedHeader(ts, metadata)))
    ensures |EncodeSpec(ts, metadata, write).value| <= IntMax
    ensures Decode(EncodeSpec(ts, metadata, write).value, parse).Ok?
    ensures Containers.Metadata(Decode(EncodeSpec(ts, metadata, write).value, parse).value) == metadata
  {
    DecodeEncode(ts, metadata, write, parse);
    HeaderKeys(ts, metadata);
    EncodeMetadata(EncodePrefix(ts).value.header, metadata);
    if metadata.None? {
      assert MetadataKey !in NameSet(ts, |ts|);
    }
  }

  /** Each tensor decodes to the descriptor `tensorData(at:)` gave it. */
  lemma DecodeEncodeDescriptor(ts: Tensors, metadata: Option<map<string, string>>, write: JsonWriter, parse: JsonReader, i: nat)
    requires |ts| > 0 && DistinctNames(ts) && NoReservedName(ts)
    requires SizesMatch(ts) && ShapesFit(ts)
    requires EncodeSpec(ts, metadata, write).Ok?
    requires RoundTrips(parse, write, HeaderToJson(EncodedHeader(ts, metadata)))
    requires i < |ts|
    ensures |EncodeSpec(ts, metadata, write).value| <= IntMax
    ensures Decode(EncodeSpec(ts, metadata, write).value, parse).Ok?
    ensures AllEncode(ts, |ts|)
    ensures TensorDataAt(ts[i].1, Offset(ts, i)).Ok?
    ensures Containers.TensorData(Decode(EncodeSpec(ts, metadata, write).value, parse).value, ts[i].0)
         == Ok(TensorDataAt(ts[i].1, Offset(ts, i)).value)
  {
    DecodeEncode(ts, metadata, write, parse);
    EntryOfTensor(ts, metadata, i);
  }

  /** In a validated container whose buffer is a prefix of `headerOffset`
      bytes and then a data segment, a tensor's bytes are its range of the
      data segment. */
  lemma SegmentSlice(c: Container, key: string, prefix: Bytes, segment: Bytes)
    requires c.rawData == prefix + segment && c.headerOffset == |prefix| && |c.rawData| <= IntMax
    requires Validation.Validate(c.header, |segment|).Ok?
    requires key in c.header && c.header[key].Tensor?
    ensures var r := c.header[key].data.dataOffsets;
      && 0 <= r.start <= r.end <= |segment|
      && TensorBytes(c, key, false) == Ok(segment[r.start..r.end])
  {
    var r := c.header[key].data.dataOffsets;
    assert |c.rawData| - c.headerOffset == |segment|;
    ValidatedSlicesInBounds(c, key, false);
    assert c.rawData[c.headerOffset + r.start..c.headerOffset + r.end] == segment[r.start..r.end];
  }

  /** Reading a tensor of the decoded container gives back the bytes its
      `toData()` returned. */
  lemma DecodeEncodeBytes(ts: Tensors, metadata: Option<map<string, string>>, write: JsonWriter, parse: JsonReader, i: nat)
    requires |ts| > 0 && DistinctNames(ts) && NoReservedName(ts)
    requires SizesMatch(ts) && ShapesFit(ts)
    requires EncodeSpec(ts, metadata, write).Ok?
    requires RoundTrips(parse, write, HeaderToJson(EncodedHeader(ts, metadata)))
    requires i < |ts|
    ensures |EncodeSpec(ts, metadata, write).value| <= IntMax
    ensures Decode(EncodeSpec(ts, metadata, write).value, parse).Ok?
    ensures AllEncode(ts, |ts|)
    ensures TensorBytes(Decode(EncodeSpec(ts, metadata, write).value, parse).value, ts[i].0, false)
         == Ok(ts[i].1.data.value)
  {
    DecodeEncode(ts, metadata, write, parse);
    EncodedTensorBytes(ts, metadata, write, i);
  }

  /** In the container `encode`'s output frames, each tensor's bytes are
      the bytes its `toData()` returned. */
  lemma EncodedTensorBytes(ts: Tensors, metadata: Option<map<string, string>>, write: JsonWriter, i: nat)
    requires |ts| > 0 && DistinctNames(ts) && NoReservedName(ts)
    requires SizesMatch(ts) && EncodeSpec(ts, metadata, write).Ok? && i < |ts|
    ensures AllEncode(ts, |ts|)
    ensures var json := write(HeaderToJson(EncodedHeader(ts, metadata)));
      var c := Container(PrefixSize + |json|, EncodedHeader(ts, metadata), EncodeSpec(ts, metadata, write).value);
      TensorBytes(c, ts[i].0, false) == Ok(ts[i].1.data.value)
  {
    EntryOfTensor(ts, metadata, i);
    EncodedHeaderValid(ts, metadata);
    var out := EncodeSpec(ts, metadata, write).value;
    var h := EncodedHeader(ts, metadata);
    var json := write(HeaderToJson(h));
    var c := Container(PrefixSize + |json|, h, out);
    EncodeOutput(ts, metadata, write);
    var prefix := StoreU64(|json|) + json;
    assert out == prefix + Payload(ts, |ts|);
    SegmentSlice(c, ts[i].0, prefix, Payload(ts, |ts|));
    PayloadSlice(ts, |ts|, i);
  }
}
