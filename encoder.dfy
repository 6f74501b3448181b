/** `encode(_:metadata:)` of Safetensors.swift: lay the tensors out back to
    back, build the header, and frame it. The dictionary of tensors is
    visited in an unspecified order; here it is the order of the sequence. */
module Encoder {
  import opened Wrappers
  import opened Errors
  import opened Bytes
  import opened Json
  import opened OffsetRanges
  import opened HeaderElements
  import opened Headers
  import opened Encodables
  import Descriptors

  type Tensors = seq<(string, Encodable)>

  /** The loop's state: `headerData`, the concatenated `tensorData` and
      `previousOffset`. */
  datatype Encoding = Encoding(header: Header, bytes: Bytes, offset: int)

  /** One iteration: `scalarSize() * scalarCount`, then `dtype()`, then
      `tensorByteCount + previousOffset`, then `toData()`. */
  function EncodeStep(acc: Encoding, name: string, e: Encodable): (r: Result<Encoding, Error>)
    ensures r.Ok? <==> Encodes(e) && IsInt(ByteCount(e).value + acc.offset)
    ensures r.Ok? ==>
      && r.value.offset == acc.offset + ByteCount(e).value
      && r.value.bytes == acc.bytes + e.data.value
      && r.value.header == acc.header[name := Tensor(TensorDataAt(e, acc.offset).value)]
  {
    var count :- ByteCount(e);
    var dtype :- e.dtype;
    if !IsInt(count + acc.offset) then Err(Trap)
    else
      var td := Descriptors.TensorData(dtype, e.tensorShape, OffsetRange(acc.offset, count + acc.offset));
      var data :- e.data;
      Ok(Encoding(acc.header[name := Tensor(td)], acc.bytes + data, acc.offset + count))
  }

  /** The loop run over the first tensors. */
  function EncodePrefix(ts: Tensors): Result<Encoding, Error>
  {
    if ts == [] then Ok(Encoding(map[], [], 0))
    else
      var acc :- EncodePrefix(ts[..|ts| - 1]);
      EncodeStep(acc, ts[|ts| - 1].0, ts[|ts| - 1].1)
  }

  /** The header after the loop, with the metadata put in last. */
  function WithMetadata(h: Header, metadata: Option<map<string, string>>): (r: Header)
    ensures metadata.None? ==> r == h
    ensures metadata.Some? ==> r == h[MetadataKey := HeaderElements.Metadata(metadata)]
  {
    if metadata.Some? then h[MetadataKey := HeaderElements.Metadata(metadata)] else h
  }

  /** What `encode` returns: the 8-byte count of the JSON header, the
      header, and the tensors' bytes. A result longer than `Int.max`
      cannot be built. */
  function EncodeSpec(ts: Tensors, metadata: Option<map<string, string>>, write: JsonWriter)
    : Result<Bytes, Error>
  {
    var enc :- EncodePrefix(ts);
    var json := write(HeaderToJson(WithMetadata(enc.header, metadata)));
    if PrefixSize + |json| + |enc.bytes| > IntMax then Err(Trap)
    else Ok(StoreU64(|json|) + json + enc.bytes)
  }

  /** The loop of `encode` itself. */
  method Encode(ts: Tensors, metadata: Option<map<string, string>>, write: JsonWriter)
    returns (r: Result<Bytes, Error>)
    ensures r == EncodeSpec(ts, metadata, write)
  {
    var headerData: Header := map[];
    var previousOffset := 0;
    var tensorData: Bytes := [];
    var i := 0;
    while i < |ts|
      invariant 0 <= i <= |ts|
      invariant EncodePrefix(ts[..i]) == Ok(Encoding(headerData, tensorData, previousOffset))
    {
      PrefixStepOk(ts, i, Encoding(headerData, tensorData, previousOffset));
      var (key, tensor) := ts[i];
      if tensor.scalarSize.Err? {
        PrefixFailurePersists(ts, i + 1);
        return Err(tensor.scalarSize.error);
      }
      var size := tensor.scalarSize.value;
      if !IsInt(size * tensor.scalarCount) {
        PrefixFailurePersists(ts, i + 1);
        return Err(Trap);
      }
      var tensorByteCount := size * tensor.scalarCount;
      if tensor.dtype.Err? {
        PrefixFailurePersists(ts, i + 1);
        return Err(tensor.dtype.error);
      }
      if !IsInt(tensorByteCount + previousOffset) {
        PrefixFailurePersists(ts, i + 1);
        return Err(Trap);
      }
      var tensorHeaderData := Descriptors.TensorData(
        tensor.dtype.value, tensor.tensorShape, OffsetRange(previousOffset, tensorByteCount + previousOffset));
      previousOffset := previousOffset + tensorByteCount;
      headerData := headerData[key := Tensor(tensorHeaderData)];
      if tensor.data.Err? {
        PrefixFailurePersists(ts, i + 1);
        return Err(tensor.data.error);
      }
      tensorData := tensorData + tensor.data.value;
      i := i + 1;
    }
    assert ts[..|ts|] == ts;
    headerData := WithMetadata(headerData, metadata);
    var header := write(HeaderToJson(headerData));
    if PrefixSize + |header| + |tensorData| > IntMax {
      return Err(Trap);
    }
    return Ok(StoreU64(|header|) + header + tensorData);
  }

  /** After `i` successful iterations the next one runs from their state. */
  lemma PrefixStepOk(ts: Tensors, i: nat, acc: Encoding)
    requires i < |ts| && EncodePrefix(ts[..i]) == Ok(acc)
    ensures EncodePrefix(ts[..i + 1]) == EncodeStep(acc, ts[i].0, ts[i].1)
  {
    assert ts[..i + 1][..i] == ts[..i];
  }

  /** Once the loop fails on a tensor, `encode` fails with that error. */
  lemma {:induction false} PrefixFailurePersists(ts: Tensors, k: nat)
    requires k <= |ts| && EncodePrefix(ts[..k]).Err?
    ensures EncodePrefix(ts) == EncodePrefix(ts[..k])
    decreases |ts| - k
  {
    if k < |ts| {
      var init := ts[..|ts| - 1];
      assert init[..k] == ts[..k];
      PrefixFailurePersists(init, k);
    } else {
      assert ts[..k] == ts;
    }
  }

  // ----- the layout the loop produces -----

  /** The byte counts of the first `i` tensors, added up. */
  function Offset(ts: Tensors, i: nat): int
    requires i <= |ts|
    requires forall j :: 0 <= j < i ==> ByteCount(ts[j].1).Ok?
  {
    if i == 0 then 0 else Offset(ts, i - 1) + ByteCount(ts[i - 1].1).value
  }

  /** The first `n` tensors encode and no running offset overflows. */
  predicate AllEncode(ts: Tensors, n: nat)
    requires n <= |ts|
  {
    && (forall j :: 0 <= j < n ==> Encodes(ts[j].1))
    && (forall j :: 0 <= j <= n ==> IsInt(Offset(ts, j)))
  }

  predicate DistinctNames(ts: Tensors) {
    forall i, j :: 0 <= i < j < |ts| ==> ts[i].0 != ts[j].0
  }

  /** The names of the first `n` tensors. */
  function NameSet(ts: Tensors, n: nat): (r: set<string>)
    requires n <= |ts|
    ensures forall x :: x in r <==> exists i :: 0 <= i < n && ts[i].0 == x
  {
    if n == 0 then {} else NameSet(ts, n - 1) + {ts[n - 1].0}
  }

  /** The concatenated `toData()` outputs of the first `n` tensors. */
  function Payload(ts: Tensors, n: nat): Bytes
    requires n <= |ts|
    requires forall j :: 0 <= j < n ==> ts[j].1.data.Ok?
  {
    if n == 0 then [] else Payload(ts, n - 1) + ts[n - 1].1.data.value
  }

  /** The loop over the first `n` tensors succeeds exactly when they all
      encode and no running offset overflows; it then leaves their total
      byte count in `previousOffset` and their data in `tensorData`. */
  lemma {:induction false} EncodeSucceeds(ts: Tensors, n: nat)
    requires n <= |ts|
    ensures EncodePrefix(ts[..n]).Ok? <==> AllEncode(ts, n)
    ensures EncodePrefix(ts[..n]).Ok? ==> EncodePrefix(ts[..n]).value.offset == Offset(ts, n)
    ensures EncodePrefix(ts[..n]).Ok? ==> EncodePrefix(ts[..n]).value.bytes == Payload(ts, n)
  {
    if n > 0 {
      assert ts[..n][..n - 1] == ts[..n - 1];
      assert ts[..n][n - 1] == ts[n - 1];
      EncodeSucceeds(ts, n - 1);
      AllEncodeStep(ts, n);
    }
  }

  lemma AllEncodeStep(ts: Tensors, n: nat)
    requires 0 < n <= |ts|
    ensures AllEncode(ts, n) <==>
      && AllEncode(ts, n - 1)
      && Encodes(ts[n - 1].1)
      && IsInt(ByteCount(ts[n - 1].1).value + Offset(ts, n - 1))
  {
    if AllEncode(ts, n - 1) && Encodes(ts[n - 1].1) {
      assert forall j :: 0 <= j < n ==> Encodes(ts[j].1) by {
        forall j | 0 <= j < n ensures Encodes(ts[j].1) {
          if j < n - 1 { assert Encodes(ts[j].1); }
        }
      }
      assert Offset(ts, n) == Offset(ts, n - 1) + ByteCount(ts[n - 1].1).value;
    }
  }

  /** The descriptor `tensorData(at:)` gives a tensor at its running
      offset: the first starts at 0, each spans its byte count, and each
      starts where the previous ends. */
  lemma DescriptorAtOffset(ts: Tensors, n: nat, i: nat)
    requires n <= |ts| && AllEncode(ts, n) && i < n
    ensures TensorDataAt(ts[i].1, Offset(ts, i)).Ok?
    ensures TensorDataAt(ts[i].1, Offset(ts, i)).value.dataOffsets == OffsetRange(Offset(ts, i), Offset(ts, i + 1))
  {
    assert Encodes(ts[i].1);
    assert IsInt(Offset(ts, i + 1));
  }

  /** The `i`-th tensor has, at its name, the descriptor `tensorData(at:)`
      gives for its running offset. */
  predicate Placed(ts: Tensors, i: nat, h: Header)
    requires i < |ts| && forall j :: 0 <= j < i ==> ByteCount(ts[j].1).Ok?
  {
    && ts[i].0 in h
    && TensorDataAt(ts[i].1, Offset(ts, i)).Ok?
    && h[ts[i].0] == Tensor(TensorDataAt(ts[i].1, Offset(ts, i)).value)
  }

  /** Each of the first `n` tensors is placed. */
  predicate LaidOut(ts: Tensors, n: nat, h: Header)
    requires n <= |ts| && AllEncode(ts, n)
  {
    forall i :: 0 <= i < n ==> Placed(ts, i, h)
  }

  lemma LaidOutStep(ts: Tensors, n: nat, g: Header)
    requires 0 < n <= |ts| && DistinctNames(ts) && AllEncode(ts, n) && AllEncode(ts, n - 1)
    requires LaidOut(ts, n - 1, g)
    requires TensorDataAt(ts[n - 1].1, Offset(ts, n - 1)).Ok?
    ensures LaidOut(ts, n, g[ts[n - 1].0 := Tensor(TensorDataAt(ts[n - 1].1, Offset(ts, n - 1)).value)])
  {
    var h := g[ts[n - 1].0 := Tensor(TensorDataAt(ts[n - 1].1, Offset(ts, n - 1)).value)];
    forall i | 0 <= i < n
      ensures Placed(ts, i, h)
    {
      if i < n - 1 {
        assert Placed(ts, i, g);
        assert ts[i].0 != ts[n - 1].0;
      }
    }
  }

  lemma {:induction false} EncodeLayout(ts: Tensors, n: nat)
    requires n <= |ts| && DistinctNames(ts) && EncodePrefix(ts[..n]).Ok?
    ensures AllEncode(ts, n)
    ensures EncodePrefix(ts[..n]).value.header.Keys == NameSet(ts, n)
    ensures LaidOut(ts, n, EncodePrefix(ts[..n]).value.header)
  {
    EncodeSucceeds(ts, n);
    if n > 0 {
      PrefixStep(ts, n);
      EncodeSucceeds(ts, n - 1);
      EncodeLayout(ts, n - 1);
      AllEncodeStep(ts, n);
      LayoutStep(ts, n, EncodePrefix(ts[..n - 1]).value);
    }
  }

  /** The loop over the first `n` tensors is the loop over the first
      `n - 1` followed by one iteration. */
  lemma PrefixStep(ts: Tensors, n: nat)
    requires 0 < n <= |ts|
    ensures EncodePrefix(ts[..n]) ==
      (var acc :- EncodePrefix(ts[..n - 1]); EncodeStep(acc, ts[n - 1].0, ts[n - 1].1))
  {
    var p := ts[..n];
    assert p[..n - 1] == ts[..n - 1];
    assert p[n - 1] == ts[n - 1];
  }

  /** One iteration adds the `n`-th tensor's name and its descriptor at
      the running offset, and keeps what the earlier ones laid out. */
  lemma LayoutStep(ts: Tensors, n: nat, acc: Encoding)
    requires 0 < n <= |ts| && DistinctNames(ts) && AllEncode(ts, n) && AllEncode(ts, n - 1)
    requires acc.offset == Offset(ts, n - 1)
    requires acc.header.Keys == NameSet(ts, n - 1) && LaidOut(ts, n - 1, acc.header)
    requires EncodeStep(acc, ts[n - 1].0, ts[n - 1].1).Ok?
    ensures EncodeStep(acc, ts[n - 1].0, ts[n - 1].1).value.header.Keys == NameSet(ts, n)
    ensures LaidOut(ts, n, EncodeStep(acc, ts[n - 1].0, ts[n - 1].1).value.header)
  {
    DescriptorAtOffset(ts, n, n - 1);
    LaidOutStep(ts, n, acc.header);
  }

  /** `encode`'s output is the count of the JSON header in 8 bytes, the
      header, then the tensors' bytes in order. */
  lemma EncodeOutput(ts: Tensors, metadata: Option<map<string, string>>, write: JsonWriter)
    requires EncodeSpec(ts, metadata, write).Ok?
    ensures AllEncode(ts, |ts|)
    ensures var json := write(HeaderToJson(WithMetadata(EncodePrefix(ts).value.header, metadata)));
      && EncodeSpec(ts, metadata, write).value == StoreU64(|json|) + json + Payload(ts, |ts|)
      && LoadU64(EncodeSpec(ts, metadata, write).value) == |json|
      && PrefixSize + |json| + |Payload(ts, |ts|)| <= IntMax
  {
    assert ts[..|ts|] == ts;
    EncodeSucceeds(ts, |ts|);
    var json := write(HeaderToJson(WithMetadata(EncodePrefix(ts).value.header, metadata)));
    var out := EncodeSpec(ts, metadata, write).value;
    assert out[..PrefixSize] == StoreU64(|json|)[..PrefixSize];
    LoadU64Prefix(out, StoreU64(|json|));
    LoadStoreU64(|json|);
  }

  /** The metadata, when given, is the header's entry at the reserved key,
      put in after the tensors; the tensors' entries stay as they were
      unless one of them has the reserved name. */
  lemma EncodeMetadata(h: Header, metadata: Option<map<string, string>>)
    ensures metadata.Some? ==> WithMetadata(h, metadata)[MetadataKey] == HeaderElements.Metadata(metadata)
    ensures forall k :: k in h && k != MetadataKey ==> k in WithMetadata(h, metadata) && WithMetadata(h, metadata)[k] == h[k]
    ensures WithMetadata(h, metadata).Keys == h.Keys + (if metadata.Some? then {MetadataKey} else {})
  {
  }
}
