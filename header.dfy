/** The header: a dictionary from names to elements, and its decoding from
    the parsed JSON value, whose iteration order is not specified. */
module Headers {
  import opened Wrappers
  import opened Errors
  import opened Json
  import opened DTypes
  import opened OffsetRanges
  import opened HeaderElements

  /** `[String: HeaderElement]`. */
  type Header = map<string, HeaderElement>

  /** Which revision of `HeaderElement.init(from:)` decodes the entries. */
  datatype Revision =
    | Current   // HeaderElement.swift, with the reserved-key check
    | Legacy    // Safetensors.swift
    | Typed     // Enums/HeaderElement.swift over the typed descriptor

  function ClassifyAt(rev: Revision, key: string, v: JsonValue): Result<HeaderElement, Error> {
    match rev
    case Current => Classify(key, v)
    case Legacy => ClassifyLegacy(v)
    case Typed => ClassifyTyped(v)
  }

  /** Encoding the dictionary encodes every element under its key. */
  function HeaderToJson(h: Header): (v: JsonValue)
    ensures v.JObject? && v.fields.Keys == h.Keys
    ensures forall k :: k in h ==> v.fields[k] == HeaderElements.ToJson(h[k])
  {
    JObject(map k | k in h :: HeaderElements.ToJson(h[k]))
  }

  /** The errors an element's decoding can raise. */
  predicate ElementError(e: Error) {
    e == MetadataIncompleteBuffer || e == Trap || e == DecodingError
  }

  /** Decoding `[String: HeaderElement]`: the value must be an object, and
      the dictionary is built when every entry decodes. Entries are visited
      in an unspecified order and the first failure is thrown, so on failure
      the error is that of some failing entry. */
  ghost function DecodeHeaderMap(j: JsonValue, rev: Revision): (r: Result<Header, Error>)
    ensures r.Ok? <==> j.JObject? && forall k :: k in j.fields ==> ClassifyAt(rev, k, j.fields[k]).Ok?
    ensures r.Ok? ==> r.value.Keys == j.fields.Keys
    ensures r.Ok? ==> forall k :: k in r.value ==> ClassifyAt(rev, k, j.fields[k]) == Ok(r.value[k])
    ensures !j.JObject? ==> r == Err(DecodingError)
    ensures r.Err? && j.JObject? ==>
              exists k :: k in j.fields && ClassifyAt(rev, k, j.fields[k]) == Err(r.error)
    ensures r.Err? ==> ElementError(r.error)
  {
    if !j.JObject? then Err(DecodingError)
    else if forall k :: k in j.fields ==> ClassifyAt(rev, k, j.fields[k]).Ok? then
      Ok(map k | k in j.fields :: ClassifyAt(rev, k, j.fields[k]).value)
    else
      var k :| k in j.fields && ClassifyAt(rev, k, j.fields[k]).Err?;
      Err(ClassifyAt(rev, k, j.fields[k]).error)
  }

  /** Every element may be stored at its key in the current revision. */
  predicate AdmissibleHeader(h: Header) {
    forall k :: k in h ==> Admissible(k, h[k])
  }

  /** Every element round-trips through the older revisions. */
  predicate LegacyHeader(h: Header, rev: Revision) {
    forall k :: k in h ==>
      && HeaderElements.Fits(h[k]) && h[k] != Metadata(None)
      && (rev == Typed && h[k].Tensor? ==> FromRawValue(h[k].data.dtype).Some?)
  }

  /** Decoding an encoded header gives it back, in the current revision. */
  lemma HeaderRoundTrip(h: Header)
    requires AdmissibleHeader(h)
    ensures DecodeHeaderMap(HeaderToJson(h), Current) == Ok(h)
  {
    var j := HeaderToJson(h);
    forall k | k in h ensures ClassifyAt(Current, k, j.fields[k]) == Ok(h[k]) {
      HeaderElements.RoundTrip(k, h[k]);
    }
    var r := DecodeHeaderMap(j, Current);
    assert r.Ok?;
    assert r.value == h;
  }

  /** The same for the first and second revisions. */
  lemma HeaderRoundTripLegacy(h: Header, rev: Revision)
    requires rev != Current && LegacyHeader(h, rev)
    ensures DecodeHeaderMap(HeaderToJson(h), rev) == Ok(h)
  {
    var j := HeaderToJson(h);
    forall k | k in h ensures ClassifyAt(rev, k, j.fields[k]) == Ok(h[k]) {
      if rev == Legacy {
        RoundTripLegacy(h[k]);
      } else {
        RoundTripTyped(h[k]);
      }
    }
    var r := DecodeHeaderMap(j, rev);
    assert r.Ok?;
    assert r.value == h;
  }

  /** A key under which the current revision stores metadata is the
      reserved key. */
  lemma MetadataOnlyAtReservedKey(j: JsonValue, k: string)
    requires DecodeHeaderMap(j, Current).Ok?
    requires k in DecodeHeaderMap(j, Current).value
    ensures DecodeHeaderMap(j, Current).value[k].Metadata? ==> k == MetadataKey
  {
    assert ClassifyAt(Current, k, j.fields[k]) == Ok(DecodeHeaderMap(j, Current).value[k]);
  }

  // ----- the tensors' ranges, in some order of the keys -----

  /** Some listing of the dictionary's keys, each once. */
  ghost function Enumeration(h: Header): (ks: seq<string>)
    ensures multiset(ks) == multiset(h.Keys)
    decreases |h|
  {
    if h == map[] then []
    else
      var k :| k in h;
      var rest := h - {k};
      assert h.Keys == rest.Keys + {k};
      [k] + Enumeration(rest)
  }

  /** The `dataOffsets` of the tensor entries, visited in the order `ks`
      (`compactMap { $0.tensorData?.dataOffsets }`). */
  function RangesIn(h: Header, ks: seq<string>): (rs: seq<OffsetRange>)
    ensures |rs| <= |ks|
  {
    if ks == [] then []
    else
      (if ks[0] in h && h[ks[0]].Tensor? then [h[ks[0]].data.dataOffsets] else [])
      + RangesIn(h, ks[1..])
  }

  /** The multiset of the tensors' ranges. */
  ghost function TensorRanges(h: Header): multiset<OffsetRange> {
    multiset(RangesIn(h, Enumeration(h)))
  }

  lemma {:induction false} RangesInConcat(h: Header, ks: seq<string>, ls: seq<string>)
    ensures RangesIn(h, ks + ls) == RangesIn(h, ks) + RangesIn(h, ls)
    decreases |ks|
  {
    if ks == [] {
      assert ks + ls == ls;
    } else {
      assert (ks + ls)[1..] == ks[1..] + ls;
      RangesInConcat(h, ks[1..], ls);
    }
  }

  /** Taking one key out of a listing takes its range out. */
  lemma RangesInRemove(h: Header, ls: seq<string>, i: nat)
    requires i < |ls|
    ensures multiset(RangesIn(h, ls))
         == multiset(RangesIn(h, [ls[i]])) + multiset(RangesIn(h, ls[..i] + ls[i+1..]))
  {
    assert ls == ls[..i] + [ls[i]] + ls[i+1..];
    RangesInConcat(h, ls[..i] + [ls[i]], ls[i+1..]);
    RangesInConcat(h, ls[..i], [ls[i]]);
    RangesInConcat(h, ls[..i], ls[i+1..]);
  }

  lemma MultisetRemove(ls: seq<string>, i: nat)
    requires i < |ls|
    ensures multiset(ls[..i] + ls[i+1..]) == multiset(ls) - multiset{ls[i]}
  {
    assert ls == ls[..i] + [ls[i]] + ls[i+1..];
  }

  /** Visiting the keys in another order permutes the ranges. */
  lemma {:induction false} RangesInPermutation(h: Header, ks: seq<string>, ls: seq<string>)
    requires multiset(ks) == multiset(ls)
    ensures multiset(RangesIn(h, ks)) == multiset(RangesIn(h, ls))
    decreases |ks|
  {
    if ks != [] {
      var k, tail := ks[0], ks[1..];
      assert ks == [k] + tail;
      assert k in multiset(ls);
      var i :| 0 <= i < |ls| && ls[i] == k;
      var rest := ls[..i] + ls[i+1..];
      MultisetRemove(ls, i);
      assert multiset(tail) == multiset(rest);
      RangesInPermutation(h, tail, rest);
      RangesInRemove(h, ls, i);
      RangesInConcat(h, [k], tail);
    }
  }

  /** Every listing of the keys gives the same multiset of ranges. */
  lemma TensorRangesOfAnyEnumeration(h: Header, ks: seq<string>)
    requires multiset(ks) == multiset(h.Keys)
    ensures multiset(RangesIn(h, ks)) == TensorRanges(h)
  {
    RangesInPermutation(h, ks, Enumeration(h));
  }

  /** A tensor entry's range is among the ranges of any listing of its key. */
  lemma {:induction false} RangeOfKeyIsListed(h: Header, ks: seq<string>, k: string)
    requires k in ks && k in h && h[k].Tensor?
    ensures h[k].data.dataOffsets in multiset(RangesIn(h, ks))
    decreases |ks|
  {
    if ks[0] != k {
      RangeOfKeyIsListed(h, ks[1..], k);
    }
  }

  lemma RangeOfKeyIsInTensorRanges(h: Header, k: string)
    requires k in h && h[k].Tensor?
    ensures h[k].data.dataOffsets in TensorRanges(h)
  {
    var ks := Enumeration(h);
    assert k in multiset(ks);
    RangeOfKeyIsListed(h, ks, k);
  }

  /** Two different keys with the same range contribute that range twice. */
  lemma {:induction false} TwoKeysCountTwice(h: Header, ks: seq<string>, k1: string, k2: string)
    requires k1 != k2 && k1 in ks && k2 in ks
    requires k1 in h && h[k1].Tensor? && k2 in h && h[k2].Tensor?
    requires h[k1].data.dataOffsets == h[k2].data.dataOffsets
    ensures multiset(RangesIn(h, ks))[h[k1].data.dataOffsets] >= 2
    decreases |ks|
  {
    var r := h[k1].data.dataOffsets;
    assert ks == [ks[0]] + ks[1..];
    if ks[0] == k1 {
      RangeOfKeyIsListed(h, ks[1..], k2);
    } else if ks[0] == k2 {
      RangeOfKeyIsListed(h, ks[1..], k1);
    } else {
      TwoKeysCountTwice(h, ks[1..], k1, k2);
    }
  }

  lemma TwoKeysInTensorRanges(h: Header, k1: string, k2: string)
    requires k1 != k2 && k1 in h && h[k1].Tensor? && k2 in h && h[k2].Tensor?
    requires h[k1].data.dataOffsets == h[k2].data.dataOffsets
    ensures TensorRanges(h)[h[k1].data.dataOffsets] >= 2
  {
    var ks := Enumeration(h);
    assert k1 in multiset(ks) && k2 in multiset(ks);
    TwoKeysCountTwice(h, ks, k1, k2);
  }

  /** Every listed range belongs to some tensor entry. */
  lemma {:induction false} ListedRangeHasKey(h: Header, ks: seq<string>, r: OffsetRange)
    requires r in multiset(RangesIn(h, ks))
    ensures exists k :: k in ks && k in h && h[k].Tensor? && h[k].data.dataOffsets == r
    decreases |ks|
  {
    if !(ks[0] in h && h[ks[0]].Tensor? && h[ks[0]].data.dataOffsets == r) {
      ListedRangeHasKey(h, ks[1..], r);
      var k :| k in ks[1..] && k in h && h[k].Tensor? && h[k].data.dataOffsets == r;
      assert k in ks;
    }
  }

  lemma TensorRangeHasKey(h: Header, r: OffsetRange)
    requires r in TensorRanges(h)
    ensures exists k :: k in h && h[k].Tensor? && h[k].data.dataOffsets == r
  {
    ListedRangeHasKey(h, Enumeration(h), r);
  }

  /** Only the tensor entries' ranges matter: metadata entries and the
      descriptors' other fields do not. */
  lemma {:induction false} RangesIgnoreOtherFields(h: Header, g: Header, ks: seq<string>)
    requires forall k :: k in ks ==> (k in h && h[k].Tensor?) == (k in g && g[k].Tensor?)
    requires forall k :: k in ks && k in h && h[k].Tensor? ==> h[k].data.dataOffsets == g[k].data.dataOffsets
    ensures RangesIn(h, ks) == RangesIn(g, ks)
    decreases |ks|
  {
    if ks != [] {
      RangesIgnoreOtherFields(h, g, ks[1..]);
    }
  }
}
