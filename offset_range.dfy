/** `OffsetRange`: a tensor's byte interval `[start, end)` relative to the
    start of the data segment, written in a header as `[start, end]`. */
module OffsetRanges {
  import opened Wrappers
  import opened Errors
  import opened Json

  datatype OffsetRange = OffsetRange(start: int, end: int)

  /** `init(start: end:)` with the default `start = 0` of the second revision. */
  function EndingAt(end: int): (r: OffsetRange)
    ensures r.start == 0 && r.end == end
  {
    OffsetRange(0, end)
  }

  /** `encode(to:)`: the two-element array `[start, end]`. */
  function ToJson(r: OffsetRange): JsonValue {
    EncodeIntArray([r.start, r.end])
  }

  /** `init(from:)`: an `[Int]` whose count must be 2. Anything that is not
      an `[Int]` throws; an `[Int]` of another length fails the
      `precondition`, which stops the process. */
  function FromJson(v: JsonValue): (r: Result<OffsetRange, Error>)
    ensures r.Ok? <==> DecodeIntArray(v).Some? && |v.items| == 2
    ensures r.Ok? ==> v == JArray([JInt(r.value.start), JInt(r.value.end)])
    ensures r == Err(Trap) <==> DecodeIntArray(v).Some? && |v.items| != 2
    ensures r == Err(DecodingError) <==> DecodeIntArray(v).None?
  {
    match DecodeIntArray(v)
    case None => Err(DecodingError)
    case Some(a) => if |a| != 2 then Err(Trap) else Ok(OffsetRange(a[0], a[1]))
  }

  predicate Fits(r: OffsetRange) {
    IsInt(r.start) && IsInt(r.end)
  }

  /** Decoding an encoded range gives the range back, also when
      `start > end`: the initializer accepts any pair. */
  lemma RoundTrip(r: OffsetRange)
    requires Fits(r)
    ensures FromJson(ToJson(r)) == Ok(r)
  {
    IntArrayRoundTrip([r.start, r.end]);
  }

  /** `==` of the second revision compares both fields. */
  lemma EqualityIsFieldwise(a: OffsetRange, b: OffsetRange)
    ensures a == b <==> a.start == b.start && a.end == b.end
  {
  }
}
