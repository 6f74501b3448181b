/** `validate(header:dataCount:)`: the tensors' ranges must tile the data
    segment. The source sorts the ranges by start only; the order of ranges
    with equal starts is then whatever the dictionary and the sort produce,
    so the as-written check is stated for every such arrangement. The
    corrected check sorts by (start, end) and also demands start <= end. */
module Validation {
  import opened Wrappers
  import opened Errors
  import opened OffsetRanges
  import opened HeaderElements
  import opened Headers

  // ----- orders on ranges -----

  predicate SortedByStart(s: seq<OffsetRange>) {
    forall i, j :: 0 <= i < j < |s| ==> s[i].start <= s[j].start
  }

  /** Lexicographic order on (start, end). */
  predicate LexLe(a: OffsetRange, b: OffsetRange) {
    a.start < b.start || (a.start == b.start && a.end <= b.end)
  }

  predicate SortedLex(s: seq<OffsetRange>) {
    forall i, j :: 0 <= i < j < |s| ==> LexLe(s[i], s[j])
  }

  function Insert(x: OffsetRange, s: seq<OffsetRange>): (r: seq<OffsetRange>)
    ensures |r| == |s| + 1
    ensures multiset(r) == multiset(s) + multiset{x}
    ensures r[0] == x || (s != [] && r[0] == s[0])
  {
    if s == [] then [x]
    else if LexLe(x, s[0]) then [x] + s
    else
      assert s == [s[0]] + s[1..];
      [s[0]] + Insert(x, s[1..])
  }

  lemma {:induction false} InsertSorted(x: OffsetRange, s: seq<OffsetRange>)
    requires SortedLex(s)
    ensures SortedLex(Insert(x, s))
    decreases |s|
  {
    if s != [] && !LexLe(x, s[0]) {
      InsertSorted(x, s[1..]);
      var t := Insert(x, s[1..]);
      assert Insert(x, s) == [s[0]] + t;
      forall j | 0 <= j < |t| ensures LexLe(s[0], t[j]) {
        assert t[j] in multiset(t);
        if t[j] != x {
          assert t[j] in multiset(s[1..]);
          var m :| 0 <= m < |s[1..]| && s[1..][m] == t[j];
          assert s[m + 1] == t[j];
        }
      }
    }
  }

  /** Insertion sort by (start, end). */
  function SortRanges(s: seq<OffsetRange>): (r: seq<OffsetRange>)
    ensures SortedLex(r)
    ensures multiset(r) == multiset(s)
  {
    if s == [] then []
    else
      assert s == [s[0]] + s[1..];
      var t := SortRanges(s[1..]);
      InsertSorted(s[0], t);
      Insert(s[0], t)
  }

  /** The first element of a sorted sequence is below every element. */
  lemma SortedHeadIsLeast(s: seq<OffsetRange>, x: OffsetRange)
    requires SortedLex(s) && x in multiset(s)
    ensures LexLe(s[0], x)
  {
    var i :| 0 <= i < |s| && s[i] == x;
    if i == 0 {
      assert s[0] == x;
    }
  }

  lemma LexAntisymmetric(a: OffsetRange, b: OffsetRange)
    requires LexLe(a, b) && LexLe(b, a)
    ensures a == b
  {
  }

  /** Two lexicographically sorted sequences with the same elements are
      the same sequence. */
  lemma {:induction false} SortedUnique(s: seq<OffsetRange>, t: seq<OffsetRange>)
    requires SortedLex(s) && SortedLex(t) && multiset(s) == multiset(t)
    ensures s == t
    decreases |s|
  {
    if s != [] {
      var x, s' := s[0], s[1..];
      assert s == [x] + s';
      assert x in multiset(t);
      var y, t' := t[0], t[1..];
      assert t == [y] + t';
      SortedHeadIsLeast(s, y);
      SortedHeadIsLeast(t, x);
      LexAntisymmetric(x, y);
      assert multiset(s') == multiset(s) - multiset{x};
      assert multiset(t') == multiset(t) - multiset{y};
      SortedUnique(s', t');
    }
  }

  // ----- the tiling conditions -----

  /** The sorted ranges, at least one, start at 0, end at `n`, and each
      ends where the next starts. */
  predicate Tiles(s: seq<OffsetRange>, n: int) {
    && |s| > 0
    && s[0].start == 0
    && s[|s| - 1].end == n
    && forall i :: 0 <= i < |s| - 1 ==> s[i].end == s[i + 1].start
  }

  predicate WellFormed(s: seq<OffsetRange>) {
    forall i :: 0 <= i < |s| ==> s[i].start <= s[i].end
  }

  /** The checks of the source, in order, over one arrangement. */
  function CheckTiling(s: seq<OffsetRange>, n: int): (r: Result<(), Error>)
    ensures r.Ok? <==> Tiles(s, n)
    ensures r.Err? ==> r.error == MetadataIncompleteBuffer
  {
    if |s| == 0 then Err(MetadataIncompleteBuffer)
    else if s[0].start != 0 || s[|s| - 1].end != n then Err(MetadataIncompleteBuffer)
    else if exists i :: 0 <= i < |s| - 1 && s[i].end != s[i + 1].start then Err(MetadataIncompleteBuffer)
    else Ok(())
  }

  /** An arrangement the source's sort may produce: the tensors' ranges,
      ordered by start. */
  ghost predicate Arrangement(h: Header, arranged: seq<OffsetRange>) {
    SortedByStart(arranged) && multiset(arranged) == TensorRanges(h)
  }

  /** `validate` as written, when the sort has produced `arranged`. */
  ghost function ValidateAsWritten(h: Header, arranged: seq<OffsetRange>, n: int): (r: Result<(), Error>)
    requires Arrangement(h, arranged)
    ensures r.Ok? <==> Tiles(arranged, n)
    ensures r.Err? ==> r.error == MetadataIncompleteBuffer
    ensures |TensorRanges(h)| == 0 ==> r.Err?
  {
    CheckTiling(arranged, n)
  }

  /** The tensors' ranges in (start, end) order. */
  ghost function SortedTensorRanges(h: Header): (s: seq<OffsetRange>)
    ensures SortedLex(s) && multiset(s) == TensorRanges(h)
  {
    SortRanges(RangesIn(h, Enumeration(h)))
  }

  /** The corrected `validate`: sort by (start, end), reject a range whose
      end is below its start, then check the tiling. */
  ghost function Validate(h: Header, n: int): (r: Result<(), Error>)
    ensures r.Ok? <==> WellFormed(SortedTensorRanges(h)) && Tiles(SortedTensorRanges(h), n)
    ensures r.Err? ==> r.error == MetadataIncompleteBuffer
  {
    var s := SortedTensorRanges(h);
    if exists i :: 0 <= i < |s| && s[i].start > s[i].end then Err(MetadataIncompleteBuffer)
    else CheckTiling(s, n)
  }

  // ----- properties of tilings -----

  /** In a well-formed tiling, later ranges lie after earlier ones. */
  lemma {:induction false} ChainOrdered(s: seq<OffsetRange>, i: nat, j: nat)
    requires WellFormed(s)
    requires forall k :: 0 <= k < |s| - 1 ==> s[k].end == s[k + 1].start
    requires i < j < |s|
    ensures s[i].end <= s[j].start
    decreases j - i
  {
    if i + 1 < j {
      ChainOrdered(s, i + 1, j);
    }
  }

  /** A well-formed chain is sorted by (start, end). */
  lemma ChainIsSortedLex(s: seq<OffsetRange>)
    requires WellFormed(s)
    requires forall k :: 0 <= k < |s| - 1 ==> s[k].end == s[k + 1].start
    ensures SortedLex(s)
  {
    forall i, j | 0 <= i < j < |s| ensures LexLe(s[i], s[j]) {
      ChainOrdered(s, i, j);
    }
  }

  /** Every range of a well-formed tiling of `n` lies within `[0, n]`. */
  lemma TilingBounds(s: seq<OffsetRange>, n: int, i: nat)
    requires WellFormed(s) && Tiles(s, n) && i < |s|
    ensures 0 <= s[i].start <= s[i].end <= n
  {
    if 0 < i { ChainOrdered(s, 0, i); }
    if i < |s| - 1 { ChainOrdered(s, i, |s| - 1); }
  }

  /** In a well-formed tiling, every position of `[0, n)` lies in exactly
      one range. */
  lemma {:induction false} TilingCovers(s: seq<OffsetRange>, n: int, p: int)
    requires WellFormed(s) && Tiles(s, n) && 0 <= p < n
    ensures exists i :: 0 <= i < |s| && s[i].start <= p < s[i].end
    decreases |s|
  {
    if s[|s| - 1].start <= p {
    } else {
      var t := s[..|s| - 1];
      assert |t| > 0;
      assert t[|t| - 1].end == s[|s| - 1].start;
      TilingCovers(t, t[|t| - 1].end, p);
      var i :| 0 <= i < |t| && t[i].start <= p < t[i].end;
      assert s[i] == t[i];
    }
  }

  lemma TilingDisjoint(s: seq<OffsetRange>, n: int, i: nat, j: nat, p: int)
    requires WellFormed(s) && Tiles(s, n)
    requires i < |s| && j < |s| && i != j
    ensures !(s[i].start <= p < s[i].end && s[j].start <= p < s[j].end)
  {
    if i < j { ChainOrdered(s, i, j); } else { ChainOrdered(s, j, i); }
  }

  /** The ranges' lengths add up to `n`. */
  function TotalLength(s: seq<OffsetRange>): int {
    if s == [] then 0 else TotalLength(s[..|s| - 1]) + (s[|s| - 1].end - s[|s| - 1].start)
  }

  lemma {:induction false} TilingLength(s: seq<OffsetRange>, n: int)
    requires Tiles(s, n)
    ensures TotalLength(s) == n
    decreases |s|
  {
    if |s| > 1 {
      var t := s[..|s| - 1];
      assert t[|t| - 1].end == s[|s| - 1].start;
      TilingLength(t, t[|t| - 1].end);
    }
  }

  // ----- what an accepted header guarantees -----

  /** After the corrected `validate`, every tensor's range lies in the data
      segment. */
  lemma ValidBounds(h: Header, n: int, k: string)
    requires Validate(h, n).Ok?
    requires k in h && h[k].Tensor?
    ensures 0 <= h[k].data.dataOffsets.start <= h[k].data.dataOffsets.end <= n
  {
    var s := SortedTensorRanges(h);
    RangeOfKeyIsInTensorRanges(h, k);
    assert h[k].data.dataOffsets in multiset(s);
    var i :| 0 <= i < |s| && s[i] == h[k].data.dataOffsets;
    TilingBounds(s, n, i);
  }

  /** A value that occurs twice in a sequence occurs at two positions. */
  lemma {:induction false} TwiceAtTwoPositions(s: seq<OffsetRange>, r: OffsetRange)
    requires multiset(s)[r] >= 2
    ensures exists i, j :: 0 <= i < j < |s| && s[i] == r && s[j] == r
    decreases |s|
  {
    assert s == [s[0]] + s[1..];
    if s[0] == r {
      assert r in multiset(s[1..]);
      var j :| 0 <= j < |s[1..]| && s[1..][j] == r;
      assert s[j + 1] == r;
    } else {
      TwiceAtTwoPositions(s[1..], r);
      var i, j :| 0 <= i < j < |s[1..]| && s[1..][i] == r && s[1..][j] == r;
      assert s[i + 1] == r && s[j + 1] == r;
    }
  }

  /** After the corrected `validate`, two different tensors never share a
      byte of the data segment. */
  lemma ValidDisjoint(h: Header, n: int, k1: string, k2: string, p: int)
    requires Validate(h, n).Ok?
    requires k1 in h && h[k1].Tensor? && k2 in h && h[k2].Tensor? && k1 != k2
    ensures !(h[k1].data.dataOffsets.start <= p < h[k1].data.dataOffsets.end
              && h[k2].data.dataOffsets.start <= p < h[k2].data.dataOffsets.end)
  {
    var s := SortedTensorRanges(h);
    var r1, r2 := h[k1].data.dataOffsets, h[k2].data.dataOffsets;
    if r1 == r2 {
      TwoKeysInTensorRanges(h, k1, k2);
      TwiceAtTwoPositions(s, r1);
      var i, j :| 0 <= i < j < |s| && s[i] == r1 && s[j] == r1;
      TilingDisjoint(s, n, i, j, p);
    } else {
      RangeOfKeyIsInTensorRanges(h, k1);
      RangeOfKeyIsInTensorRanges(h, k2);
      var i :| 0 <= i < |s| && s[i] == r1;
      var j :| 0 <= j < |s| && s[j] == r2;
      TilingDisjoint(s, n, i, j, p);
    }
  }

  /** After the corrected `validate`, every byte of the data segment belongs
      to some tensor. */
  lemma ValidCovers(h: Header, n: int, p: int)
    requires Validate(h, n).Ok? && 0 <= p < n
    ensures exists k :: k in h && h[k].Tensor?
                     && h[k].data.dataOffsets.start <= p < h[k].data.dataOffsets.end
  {
    var s := SortedTensorRanges(h);
    TilingCovers(s, n, p);
    var i :| 0 <= i < |s| && s[i].start <= p < s[i].end;
    assert s[i] in multiset(s);
    TensorRangeHasKey(h, s[i]);
  }

  /** Both checks reject a header without tensors, whether it is empty or
      holds only metadata. */
  lemma NoTensorsRejected(h: Header, n: int)
    requires forall k :: k in h ==> h[k].Metadata?
    ensures Validate(h, n).Err?
    ensures forall a :: Arrangement(h, a) ==> ValidateAsWritten(h, a, n).Err?
  {
    NoTensorsNoRanges(h, Enumeration(h));
  }

  lemma {:induction false} NoTensorsNoRanges(h: Header, ks: seq<string>)
    requires forall k :: k in h ==> h[k].Metadata?
    ensures RangesIn(h, ks) == []
    decreases |ks|
  {
    if ks != [] { NoTensorsNoRanges(h, ks[1..]); }
  }

  /** The corrected check accepts whenever some listing of the keys gives a
      well-formed tiling: the tensors laid out back to back, in any order of
      the dictionary, are accepted. */
  lemma ValidateComplete(h: Header, n: int, ks: seq<string>)
    requires multiset(ks) == multiset(h.Keys)
    requires WellFormed(RangesIn(h, ks)) && Tiles(RangesIn(h, ks), n)
    ensures Validate(h, n).Ok?
  {
    var rs := RangesIn(h, ks);
    TensorRangesOfAnyEnumeration(h, ks);
    ChainIsSortedLex(rs);
    SortedUnique(rs, SortedTensorRanges(h));
  }

  /** The corrected check accepts exactly when every range is well formed
      and some start-sorted arrangement is accepted as written. */
  lemma ValidateCorrectsAsWritten(h: Header, n: int)
    ensures Validate(h, n).Ok? <==>
      && (forall r :: r in TensorRanges(h) ==> r.start <= r.end)
      && exists a :: Arrangement(h, a) && ValidateAsWritten(h, a, n).Ok?
  {
    var s := SortedTensorRanges(h);
    if Validate(h, n).Ok? {
      forall r | r in TensorRanges(h) ensures r.start <= r.end {
        assert r in multiset(s);
      }
      assert SortedByStart(s) by {
        forall i, j | 0 <= i < j < |s| ensures s[i].start <= s[j].start {
          assert LexLe(s[i], s[j]);
        }
      }
      assert Arrangement(h, s) && ValidateAsWritten(h, s, n).Ok?;
    }
    if (forall r :: r in TensorRanges(h) ==> r.start <= r.end)
       && exists a :: Arrangement(h, a) && ValidateAsWritten(h, a, n).Ok?
    {
      var a: seq<OffsetRange> :| Arrangement(h, a) && ValidateAsWritten(h, a, n).Ok?;
      assert WellFormed(a) by {
        forall i | 0 <= i < |a| ensures a[i].start <= a[i].end {
          assert a[i] in multiset(a);
        }
      }
      ChainIsSortedLex(a);
      SortedUnique(a, s);
    }
  }

  /** Both checks see only the multiset of tensor ranges. */
  lemma ValidateSeesOnlyRanges(h: Header, g: Header, n: int)
    requires TensorRanges(h) == TensorRanges(g)
    ensures Validate(h, n) == Validate(g, n)
    ensures forall a :: Arrangement(h, a) <==> Arrangement(g, a)
  {
    SortedUnique(SortedTensorRanges(h), SortedTensorRanges(g));
  }

  // ----- where the source as written goes wrong -----

  const RangeA: OffsetRange := OffsetRange(0, 5)
  const RangeB: OffsetRange := OffsetRange(5, 3)

  /** A descriptor with the given range; the dtype and shape do not
      matter to `validate`. */
  function TensorAt(r: OffsetRange): (e: HeaderElement)
    ensures e.Tensor? && e.data.dataOffsets == r
  {
    Tensor(Descriptors.TensorData("U8", [], r))
  }

  lemma TensorRangesOfTwo(a: string, b: string, ra: OffsetRange, rb: OffsetRange)
    requires a != b
    ensures var h := map[a := TensorAt(ra), b := TensorAt(rb)];
      && multiset([a, b]) == multiset(h.Keys)
      && RangesIn(h, [a, b]) == [ra, rb]
      && TensorRanges(h) == multiset{ra, rb}
  {
    var h := map[a := TensorAt(ra), b := TensorAt(rb)];
    KeysOfTwo(h, a, b);
    RangesInTwo(h, a, b);
    TensorRangesOfAnyEnumeration(h, [a, b]);
  }

  lemma KeysOfTwo(h: Header, a: string, b: string)
    requires a != b && h.Keys == {a, b}
    ensures multiset([a, b]) == multiset(h.Keys)
  {
  }

  lemma RangesInTwo(h: Header, a: string, b: string)
    requires a in h && h[a].Tensor? && b in h && h[b].Tensor?
    ensures RangesIn(h, [a, b]) == [h[a].data.dataOffsets, h[b].data.dataOffsets]
  {
    assert [a, b][1..] == [b];
    assert [b][1..] == [];
  }

  /** As written, a range whose end is below its start is accepted: with 3
      data bytes, `[0, 5]` and `[5, 3]` pass, although the first reaches past
      the data and the second has a negative length. */
  lemma AsWrittenAcceptsReversedRange(h: Header)
    requires TensorRanges(h) == multiset{RangeA, RangeB}
    ensures Arrangement(h, [RangeA, RangeB])
    ensures ValidateAsWritten(h, [RangeA, RangeB], 3).Ok?
    ensures Validate(h, 3).Err?
  {
    assert multiset([RangeA, RangeB]) == multiset{RangeA, RangeB};
    SortedUnique(SortedTensorRanges(h), [RangeA, RangeB]);
  }

  const Empty0: OffsetRange := OffsetRange(0, 0)
  const Full4: OffsetRange := OffsetRange(0, 4)

  /** As written, the verdict can depend on how the sort orders ranges with
      equal starts: an empty tensor at 0 followed by a 4-byte tensor is
      accepted in one order and rejected in the other. This is the layout
      `encode` produces when the empty tensor comes first. */
  lemma AsWrittenDependsOnTieOrder(h: Header)
    requires TensorRanges(h) == multiset{Empty0, Full4}
    ensures Arrangement(h, [Empty0, Full4]) && ValidateAsWritten(h, [Empty0, Full4], 4).Ok?
    ensures Arrangement(h, [Full4, Empty0]) && ValidateAsWritten(h, [Full4, Empty0], 4).Err?
    ensures Validate(h, 4).Ok?
  {
    assert multiset([Empty0, Full4]) == multiset{Empty0, Full4};
    assert multiset([Full4, Empty0]) == multiset{Empty0, Full4};
    TieOrders();
    SortedUnique(SortedTensorRanges(h), [Empty0, Full4]);
  }

  /** The two orders of the ranges `[0, 0]` and `[0, 4]`: both sorted by
      start, only the first tiles 4 bytes. */
  lemma TieOrders()
    ensures SortedLex([Empty0, Full4]) && WellFormed([Empty0, Full4])
    ensures SortedByStart([Empty0, Full4]) && SortedByStart([Full4, Empty0])
    ensures Tiles([Empty0, Full4], 4) && !Tiles([Full4, Empty0], 4)
  {
    var good, bad := [Empty0, Full4], [Full4, Empty0];
    assert LexLe(good[0], good[1]);
    assert good[0].end == good[1].start;
    assert bad[|bad| - 1].end != 4;
  }

  /** Headers with exactly those ranges. */
  const ReversedHeader: Header := map["a" := TensorAt(RangeA), "b" := TensorAt(RangeB)]
  const TieHeader: Header := map["a" := TensorAt(Empty0), "b" := TensorAt(Full4)]

  lemma CounterexampleHeaders()
    ensures TensorRanges(ReversedHeader) == multiset{RangeA, RangeB}
    ensures TensorRanges(TieHeader) == multiset{Empty0, Full4}
  {
    TensorRangesOfTwo("a", "b", RangeA, RangeB);
    TensorRangesOfTwo("a", "b", Empty0, Full4);
  }

  // ----- the sort as a parameter -----

  /** `sorted { $0[0] < $1[0] }` over `header.values`: for every header,
      some start-sorted arrangement of its ranges. Which one it yields for
      equal starts depends on the dictionary's order and is left open. */
  ghost predicate SortsByStart(arrange: Header -> seq<OffsetRange>) {
    forall h :: Arrangement(h, arrange(h))
  }

  /** The (start, end) sort is one such sort; so is one that puts `[0, 4]`
      before `[0, 0]` in the tie header. */
  lemma SortsByStartExist()
    ensures SortsByStart(LexArrangement)
    ensures SortsByStart(FullFirstArrangement)
  {
    forall h ensures Arrangement(h, LexArrangement(h)) {
      LexArrangementSorts(h);
    }
    forall h ensures Arrangement(h, FullFirstArrangement(h)) {
      if h == TieHeader {
        FullFirstOnTie();
      } else {
        LexArrangementSorts(h);
      }
    }
  }

  lemma LexArrangementSorts(h: Header)
    ensures Arrangement(h, SortedTensorRanges(h))
  {
    LexIsByStart(SortedTensorRanges(h));
  }

  lemma FullFirstOnTie()
    ensures Arrangement(TieHeader, [Full4, Empty0])
  {
    CounterexampleHeaders();
    TieOrders();
    assert multiset([Full4, Empty0]) == multiset{Empty0, Full4};
  }

  ghost function LexArrangement(h: Header): seq<OffsetRange> {
    SortedTensorRanges(h)
  }

  ghost function FullFirstArrangement(h: Header): seq<OffsetRange> {
    if h == TieHeader then [Full4, Empty0] else SortedTensorRanges(h)
  }

  lemma LexIsByStart(s: seq<OffsetRange>)
    requires SortedLex(s)
    ensures SortedByStart(s)
  {
    forall i, j | 0 <= i < j < |s| ensures s[i].start <= s[j].start {
      assert LexLe(s[i], s[j]);
    }
  }

  /** An arrangement of two distinct ranges lists each of them once. */
  lemma {:induction false} ArrangementOfTwo(h: Header, a: seq<OffsetRange>, x: OffsetRange, y: OffsetRange)
    requires x != y && TensorRanges(h) == multiset{x, y} && Arrangement(h, a)
    ensures a == [x, y] || a == [y, x]
  {
    assert |a| == |multiset(a)| == 2;
    assert a == [a[0], a[1]];
    assert a[0] in multiset(a) && a[1] in multiset(a);
  }

  /** The start-only sort has one outcome on the reversed header... */
  lemma ArrangementOfReversed(a: seq<OffsetRange>)
    requires Arrangement(ReversedHeader, a)
    ensures a == [RangeA, RangeB]
  {
    CounterexampleHeaders();
    ArrangementOfTwo(ReversedHeader, a, RangeA, RangeB);
    assert a[0].start <= a[1].start;
  }

  /** ... and two on the tie header. */
  lemma ArrangementsOfTie(a: seq<OffsetRange>)
    requires Arrangement(TieHeader, a)
    ensures a == [Empty0, Full4] || a == [Full4, Empty0]
  {
    CounterexampleHeaders();
    ArrangementOfTwo(TieHeader, a, Empty0, Full4);
  }
}
