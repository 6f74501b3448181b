/** Products of dimensions and row-major strides. */
module Shapes {
  import opened Errors

  /** The number of scalars of a shape; 1 for the empty shape. */
  function Product(shape: seq<int>): int {
    if shape == [] then 1 else shape[0] * Product(shape[1..])
  }

  /** Row-major strides: each dimension's stride is the product of the
      dimensions after it. */
  function Strides(shape: seq<int>): (r: seq<int>)
    ensures |r| == |shape|
  {
    seq(|shape|, i requires 0 <= i < |shape| => Product(shape[i + 1..]))
  }

  /** The running product of the stride loop stays within `Int` at every
      step, including the last multiplication, whose result is unused. */
  predicate StridesFit(shape: seq<int>) {
    forall i :: 0 <= i <= |shape| ==> IsInt(Product(shape[i..]))
  }

  function Reverse<T>(s: seq<T>): (r: seq<T>)
    ensures |r| == |s|
    ensures forall i :: 0 <= i < |s| ==> r[i] == s[|s| - 1 - i]
  {
    if s == [] then [] else Reverse(s[1..]) + [s[0]]
  }

  lemma ProductStep(shape: seq<int>, i: nat)
    requires i < |shape|
    ensures Product(shape[i..]) == shape[i] * Product(shape[i + 1..])
  {
    assert shape[i..][1..] == shape[i + 1..];
  }

  /** Each stride is the next dimension times the next stride. */
  lemma StridesRecurrence(shape: seq<int>, i: nat)
    requires i + 1 < |shape|
    ensures Strides(shape)[i] == shape[i + 1] * Strides(shape)[i + 1]
  {
    assert Strides(shape)[i] == Product(shape[i + 1..]);
    assert Strides(shape)[i + 1] == Product(shape[i + 2..]);
    ProductStep(shape, i + 1);
  }

  /** The last stride is 1, and the first stride times the first dimension
      is the number of scalars. */
  lemma StridesEnds(shape: seq<int>)
    requires |shape| > 0
    ensures Strides(shape)[|shape| - 1] == 1
    ensures shape[0] * Strides(shape)[0] == Product(shape)
  {
    assert shape[|shape|..] == [];
    assert Strides(shape)[0] == Product(shape[1..]);
  }

  /** `[2, 2]` has the strides `[2, 1]`. */
  lemma StridesExample()
    ensures Strides([2, 2]) == [2, 1]
  {
    var s := [2, 2];
    assert s[1..] == [2] && s[2..] == [];
    assert Product(s[2..]) == 1;
    assert Product(s[1..]) == 2;
  }
}
