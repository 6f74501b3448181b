/** `String.zfill`, which pads shard numbers in file names with zeros. */
module ZFill {

  function Zeros(k: nat): (s: string)
    ensures |s| == k && forall i :: 0 <= i < k ==> s[i] == '0'
  {
    if k == 0 then "" else "0" + Zeros(k - 1)
  }

  /** Left-pad with zeros to `width` characters, keeping a leading '-'
      in front of the zeros. */
  function ZFill(s: string, width: int): (r: string)
    ensures |s| >= width ==> r == s
    ensures |s| < width ==> |r| == width
    ensures |s| < width && (|s| == 0 || s[0] != '-') ==>
      && r[..width - |s|] == Zeros(width - |s|)
      && r[width - |s|..] == s
    ensures |s| < width && |s| > 0 && s[0] == '-' ==>
      && r[0] == '-'
      && r[1..width - |s| + 1] == Zeros(width - |s|)
      && r[width - |s| + 1..] == s[1..]
  {
    if |s| >= width then s
    else
      var zerosNeeded := width - |s|;
      if |s| > 0 && s[0] == '-' then "-" + Zeros(zerosNeeded) + s[1..]
      else Zeros(zerosNeeded) + s
  }

  /** Padding twice is padding once. */
  lemma ZFillIdempotent(s: string, width: int)
    ensures ZFill(ZFill(s, width), width) == ZFill(s, width)
  {
  }
}
