/** Bytes and the 8-byte little-endian length prefix of the container. */
module Bytes {

  newtype byte = x: int | 0 <= x < 256

  type Bytes = seq<byte>

  const PrefixSize: nat := 8

  function Pow256(k: nat): (r: nat)
    ensures r > 0
  {
    if k == 0 then 1 else 256 * Pow256(k - 1)
  }

  /** The unsigned little-endian value of `s`; `s[0]` is the least significant byte. */
  function LoadLE(s: Bytes): (n: nat)
    ensures n < Pow256(|s|)
  {
    if s == [] then 0 else s[0] as nat + 256 * LoadLE(s[1..])
  }

  /** The `k` least significant bytes of `n`, least significant first. */
  function StoreLE(n: nat, k: nat): (s: Bytes)
    ensures |s| == k
  {
    if k == 0 then [] else [(n % 256) as byte] + StoreLE(n / 256, k - 1)
  }

  /** `UnsafeRawBufferPointer.load(as: Int.self)` on the first 8 bytes, read
      as the unsigned 64-bit value they hold. */
  function LoadU64(s: Bytes): (n: nat)
    requires |s| >= PrefixSize
    ensures n < Pow256(8)
  {
    LoadLE(s[..PrefixSize])
  }

  /** The bytes of `withUnsafeBytes(of:)` applied to a 64-bit count. */
  function StoreU64(n: nat): (s: Bytes)
    requires n < Pow256(8)
    ensures |s| == PrefixSize
  {
    StoreLE(n, PrefixSize)
  }

  lemma {:induction false} LoadStoreLE(n: nat, k: nat)
    requires n < Pow256(k)
    ensures LoadLE(StoreLE(n, k)) == n
  {
    if k > 0 {
      var s := StoreLE(n, k);
      assert s[1..] == StoreLE(n / 256, k - 1);
      assert n / 256 < Pow256(k - 1);
      LoadStoreLE(n / 256, k - 1);
    }
  }

  lemma {:induction false} StoreLoadLE(s: Bytes)
    ensures StoreLE(LoadLE(s), |s|) == s
  {
    if s != [] {
      var n := LoadLE(s);
      assert n % 256 == s[0] as nat;
      assert n / 256 == LoadLE(s[1..]);
      StoreLoadLE(s[1..]);
    }
  }

  /** Reading back the prefix written for `n` gives `n`. */
  lemma LoadStoreU64(n: nat)
    requires n < Pow256(8)
    ensures LoadU64(StoreU64(n)) == n
  {
    assert StoreU64(n)[..PrefixSize] == StoreU64(n);
    LoadStoreLE(n, PrefixSize);
  }

  /** Writing back the value read from a prefix reproduces the prefix. */
  lemma StoreLoadU64(s: Bytes)
    requires |s| >= PrefixSize
    ensures StoreU64(LoadU64(s)) == s[..PrefixSize]
  {
    StoreLoadLE(s[..PrefixSize]);
  }

  /** The prefix read from a buffer depends on its first 8 bytes only. */
  lemma LoadU64Prefix(s: Bytes, t: Bytes)
    requires |s| >= PrefixSize && |t| >= PrefixSize
    requires s[..PrefixSize] == t[..PrefixSize]
    ensures LoadU64(s) == LoadU64(t)
  {
  }
}
