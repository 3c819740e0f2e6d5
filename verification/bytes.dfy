/** Byte strings (the source's Uint8Array) and the 64-bit big-endian
    encoding of a non-negative integer that the CBC-HMAC MAC input ends with. */
module Bytes {

  /** One element of a Uint8Array. */
  type byte = b: int | 0 <= b < 256

  function Pow256(n: nat): (r: nat)
    ensures r >= 1
  {
    if n == 0 then 1 else 256 * Pow256(n - 1)
  }

  /** The width-byte big-endian encoding of n modulo 256^width. */
  function BigEndian(n: nat, width: nat): (r: seq<byte>)
    ensures |r| == width
  {
    if width == 0 then [] else BigEndian(n / 256, width - 1) + [n % 256]
  }

  /** The value of a big-endian byte string. */
  function FromBigEndian(s: seq<byte>): nat {
    if |s| == 0 then 0 else FromBigEndian(s[..|s| - 1]) * 256 + s[|s| - 1]
  }

  /** `uint64BE(n)`: eight bytes, most significant first. */
  function Uint64BE(n: nat): (r: seq<byte>)
    ensures |r| == 8
  {
    BigEndian(n, 8)
  }

  lemma DivBelow(n: nat, p: nat)
    requires p >= 1 && n < 256 * p
    ensures n / 256 < p
  {
  }

  /** Decoding a big-endian encoding gives back every value the width can hold. */
  lemma {:induction false} BigEndianRoundTrip(n: nat, width: nat)
    requires n < Pow256(width)
    ensures FromBigEndian(BigEndian(n, width)) == n
    decreases width
  {
    if width > 0 {
      var s := BigEndian(n, width);
      DivBelow(n, Pow256(width - 1));
      BigEndianRoundTrip(n / 256, width - 1);
      assert s[..|s| - 1] == BigEndian(n / 256, width - 1);
      assert FromBigEndian(s) == (n / 256) * 256 + n % 256;
    }
  }

  /** Two values the width can hold have the same encoding only if they are equal. */
  lemma BigEndianInjective(m: nat, n: nat, width: nat)
    requires m < Pow256(width) && n < Pow256(width)
    requires BigEndian(m, width) == BigEndian(n, width)
    ensures m == n
  {
    BigEndianRoundTrip(m, width);
    BigEndianRoundTrip(n, width);
  }

  const TWO_64: nat := 0x1_0000_0000_0000_0000

  lemma Pow256Of8()
    ensures Pow256(8) == TWO_64
  {
  }

  /** `uint64BE` round-trips every value below 2^64. */
  lemma Uint64BERoundTrip(n: nat)
    requires n < TWO_64
    ensures FromBigEndian(Uint64BE(n)) == n
  {
    Pow256Of8();
    BigEndianRoundTrip(n, 8);
  }
}
