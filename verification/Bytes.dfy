/** Bytes as they lie on the simulated disk, and the little-endian layout of C ints on the host. */
module Bytes {

  type byte = x: int | 0 <= x < 256

  const INT_MIN := -0x8000_0000
  const INT_MAX := 0x7FFF_FFFF

  /** A C `int`. */
  type int32 = x: int | INT_MIN <= x <= INT_MAX

  /** The four bytes of a C int, least significant first, two's complement. */
  function EncodeInt(x: int32): (b: seq<byte>)
    ensures |b| == 4
  {
    var u := if x < 0 then x + 0x1_0000_0000 else x;
    [u % 256, u / 256 % 256, u / 65536 % 256, u / 16777216]
  }

  function DecodeInt(b: seq<byte>): int32
    requires |b| == 4
  {
    var u: int := b[0] as int + 256 * b[1] as int + 65536 * b[2] as int + 16777216 * b[3] as int;
    if u > INT_MAX then u - 0x1_0000_0000 else u
  }

  lemma IntRoundTrip(x: int32)
    ensures DecodeInt(EncodeInt(x)) == x
  {
    var u := if x < 0 then x + 0x1_0000_0000 else x;
    assert u == u % 256 + 256 * (u / 256);
    assert u / 256 == u / 256 % 256 + 256 * (u / 65536);
    assert u / 65536 == u / 65536 % 256 + 256 * (u / 16777216);
  }

  /** A run of C ints laid out one after the other. */
  function EncodeInts(xs: seq<int32>): (b: seq<byte>)
    ensures |b| == 4 * |xs|
  {
    seq(4 * |xs|, i requires 0 <= i < 4 * |xs| => EncodeInt(xs[i / 4])[i % 4])
  }

  function DecodeInts(b: seq<byte>): (xs: seq<int32>)
    requires |b| % 4 == 0
    ensures |xs| == |b| / 4
  {
    seq(|b| / 4, k requires 0 <= k < |b| / 4 => DecodeInt(b[4 * k..4 * k + 4]))
  }

  lemma EncodedAt(xs: seq<int32>, k: nat)
    requires k < |xs|
    ensures EncodeInts(xs)[4 * k..4 * k + 4] == EncodeInt(xs[k])
  {
    var b, e := EncodeInts(xs), EncodeInt(xs[k]);
    forall j | 0 <= j < 4
      ensures b[4 * k + j] == e[j]
    {
      assert (4 * k + j) / 4 == k && (4 * k + j) % 4 == j;
    }
    assert b[4 * k..4 * k + 4] == e;
  }

  lemma IntsRoundTrip(xs: seq<int32>)
    ensures DecodeInts(EncodeInts(xs)) == xs
  {
    forall k | 0 <= k < |xs|
      ensures DecodeInts(EncodeInts(xs))[k] == xs[k]
    {
      EncodedAt(xs, k);
      IntRoundTrip(xs[k]);
    }
  }
}
