/**
 * Fixed-width integer encodings used by the wire formats: big-endian
 * (network order, as written by `byteorder::BigEndian` and `to_be_bytes`)
 * and little-endian for the 16-bit length prefix of a junction id.
 */
module ByteOrder {
  import opened Common

  function Pow256(n: nat): (r: nat)
    ensures r > 0
  {
    if n == 0 then 1 else 256 * Pow256(n - 1)
  }

  /** The `n`-byte big-endian encoding of `x`, most significant byte first (high bytes beyond `n` dropped). */
  function ToBigEndian(x: nat, n: nat): (r: Bytes)
    ensures |r| == n
  {
    if n == 0 then [] else ToBigEndian(x / 256, n - 1) + [x % 256]
  }

  /** The number a big-endian byte string denotes. */
  function FromBigEndian(s: Bytes): (r: nat)
    ensures r < Pow256(|s|)
  {
    if s == [] then 0
    else
      var high := FromBigEndian(s[..|s| - 1]);
      assert high * 256 <= (Pow256(|s| - 1) - 1) * 256;
      high * 256 + s[|s| - 1]
  }

  /** Decoding an encoding gives the number back, for every number that fits in `n` bytes. */
  lemma {:induction false} BigEndianRoundTrip(x: nat, n: nat)
    requires x < Pow256(n)
    ensures FromBigEndian(ToBigEndian(x, n)) == x
  {
    if n > 0 {
      var s := ToBigEndian(x, n);
      assert s[..n - 1] == ToBigEndian(x / 256, n - 1);
      BigEndianRoundTrip(x / 256, n - 1);
    }
  }

  /** Encoding a decoded byte string gives the byte string back: the encoding is onto. */
  lemma {:induction false} BigEndianRoundTripBytes(s: Bytes)
    ensures ToBigEndian(FromBigEndian(s), |s|) == s
  {
    if s != [] {
      var init := s[..|s| - 1];
      var v := FromBigEndian(s);
      assert v / 256 == FromBigEndian(init);
      assert v % 256 == s[|s| - 1];
      BigEndianRoundTripBytes(init);
      assert s == init + [s[|s| - 1]];
    }
  }

  /** Two numbers of `n` bytes with the same encoding are equal. */
  lemma BigEndianInjective(x: nat, y: nat, n: nat)
    requires x < Pow256(n) && y < Pow256(n)
    requires ToBigEndian(x, n) == ToBigEndian(y, n)
    ensures x == y
  {
    BigEndianRoundTrip(x, n);
    BigEndianRoundTrip(y, n);
  }

  function BE16(x: u16): (r: Bytes)
    ensures |r| == 2
  {
    ToBigEndian(x, 2)
  }

  function BE32(x: u32): (r: Bytes)
    ensures |r| == 4
  {
    ToBigEndian(x, 4)
  }

  function BE64(x: u64): (r: Bytes)
    ensures |r| == 8
  {
    ToBigEndian(x, 8)
  }

  function ReadBE16(s: Bytes): (r: u16)
    requires |s| == 2
  {
    assert Pow256(2) == 0x1_0000;
    FromBigEndian(s)
  }

  function ReadBE32(s: Bytes): (r: u32)
    requires |s| == 4
  {
    assert Pow256(4) == 0x1_0000_0000;
    FromBigEndian(s)
  }

  function ReadBE64(s: Bytes): (r: u64)
    requires |s| == 8
  {
    assert Pow256(8) == 0x1_0000_0000_0000_0000;
    FromBigEndian(s)
  }

  lemma BE16RoundTrip(x: u16)
    ensures ReadBE16(BE16(x)) == x
  {
    BigEndianRoundTrip(x, 2);
  }

  lemma BE32RoundTrip(x: u32)
    ensures ReadBE32(BE32(x)) == x
  {
    assert Pow256(4) == 0x1_0000_0000;
    BigEndianRoundTrip(x, 4);
  }

  lemma BE64RoundTrip(x: u64)
    ensures ReadBE64(BE64(x)) == x
  {
    assert Pow256(8) == 0x1_0000_0000_0000_0000;
    BigEndianRoundTrip(x, 8);
  }

  /** Reading two bytes and writing the value back gives the same bytes. */
  lemma BE16OfRead(s: Bytes)
    requires |s| == 2
    ensures BE16(ReadBE16(s)) == s
  {
    BigEndianRoundTripBytes(s);
  }

  /** Reading four bytes and writing the value back gives the same bytes. */
  lemma BE32OfRead(s: Bytes)
    requires |s| == 4
    ensures BE32(ReadBE32(s)) == s
  {
    BigEndianRoundTripBytes(s);
  }

  /** Reading eight bytes and writing the value back gives the same bytes. */
  lemma BE64OfRead(s: Bytes)
    requires |s| == 8
    ensures BE64(ReadBE64(s)) == s
  {
    BigEndianRoundTripBytes(s);
  }

  /** `u16::to_le_bytes`: low byte first. */
  function LE16(x: u16): (r: Bytes)
    ensures |r| == 2
  {
    [x % 256, x / 256]
  }

  /** `u16::from_le_bytes`. */
  function ReadLE16(lo: u8, hi: u8): (r: u16)
  {
    lo + 256 * hi
  }

  /** Every pair of bytes is the little-endian encoding of the number it denotes. */
  lemma LE16OfRead(lo: u8, hi: u8)
    ensures LE16(ReadLE16(lo, hi)) == [lo, hi]
  {
  }

  lemma LE16RoundTrip(x: u16)
    ensures ReadLE16(LE16(x)[0], LE16(x)[1]) == x
  {
  }
}
