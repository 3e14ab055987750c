/**
 * `JunctionId`: the textual identity of a junction and its wire form, a
 * little-endian u16 byte count followed by the id's UTF-8 bytes.
 */
module JunctionIds {
  import opened Common
  import opened ByteOrder
  import opened Utf8

  /** A junction id; the Rust `String` is represented by its UTF-8 bytes. Equality is the derived `PartialEq`. */
  datatype JunctionId = JunctionId(id: Utf8String)

  /** Length of the wire form of `j`. */
  function PackedLength(j: JunctionId): nat
  {
    2 + |j.id|
  }

  /** `JunctionId::pack`: the byte count as a little-endian u16 (truncated by `as u16`), then the bytes. */
  function Pack(j: JunctionId): (r: Bytes)
    ensures |r| == PackedLength(j)
  {
    LE16(TruncU16(|j.id|)) + j.id
  }

  /** `JunctionId::unpack`. */
  function Unpack(data: Bytes): (r: Option<JunctionId>)
    ensures r.Some? ==> PackedLength(r.value) <= |data| && Pack(r.value) == data[..PackedLength(r.value)]
  {
    if |data| < 2 then None
    else
      var len := ReadLE16(data[0], data[1]);
      if |data| < 2 + len then None
      else if ValidUtf8(data[2..2 + len]) then
        LE16OfRead(data[0], data[1]);
        assert data[..2 + len] == [data[0], data[1]] + data[2..2 + len];
        Some(JunctionId(data[2..2 + len]))
      else None
  }

  /** Unpacking a packed id, whatever follows it, gives the id back. */
  lemma RoundTrip(j: JunctionId, rest: Bytes)
    requires |j.id| < 0x1_0000
    ensures Unpack(Pack(j) + rest) == Some(j)
  {
    var data := Pack(j) + rest;
    LE16RoundTrip(|j.id|);
    assert data[2..2 + |j.id|] == j.id;
  }

  /** Fewer than two bytes cannot hold the length prefix. */
  lemma UnpackTooShort(data: Bytes)
    requires |data| < 2
    ensures Unpack(data) == None
  {
  }

  /** A declared length beyond the available bytes is rejected. */
  lemma UnpackTruncated(data: Bytes)
    requires |data| >= 2 && |data| < 2 + ReadLE16(data[0], data[1])
    ensures Unpack(data) == None
  {
  }

  /** Id bytes that are not well-formed UTF-8 are rejected. */
  lemma UnpackRejectsInvalidUtf8(data: Bytes)
    requires |data| >= 2 && 2 + ReadLE16(data[0], data[1]) <= |data|
    requires !ValidUtf8(data[2..2 + ReadLE16(data[0], data[1])])
    ensures Unpack(data) == None
  {
  }

  /** Unpacking succeeds exactly when the prefix, the declared bytes and their encoding are all good. */
  lemma UnpackSucceedsIff(data: Bytes)
    ensures Unpack(data).Some? <==>
      (|data| >= 2 && 2 + ReadLE16(data[0], data[1]) <= |data|
       && ValidUtf8(data[2..2 + ReadLE16(data[0], data[1])]))
  {
  }

  /** Bytes after the declared id are never read. */
  lemma UnpackIgnoresTrailing(data: Bytes, rest: Bytes)
    requires Unpack(data).Some?
    ensures Unpack(data + rest) == Unpack(data)
  {
    var len := ReadLE16(data[0], data[1]);
    assert (data + rest)[0] == data[0] && (data + rest)[1] == data[1];
    assert (data + rest)[2..2 + len] == data[2..2 + len];
  }

  /** Distinct ids (of representable length) have distinct wire forms. */
  lemma PackInjective(a: JunctionId, b: JunctionId)
    requires |a.id| < 0x1_0000 && |b.id| < 0x1_0000
    requires Pack(a) == Pack(b)
    ensures a == b
  {
    RoundTrip(a, []);
    RoundTrip(b, []);
    assert Pack(a) + [] == Pack(b) + [];
  }

  /** The three malformed inputs of the id test: empty, a length of 5 with no bytes, and 0xFF bytes. */
  lemma UnpackRejectsExamples()
    ensures Unpack([]) == None
    ensures Unpack([5, 0]) == None
    ensures Unpack([3, 0, 0xFF, 0xFF, 0xFF]) == None
  {
    var bad: Bytes := [3, 0, 0xFF, 0xFF, 0xFF];
    assert bad[2..5] == [0xFF, 0xFF, 0xFF];
    LeadingTailInvalid(bad[2..5]);
  }
}
