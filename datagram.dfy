/**
 * `SlowDatagram`: an older, JSON-only unit of transfer. Its header holds the
 * addressee, the hops remaining and the payload size, three `u16` that the
 * external serializer turns into `size_of::<SlowDatagramHeader>()` = 6
 * bytes. The serializer and the JSON encoder are parameters here.
 */
module Datagram {
  import opened Common

  datatype SlowDatagramHeader = SlowDatagramHeader(addresseeId: u16, hopsRemaining: u16, payloadSize: u16)

  /** The in-memory size of the header: three `u16`. */
  const HeaderSize: nat := 6

  /** The hops a new datagram may travel. */
  const InitialHops: u16 := 4

  /** The external header serializer and deserializer. */
  type DatagramHeaderEncoder = SlowDatagramHeader -> Bytes
  type DatagramHeaderDecoder = Bytes -> Option<SlowDatagramHeader>

  /** The two agree on the first `HeaderSize` bytes. */
  ghost predicate HeaderCodec(encode: DatagramHeaderEncoder, decode: DatagramHeaderDecoder)
  {
    forall h: SlowDatagramHeader :: |encode(h)| == HeaderSize && decode(encode(h)) == Some(h)
  }

  /**
   * A saturating decrement: at most one less, never below zero, and
   * unchanged only at zero.
   */
  function Decremented(hops: u16): (r: u16)
    ensures r <= hops && hops - r <= 1
    ensures r == hops <==> hops == 0
  {
    if hops > 0 then hops - 1 else 0
  }

  /**
   * `SlowDatagram::peek_header`: decode the first `HeaderSize` bytes; a
   * shorter input makes the source's slice panic and is excluded.
   */
  function PeekHeader(data: Bytes, decode: DatagramHeaderDecoder): (r: Option<SlowDatagramHeader>)
    requires |data| >= HeaderSize
    ensures forall rest: Bytes :: r == decode((data + rest)[..HeaderSize])
  {
    assert forall rest: Bytes :: (data + rest)[..HeaderSize] == data[..HeaderSize];
    decode(data[..HeaderSize])
  }

  /**
   * The content `unpackage` builds a datagram from: the decoded header and
   * every byte after it, accepted only if the header's size matches.
   */
  function UnpackageParts(data: Bytes, decode: DatagramHeaderDecoder): (r: Option<(SlowDatagramHeader, Bytes)>)
    requires |data| >= HeaderSize
    ensures r.Some? <==> PeekHeader(data, decode).Some? && PeekHeader(data, decode).value.payloadSize == |data| - HeaderSize
    ensures r.Some? ==> r.value.0 == PeekHeader(data, decode).value && r.value.1 == data[HeaderSize..]
    ensures r.Some? ==> r.value.0.payloadSize == |r.value.1|
  {
    match PeekHeader(data, decode)
    case None => None
    case Some(header) =>
      var jsonData := data[HeaderSize..];
      if header.payloadSize == |jsonData| then Some((header, jsonData)) else None
  }

  /** The bytes `package` produces for a header and a payload. */
  function PackageBytes(header: SlowDatagramHeader, payload: Bytes, encode: DatagramHeaderEncoder): (r: Bytes)
    ensures |r| == |encode(header)| + |payload|
    ensures r[..|encode(header)|] == encode(header) && r[|encode(header)|..] == payload
  {
    encode(header) + payload
  }

  /** With a matching serializer, a datagram whose size field is right survives packaging. */
  lemma PackageRoundTrip(header: SlowDatagramHeader, payload: Bytes,
                         encode: DatagramHeaderEncoder, decode: DatagramHeaderDecoder)
    requires HeaderCodec(encode, decode)
    requires header.payloadSize == |payload|
    ensures |PackageBytes(header, payload, encode)| >= HeaderSize
    ensures PeekHeader(PackageBytes(header, payload, encode), decode) == Some(header)
    ensures UnpackageParts(PackageBytes(header, payload, encode), decode) == Some((header, payload))
  {
    var data := PackageBytes(header, payload, encode);
    assert data[..HeaderSize] == encode(header);
  }

  /** A size field that disagrees with the payload is refused. */
  lemma PackageWrongSizeRejected(header: SlowDatagramHeader, payload: Bytes,
                                 encode: DatagramHeaderEncoder, decode: DatagramHeaderDecoder)
    requires HeaderCodec(encode, decode)
    requires header.payloadSize != |payload|
    ensures |PackageBytes(header, payload, encode)| >= HeaderSize
    ensures UnpackageParts(PackageBytes(header, payload, encode), decode) == None
  {
    var data := PackageBytes(header, payload, encode);
    assert data[..HeaderSize] == encode(header);
  }

  /** From four hops: three decrements report hops left (3, 2, 1), then every one reports none. */
  lemma DecrementFromFour()
    ensures Decremented(InitialHops) == 3 && Decremented(3) == 2 && Decremented(2) == 1
    ensures Decremented(1) == 0 && Decremented(0) == 0
    ensures Decremented(InitialHops) > 0 && Decremented(3) > 0 && Decremented(2) > 0
    ensures !(Decremented(1) > 0) && !(Decremented(0) > 0)
  {
  }

  class SlowDatagram {
    var header: SlowDatagramHeader
    var payload: Bytes

    /** The struct literal. */
    constructor (header: SlowDatagramHeader, payload: Bytes)
      ensures this.header == header && this.payload == payload
    {
      this.header := header;
      this.payload := payload;
    }

    /**
     * `SlowDatagram::new`: `None` exactly when the JSON encoder fails;
     * otherwise four hops and the payload length as a `u16`.
     */
    static method New<J>(addresseeId: u16, json: J, toVec: J -> Option<Bytes>) returns (r: Option<SlowDatagram>)
      ensures r.None? <==> toVec(json).None?
      ensures r.Some? ==>
        && fresh(r.value)
        && r.value.payload == toVec(json).value
        && r.value.header == SlowDatagramHeader(addresseeId, InitialHops, TruncU16(|toVec(json).value|))
    {
      var encoded := toVec(json);
      if encoded.None? {
        return None;
      }
      var payload := encoded.value;
      var header := SlowDatagramHeader(addresseeId, InitialHops, TruncU16(|payload|));
      var d := new SlowDatagram(header, payload);
      r := Some(d);
    }

    /** `SlowDatagram::unpackage`. */
    static method Unpackage(data: Bytes, decode: DatagramHeaderDecoder) returns (r: Option<SlowDatagram>)
      requires |data| >= HeaderSize
      ensures r.Some? <==> UnpackageParts(data, decode).Some?
      ensures r.Some? ==> fresh(r.value) && (r.value.header, r.value.payload) == UnpackageParts(data, decode).value
    {
      var parts := UnpackageParts(data, decode);
      if parts.None? {
        return None;
      }
      var d := new SlowDatagram(parts.value.0, parts.value.1);
      r := Some(d);
    }

    /** `SlowDatagram::package`: the serialized header, then the payload. */
    function Package(encode: DatagramHeaderEncoder): (r: Bytes)
      reads this
      ensures r == PackageBytes(header, payload, encode)
    {
      encode(header) + payload
    }

    /**
     * `SlowDatagram::decrement_hops`: one hop less, but never below zero;
     * true while hops remain.
     */
    method DecrementHops() returns (r: bool)
      modifies this
      ensures header == old(header).(hopsRemaining := Decremented(old(header.hopsRemaining)))
      ensures payload == old(payload)
      ensures r <==> header.hopsRemaining > 0
    {
      if header.hopsRemaining > 0 {
        header := header.(hopsRemaining := header.hopsRemaining - 1);
      }
      r := header.hopsRemaining > 0;
    }
  }
}
