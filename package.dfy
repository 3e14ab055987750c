/**
 * `SlowPackage`: the unit a junction routes. A header (recipient, sender,
 * hop count, type byte, package id, payload size) and a payload.
 *
 * The header's byte form is produced by an external serializer; it is a
 * parameter here (`HeaderEncoder`/`HeaderDecoder`), and so is the JSON
 * text of a JSON payload. Packages are owned values that are moved, never
 * shared, so the two mutators are functions returning the updated package.
 */
module Package {
  import opened Common
  import opened JunctionIds

  datatype PackageType = Ping | Pong | Json | Bin

  /** `u8::from(PackageType)`. */
  function TypeToByte(t: PackageType): (r: u8)
    ensures r < 4
  {
    match t
    case Ping => 0
    case Pong => 1
    case Json => 2
    case Bin => 3
  }

  /** `PackageType::try_from(u8)`; the unit error is `None`. */
  function TypeFromByte(b: u8): (r: Option<PackageType>)
    ensures r.Some? <==> b < 4
    ensures r.Some? ==> TypeToByte(r.value) == b
  {
    if b == 0 then Some(Ping)
    else if b == 1 then Some(Pong)
    else if b == 2 then Some(Json)
    else if b == 3 then Some(Bin)
    else None
  }

  /** The two conversions are inverse: every type survives the trip through its byte. */
  lemma TypeByteRoundTrip(t: PackageType)
    ensures TypeFromByte(TypeToByte(t)) == Some(t)
  {
  }

  datatype SlowPackageHeader = SlowPackageHeader(
    recipientId: JunctionId,
    senderId: JunctionId,
    hopCount: u8,
    packageType: u8,
    packageId: u32,
    payloadSize: u16)

  datatype SlowPackage = SlowPackage(header: SlowPackageHeader, payload: Bytes)

  /** The shape every constructor gives: no hops, id 0, size the payload length as a `u16`. */
  function NewPackage(recipientId: JunctionId, senderId: JunctionId, t: PackageType, payload: Bytes): (r: SlowPackage)
    ensures r.header.recipientId == recipientId && r.header.senderId == senderId
    ensures r.header.hopCount == 0 && r.header.packageId == 0
    ensures r.header.packageType == TypeToByte(t)
    ensures r.payload == payload
    ensures r.header.payloadSize == |payload| % 0x1_0000
  {
    SlowPackage(SlowPackageHeader(recipientId, senderId, 0, TypeToByte(t), 0, TruncU16(|payload|)), payload)
  }

  /** `SlowPackage::new_json_payload`; `json` is the serialized JSON text. */
  function NewJsonPayload(recipientId: JunctionId, senderId: JunctionId, json: Bytes): (r: SlowPackage)
    ensures r == NewPackage(recipientId, senderId, Json, json)
    ensures GetPackageType(r) == Some(Json)
  {
    NewPackage(recipientId, senderId, Json, json)
  }

  /** `SlowPackage::new_bin_payload`. */
  function NewBinPayload(recipientId: JunctionId, senderId: JunctionId, bin: Bytes): (r: SlowPackage)
    ensures r == NewPackage(recipientId, senderId, Bin, bin)
    ensures GetPackageType(r) == Some(Bin)
  {
    NewPackage(recipientId, senderId, Bin, bin)
  }

  /** `SlowPackage::new_ping`: an empty payload of size 0. */
  function NewPing(recipientId: JunctionId, senderId: JunctionId): (r: SlowPackage)
    ensures r == NewPackage(recipientId, senderId, Ping, [])
    ensures r.payload == [] && r.header.payloadSize == 0
    ensures GetPackageType(r) == Some(Ping)
  {
    NewPackage(recipientId, senderId, Ping, [])
  }

  /** `SlowPackage::new_pong`: an empty payload of size 0. */
  function NewPong(recipientId: JunctionId, senderId: JunctionId): (r: SlowPackage)
    ensures r == NewPackage(recipientId, senderId, Pong, [])
    ensures r.payload == [] && r.header.payloadSize == 0
    ensures GetPackageType(r) == Some(Pong)
  {
    NewPackage(recipientId, senderId, Pong, [])
  }

  /** The external header serializer. */
  type HeaderEncoder = SlowPackageHeader -> Bytes

  /** The external header deserializer: the header and the number of bytes it took. */
  type HeaderDecoder = Bytes -> Option<(SlowPackageHeader, nat)>

  /** `SlowPackage::package`: the serialized header, then the payload. */
  function Encode(p: SlowPackage, encode: HeaderEncoder): (r: Bytes)
    ensures |r| == |encode(p.header)| + |p.payload|
    ensures r[|encode(p.header)|..] == p.payload
  {
    encode(p.header) + p.payload
  }

  /**
   * `SlowPackage::unpackage`: decode the header, take every remaining byte
   * as the payload and accept only if the header's size matches.
   */
  function Unpackage(data: Bytes, decode: HeaderDecoder): (r: Option<SlowPackage>)
    requires decode(data).Some? ==> decode(data).value.1 <= |data|
    ensures r.Some? <==> decode(data).Some? && decode(data).value.0.payloadSize == |data| - decode(data).value.1
    ensures r.Some? ==> r.value.header == decode(data).value.0 && r.value.payload == data[decode(data).value.1..]
  {
    match decode(data)
    case None => None
    case Some((header, used)) =>
      var payload := data[used..];
      if header.payloadSize == |payload| then Some(SlowPackage(header, payload)) else None
  }

  /** The serializer and deserializer agree: a decoded encoding gives back the header and its length, whatever follows. */
  ghost predicate CodecPair(encode: HeaderEncoder, decode: HeaderDecoder)
  {
    forall h: SlowPackageHeader, rest: Bytes ::
      decode(encode(h) + rest) == Some((h, |encode(h)|))
  }

  /** With a matching header codec, a package whose size field is right survives packaging. */
  lemma PackageRoundTrip(p: SlowPackage, encode: HeaderEncoder, decode: HeaderDecoder)
    requires CodecPair(encode, decode)
    requires p.header.payloadSize == |p.payload|
    ensures decode(Encode(p, encode)).Some?
    ensures Unpackage(Encode(p, encode), decode) == Some(p)
  {
    var data := Encode(p, encode);
    assert decode(encode(p.header) + p.payload) == Some((p.header, |encode(p.header)|));
  }

  /**
   * A package whose size field disagrees with its payload does not come
   * back: this is what happens to a payload of 65536 bytes or more.
   */
  lemma PackageWrongSizeRejected(p: SlowPackage, encode: HeaderEncoder, decode: HeaderDecoder)
    requires CodecPair(encode, decode)
    requires p.header.payloadSize != |p.payload|
    ensures decode(Encode(p, encode)).Some?
    ensures Unpackage(Encode(p, encode), decode) == None
  {
    assert decode(encode(p.header) + p.payload) == Some((p.header, |encode(p.header)|));
  }

  /** `SlowPackage::increment_hops` (wrapping at 255): the new package and the new hop count. */
  function IncrementHops(p: SlowPackage): (r: (SlowPackage, u8))
    ensures r.1 == r.0.header.hopCount
    ensures p.header.hopCount < 0xFF ==> r.1 == p.header.hopCount + 1
    ensures p.header.hopCount == 0xFF ==> r.1 == 0
    ensures r.0 == p.(header := p.header.(hopCount := r.1))
  {
    var hops := WrappingIncU8(p.header.hopCount);
    (p.(header := p.header.(hopCount := hops)), hops)
  }

  /** `SlowPackage::set_package_id`. */
  function SetPackageId(p: SlowPackage, packageId: u32): (r: SlowPackage)
    ensures GetPackageId(r) == packageId
    ensures r.payload == p.payload
    ensures r.header.recipientId == p.header.recipientId && r.header.senderId == p.header.senderId
    ensures r.header.hopCount == p.header.hopCount && r.header.packageType == p.header.packageType
    ensures r.header.payloadSize == p.header.payloadSize
  {
    p.(header := p.header.(packageId := packageId))
  }

  /** `SlowPackage::get_package_id`. */
  function GetPackageId(p: SlowPackage): u32
  {
    p.header.packageId
  }

  /** `SlowPackage::get_package_type`: fails exactly on a type byte of 4 or more. */
  function GetPackageType(p: SlowPackage): (r: Option<PackageType>)
    ensures r.None? <==> p.header.packageType >= 4
    ensures r.Some? ==> TypeToByte(r.value) == p.header.packageType
  {
    TypeFromByte(p.header.packageType)
  }

  /** The id and hop tests: a ping starts at id 0 and 0 hops; ids are set and hops counted up. */
  lemma PackageTests(recipientId: JunctionId, senderId: JunctionId)
    ensures GetPackageId(NewPing(recipientId, senderId)) == 0
    ensures GetPackageId(SetPackageId(NewPing(recipientId, senderId), 42)) == 42
    ensures IncrementHops(NewPing(recipientId, senderId)).1 == 1
    ensures IncrementHops(IncrementHops(NewPing(recipientId, senderId)).0).0.header.hopCount == 2
  {
  }
}
