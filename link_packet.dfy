/**
 * Link packets: what one link sends to another. A payload packet is a type
 * byte, a big-endian u64 packet id, a big-endian u16 payload size and the
 * payload; an acknowledgement is a type byte and two big-endian u64 (the
 * highest id received and the receive window); a hello is the single type
 * byte.
 */
module LinkPacket {
  import opened Common
  import opened ByteOrder

  datatype SlowLinkPacketType = Acknowledge | Hello | Payload

  /** The `&'static str` errors of the decoders that can actually occur. */
  datatype LinkError =
    | InvalidPacketType
    | HeaderTooShort
    | NotPayloadPacket
    | PayloadTooShort
    | AckTooShort
    | NotAckPacket

  /** The message each error carries. */
  function Message(e: LinkError): string
  {
    match e
    case InvalidPacketType => "Invalid packet type."
    case HeaderTooShort => "Data is too short to contain a valid packet header"
    case NotPayloadPacket => "Not a payload packet"
    case PayloadTooShort => "Data is too short to contain the specified payload"
    case AckTooShort => "Data is too short to contain a valid acknowledge packet"
    case NotAckPacket => "Not an acknowledge packet"
  }

  /** `SlowLinkPacketType as u8`: the declaration order. */
  function TypeByte(t: SlowLinkPacketType): (r: u8)
    ensures r < 3
  {
    match t
    case Acknowledge => 0
    case Hello => 1
    case Payload => 2
  }

  /** `SlowLinkPacketType::try_from(u8)`. */
  function TypeFromByte(b: u8): (r: Result<SlowLinkPacketType, LinkError>)
    ensures r.Ok? <==> b < 3
    ensures r.Ok? ==> TypeByte(r.value) == b
    ensures r.Err? ==> r.error == InvalidPacketType
  {
    if b == 0 then Ok(Acknowledge)
    else if b == 1 then Ok(Hello)
    else if b == 2 then Ok(Payload)
    else Err(InvalidPacketType)
  }

  lemma TypeByteRoundTrip(t: SlowLinkPacketType)
    ensures TypeFromByte(TypeByte(t)) == Ok(t)
  {
  }

  // ---------------------------------------------------------------------
  // Payload packets
  // ---------------------------------------------------------------------

  datatype SlowLinkPayloadPacket = SlowLinkPayloadPacket(packetType: u8, packetId: u64, payloadSize: u16, payload: Bytes)

  const PayloadHeaderSize: nat := 1 + 8 + 2

  /** `SlowLinkPayloadPacket::new`: the size is the payload length as a `u16`. */
  function NewPayloadPacket(packetId: u64, payload: Bytes): (r: SlowLinkPayloadPacket)
    ensures r.packetType == TypeByte(Payload) && r.packetId == packetId && r.payload == payload
    ensures r.payloadSize == |payload| % 0x1_0000
  {
    SlowLinkPayloadPacket(TypeByte(Payload), packetId, TruncU16(|payload|), payload)
  }

  /** `SlowLinkPayloadPacket::pack`. */
  function PackPayload(p: SlowLinkPayloadPacket): (r: Bytes)
    ensures |r| == PayloadHeaderSize + |p.payload|
    ensures r[0] == p.packetType && r[1..9] == BE64(p.packetId) && r[9..11] == BE16(p.payloadSize)
    ensures r[11..] == p.payload
  {
    [p.packetType] + BE64(p.packetId) + BE16(p.payloadSize) + p.payload
  }

  /**
   * `SlowLinkPayloadPacket::unpack`: an 11-byte header of payload type,
   * then `payload_size` bytes; anything after them is ignored.
   */
  function UnpackPayload(data: Bytes): (r: Result<SlowLinkPayloadPacket, LinkError>)
    ensures r.Ok? <==>
      |data| >= PayloadHeaderSize && data[0] == TypeByte(Payload)
      && |data| - PayloadHeaderSize >= ReadBE16(data[9..11])
    ensures r.Ok? ==>
      && r.value.packetType == data[0]
      && r.value.packetId == ReadBE64(data[1..9])
      && r.value.payloadSize == ReadBE16(data[9..11])
      && r.value.payload == data[11..11 + r.value.payloadSize]
  {
    if |data| < PayloadHeaderSize then Err(HeaderTooShort)
    else
      var packetType := data[0];
      match TypeFromByte(packetType)
      case Err(e) => Err(e)
      case Ok(t) =>
        if t != Payload then Err(NotPayloadPacket)
        else
          var packetId := ReadBE64(data[1..9]);
          var payloadSize := ReadBE16(data[9..11]);
          if |data| - PayloadHeaderSize < payloadSize then Err(PayloadTooShort)
          else Ok(SlowLinkPayloadPacket(packetType, packetId, payloadSize, data[11..11 + payloadSize]))
  }

  /** Which error a refused payload packet gives. */
  lemma UnpackPayloadErrors(data: Bytes)
    ensures |data| < PayloadHeaderSize ==> UnpackPayload(data) == Err(HeaderTooShort)
    ensures |data| >= PayloadHeaderSize && data[0] >= 3 ==> UnpackPayload(data) == Err(InvalidPacketType)
    ensures |data| >= PayloadHeaderSize && data[0] < 2 ==> UnpackPayload(data) == Err(NotPayloadPacket)
    ensures |data| >= PayloadHeaderSize && data[0] == 2 && |data| - PayloadHeaderSize < ReadBE16(data[9..11])
      ==> UnpackPayload(data) == Err(PayloadTooShort)
  {
  }

  /**
   * A packet made by `new` survives packing, whatever bytes follow it, as
   * long as its payload is shorter than 65536 bytes.
   */
  lemma PayloadRoundTrip(packetId: u64, payload: Bytes, rest: Bytes)
    requires |payload| < 0x1_0000
    ensures UnpackPayload(PackPayload(NewPayloadPacket(packetId, payload)) + rest) == Ok(NewPayloadPacket(packetId, payload))
  {
    var p := NewPayloadPacket(packetId, payload);
    var data := PackPayload(p) + rest;
    assert data[1..9] == BE64(packetId);
    assert data[9..11] == BE16(p.payloadSize);
    BE64RoundTrip(packetId);
    BE16RoundTrip(p.payloadSize);
    assert data[11..11 + |payload|] == payload;
  }

  /**
   * A payload of 65536 bytes or more has its size truncated by `new`, and
   * only the first `len mod 65536` bytes come back.
   */
  lemma OversizePayloadTruncated(packetId: u64, payload: Bytes)
    requires |payload| >= 0x1_0000
    ensures UnpackPayload(PackPayload(NewPayloadPacket(packetId, payload))).Ok?
    ensures UnpackPayload(PackPayload(NewPayloadPacket(packetId, payload))).value.payload
         == payload[..|payload| % 0x1_0000]
    ensures UnpackPayload(PackPayload(NewPayloadPacket(packetId, payload))) != Ok(NewPayloadPacket(packetId, payload))
  {
    var p := NewPayloadPacket(packetId, payload);
    var data := PackPayload(p);
    BE16RoundTrip(p.payloadSize);
    assert data[11..11 + p.payloadSize] == payload[..p.payloadSize];
  }

  /** The payload test: the 16 bytes of "Hello, SlowLink!" packed into 27 and unpacked to the same packet. */
  lemma PayloadPackTest()
    ensures var hello: Bytes := [72, 101, 108, 108, 111, 44, 32, 83, 108, 111, 119, 76, 105, 110, 107, 33];
      && |PackPayload(NewPayloadPacket(42, hello))| == 27
      && UnpackPayload(PackPayload(NewPayloadPacket(42, hello))) == Ok(NewPayloadPacket(42, hello))
  {
    var hello: Bytes := [72, 101, 108, 108, 111, 44, 32, 83, 108, 111, 119, 76, 105, 110, 107, 33];
    PayloadRoundTrip(42, hello, []);
    assert PackPayload(NewPayloadPacket(42, hello)) + [] == PackPayload(NewPayloadPacket(42, hello));
  }

  /** The malformed inputs of the payload tests. */
  lemma PayloadInvalidTests()
    ensures UnpackPayload([]) == Err(HeaderTooShort)
    ensures UnpackPayload([2, 0, 1]) == Err(HeaderTooShort)
    ensures UnpackPayload([255, 0, 0, 0, 0, 0, 0, 0, 42, 0, 5, 1, 2, 3, 4, 5]).Err?
    ensures UnpackPayload([2, 0, 0, 0, 0, 0, 0, 0, 42, 0, 10, 1, 2, 3]) == Err(PayloadTooShort)
  {
    var short: Bytes := [2, 0, 0, 0, 0, 0, 0, 0, 42, 0, 10, 1, 2, 3];
    assert short[9..11] == [0, 10];
    assert ReadBE16([0, 10]) == 10;
  }

  // ---------------------------------------------------------------------
  // Acknowledgement packets
  // ---------------------------------------------------------------------

  datatype SlowLinkAckPacket = SlowLinkAckPacket(packetType: u8, highestPacketId: u64, packetBitfield: u64)

  const AckSize: nat := 1 + 8 + 8

  /** `SlowLinkAckPacket::new`. */
  function NewAckPacket(highestPacketId: u64, packetBitfield: u64): (r: SlowLinkAckPacket)
    ensures r.packetType == TypeByte(Acknowledge)
    ensures r.highestPacketId == highestPacketId && r.packetBitfield == packetBitfield
  {
    SlowLinkAckPacket(TypeByte(Acknowledge), highestPacketId, packetBitfield)
  }

  /** `SlowLinkAckPacket::pack`: 17 bytes. */
  function PackAck(a: SlowLinkAckPacket): (r: Bytes)
    ensures |r| == AckSize
    ensures r[0] == a.packetType && r[1..9] == BE64(a.highestPacketId) && r[9..17] == BE64(a.packetBitfield)
  {
    [a.packetType] + BE64(a.highestPacketId) + BE64(a.packetBitfield)
  }

  /** `SlowLinkAckPacket::unpack`: 17 bytes of acknowledgement type; the rest is ignored. */
  function UnpackAck(data: Bytes): (r: Result<SlowLinkAckPacket, LinkError>)
    ensures r.Ok? <==> |data| >= AckSize && data[0] == TypeByte(Acknowledge)
    ensures r.Ok? ==> r.value == SlowLinkAckPacket(data[0], ReadBE64(data[1..9]), ReadBE64(data[9..17]))
    ensures |data| < AckSize ==> r == Err(AckTooShort)
    ensures |data| >= AckSize && data[0] >= 3 ==> r == Err(InvalidPacketType)
    ensures |data| >= AckSize && 1 <= data[0] < 3 ==> r == Err(NotAckPacket)
  {
    if |data| < AckSize then Err(AckTooShort)
    else
      var packetType := data[0];
      match TypeFromByte(packetType)
      case Err(e) => Err(e)
      case Ok(t) =>
        if t != Acknowledge then Err(NotAckPacket)
        else Ok(SlowLinkAckPacket(packetType, ReadBE64(data[1..9]), ReadBE64(data[9..17])))
  }

  /** An acknowledgement made by `new` survives packing, whatever follows it. */
  lemma AckRoundTrip(highestPacketId: u64, packetBitfield: u64, rest: Bytes)
    ensures UnpackAck(PackAck(NewAckPacket(highestPacketId, packetBitfield)) + rest)
         == Ok(NewAckPacket(highestPacketId, packetBitfield))
  {
    var data := PackAck(NewAckPacket(highestPacketId, packetBitfield)) + rest;
    assert data[1..9] == BE64(highestPacketId);
    assert data[9..17] == BE64(packetBitfield);
    BE64RoundTrip(highestPacketId);
    BE64RoundTrip(packetBitfield);
  }

  // ---------------------------------------------------------------------
  // Any link packet
  // ---------------------------------------------------------------------

  datatype SlowLinkPacket =
    | Invalid
    | AcknowledgePacket(ack: SlowLinkAckPacket)
    | HelloPacket
    | PayloadPacket(payload: SlowLinkPayloadPacket)

  /** `SlowLinkPacket::unpack`: dispatch on the first byte; every failure is `Invalid`. */
  function Unpack(data: Bytes): (r: SlowLinkPacket)
    ensures data == [] ==> r == Invalid
    ensures r == HelloPacket <==> data == [TypeByte(Hello)]
    ensures r.AcknowledgePacket? <==> UnpackAck(data).Ok?
    ensures r.AcknowledgePacket? ==> r.ack == UnpackAck(data).value
    ensures r.PayloadPacket? <==> UnpackPayload(data).Ok?
    ensures r.PayloadPacket? ==> r.payload == UnpackPayload(data).value
  {
    if data == [] then Invalid
    else
      match TypeFromByte(data[0])
      case Ok(Acknowledge) =>
        (match UnpackAck(data)
         case Ok(packet) => AcknowledgePacket(packet)
         case Err(_) => Invalid)
      case Ok(Hello) =>
        if |data| == 1 && data[0] == TypeByte(Hello) then HelloPacket else Invalid
      case Ok(Payload) =>
        (match UnpackPayload(data)
         case Ok(packet) => PayloadPacket(packet)
         case Err(_) => Invalid)
      case Err(_) => Invalid
  }

  /** The three packet kinds each survive `SlowLinkPacket::unpack`. */
  lemma UnpackRoundTrips(packetId: u64, payload: Bytes, highestPacketId: u64, packetBitfield: u64)
    requires |payload| < 0x1_0000
    ensures Unpack(PackPayload(NewPayloadPacket(packetId, payload))) == PayloadPacket(NewPayloadPacket(packetId, payload))
    ensures Unpack(PackAck(NewAckPacket(highestPacketId, packetBitfield))) == AcknowledgePacket(NewAckPacket(highestPacketId, packetBitfield))
    ensures Unpack([TypeByte(Hello)]) == HelloPacket
  {
    PayloadRoundTrip(packetId, payload, []);
    assert PackPayload(NewPayloadPacket(packetId, payload)) + [] == PackPayload(NewPayloadPacket(packetId, payload));
    AckRoundTrip(highestPacketId, packetBitfield, []);
    assert PackAck(NewAckPacket(highestPacketId, packetBitfield)) + [] == PackAck(NewAckPacket(highestPacketId, packetBitfield));
  }
}
