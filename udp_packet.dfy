/**
 * UDP packets: a data packet is a type byte, a big-endian u32 packet id,
 * big-endian u16 index and count and then all remaining bytes as data; an
 * acknowledgement is a type byte, a big-endian u32 id and a big-endian u64
 * bitfield. Every decoding failure is the unit error, `Err(())`, here `None`.
 */
module UdpPacket {
  import opened Common
  import opened ByteOrder

  datatype SlowUdpPacketType = Data | Ack

  /** `u8::from(SlowUdpPacketType)`. */
  function TypeByte(t: SlowUdpPacketType): (r: u8)
    ensures r < 2
  {
    match t
    case Data => 0
    case Ack => 1
  }

  /** `SlowUdpPacketType::try_from(u8)`. */
  function TypeFromByte(b: u8): (r: Option<SlowUdpPacketType>)
    ensures r.Some? <==> b < 2
    ensures r.Some? ==> TypeByte(r.value) == b
  {
    if b == 0 then Some(Data)
    else if b == 1 then Some(Ack)
    else None
  }

  lemma TypeByteRoundTrip(t: SlowUdpPacketType)
    ensures TypeFromByte(TypeByte(t)) == Some(t)
  {
  }

  // ---------------------------------------------------------------------
  // Acknowledgements
  // ---------------------------------------------------------------------

  datatype SlowUdpAckPacket = SlowUdpAckPacket(packetType: SlowUdpPacketType, packetId: u32, packetBitfield: u64)

  const AckSize: nat := 1 + 4 + 8

  /** `SlowUdpAckPacket::pack`: 13 bytes. */
  function PackAck(a: SlowUdpAckPacket): (r: Bytes)
    ensures |r| == AckSize
    ensures r[0] == TypeByte(a.packetType) && r[1..5] == BE32(a.packetId) && r[5..13] == BE64(a.packetBitfield)
  {
    [TypeByte(a.packetType)] + BE32(a.packetId) + BE64(a.packetBitfield)
  }

  /** `SlowUdpAckPacket::unpack`: at least 13 bytes, the first the acknowledgement type. */
  function UnpackAck(buffer: Bytes): (r: Option<SlowUdpAckPacket>)
    ensures r.Some? <==> |buffer| >= AckSize && buffer[0] == TypeByte(Ack)
    ensures r.Some? ==> r.value == SlowUdpAckPacket(Ack, ReadBE32(buffer[1..5]), ReadBE64(buffer[5..13]))
  {
    if |buffer| < AckSize then None
    else
      match TypeFromByte(buffer[0])
      case None => None
      case Some(packetType) =>
        if packetType != Ack then None
        else Some(SlowUdpAckPacket(packetType, ReadBE32(buffer[1..5]), ReadBE64(buffer[5..13])))
  }

  /** An acknowledgement of type `Ack` survives packing; bytes after the 13 are ignored. */
  lemma AckRoundTrip(a: SlowUdpAckPacket, rest: Bytes)
    requires a.packetType == Ack
    ensures UnpackAck(PackAck(a) + rest) == Some(a)
  {
    var buffer := PackAck(a) + rest;
    assert buffer[1..5] == BE32(a.packetId);
    assert buffer[5..13] == BE64(a.packetBitfield);
    BE32RoundTrip(a.packetId);
    BE64RoundTrip(a.packetBitfield);
  }

  // ---------------------------------------------------------------------
  // Data packets
  // ---------------------------------------------------------------------

  datatype SlowUdpDataPacket = SlowUdpDataPacket(
    packetType: SlowUdpPacketType,
    packetId: u32,
    packetIndex: u16,
    packetCount: u16,
    packetData: Bytes)

  const DataHeaderSize: nat := 1 + 4 + 2 + 2

  /** `SlowUdpDataPacket::pack`: the 9-byte header, then the data. */
  function PackData(d: SlowUdpDataPacket): (r: Bytes)
    ensures |r| == DataHeaderSize + |d.packetData|
    ensures r[0] == TypeByte(d.packetType) && r[1..5] == BE32(d.packetId)
    ensures r[5..7] == BE16(d.packetIndex) && r[7..9] == BE16(d.packetCount)
    ensures r[9..] == d.packetData
  {
    [TypeByte(d.packetType)] + BE32(d.packetId) + BE16(d.packetIndex) + BE16(d.packetCount) + d.packetData
  }

  /** `SlowUdpDataPacket::unpack`: at least 9 bytes of data type; everything after the header is data. */
  function UnpackData(buffer: Bytes): (r: Option<SlowUdpDataPacket>)
    ensures r.Some? <==> |buffer| >= DataHeaderSize && buffer[0] == TypeByte(Data)
    ensures r.Some? ==> r.value == SlowUdpDataPacket(Data, ReadBE32(buffer[1..5]),
      ReadBE16(buffer[5..7]), ReadBE16(buffer[7..9]), buffer[9..])
  {
    if |buffer| < DataHeaderSize then None
    else
      match TypeFromByte(buffer[0])
      case None => None
      case Some(packetType) =>
        if packetType != Data then None
        else Some(SlowUdpDataPacket(packetType, ReadBE32(buffer[1..5]),
          ReadBE16(buffer[5..7]), ReadBE16(buffer[7..9]), buffer[9..]))
  }

  /** A data packet of type `Data` survives packing exactly. */
  lemma DataRoundTrip(d: SlowUdpDataPacket)
    requires d.packetType == Data
    ensures UnpackData(PackData(d)) == Some(d)
  {
    BE32RoundTrip(d.packetId);
    BE16RoundTrip(d.packetIndex);
    BE16RoundTrip(d.packetCount);
  }

  /** Unpacking then packing a data packet gives back the buffer: nothing is dropped. */
  lemma DataRepack(buffer: Bytes)
    requires UnpackData(buffer).Some?
    ensures PackData(UnpackData(buffer).value) == buffer
  {
    var d := UnpackData(buffer).value;
    BE32OfRead(buffer[1..5]);
    BE16OfRead(buffer[5..7]);
    BE16OfRead(buffer[7..9]);
    assert buffer == [buffer[0]] + buffer[1..5] + buffer[5..7] + buffer[7..9] + buffer[9..];
  }

  // ---------------------------------------------------------------------
  // Any UDP packet
  // ---------------------------------------------------------------------

  datatype SlowUdpPacket = DataPacket(data: SlowUdpDataPacket) | AckPacket(ack: SlowUdpAckPacket)

  /** `SlowUdpPacket::unpack`: dispatch on the first byte. */
  function Unpack(buffer: Bytes): (r: Option<SlowUdpPacket>)
    ensures buffer == [] ==> r.None?
    ensures r.Some? && r.value.DataPacket? <==> UnpackData(buffer).Some?
    ensures r.Some? && r.value.DataPacket? ==> r.value.data == UnpackData(buffer).value
    ensures r.Some? && r.value.AckPacket? <==> UnpackAck(buffer).Some?
    ensures r.Some? && r.value.AckPacket? ==> r.value.ack == UnpackAck(buffer).value
  {
    if |buffer| < 1 then None
    else
      match TypeFromByte(buffer[0])
      case None => None
      case Some(Data) =>
        (match UnpackData(buffer)
         case None => None
         case Some(d) => Some(DataPacket(d)))
      case Some(Ack) =>
        (match UnpackAck(buffer)
         case None => None
         case Some(a) => Some(AckPacket(a)))
  }

  /** Both packet kinds survive `SlowUdpPacket::unpack`. */
  lemma UnpackRoundTrips(d: SlowUdpDataPacket, a: SlowUdpAckPacket)
    requires d.packetType == Data && a.packetType == Ack
    ensures Unpack(PackData(d)) == Some(DataPacket(d))
    ensures Unpack(PackAck(a)) == Some(AckPacket(a))
  {
    DataRoundTrip(d);
    AckRoundTrip(a, []);
    assert PackAck(a) + [] == PackAck(a);
  }

  /** Short buffers and unknown type bytes are refused. */
  lemma UnpackRejects(buffer: Bytes)
    ensures |buffer| >= 1 && buffer[0] >= 2 ==> Unpack(buffer).None?
    ensures |buffer| >= 1 && buffer[0] == TypeByte(Data) && |buffer| < DataHeaderSize ==> Unpack(buffer).None?
    ensures |buffer| >= 1 && buffer[0] == TypeByte(Ack) && |buffer| < AckSize ==> Unpack(buffer).None?
  {
  }
}
