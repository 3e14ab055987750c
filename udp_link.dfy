/**
 * `SlowUdpLink`: one UDP link to a remote junction. Outgoing packages are
 * numbered by a counter and wrapped in link payload packets; the ids of
 * incoming payload packets are fed to a packet tracker.
 *
 * The package serializer (`SlowPackage::pack`) is not part of this model; it
 * is a parameter. The socket is left out.
 */
module UdpLink {
  import opened Common
  import opened Tracker
  import opened Package
  import opened LinkPacket

  /** The missing `SlowPackage::pack(package_id)`. */
  type PackageSerializer = (SlowPackage, u32) -> Bytes

  class SlowUdpLink {
    const remoteAddress: SocketAddr
    var packedCount: u64
    /** The tracker of received payload packet ids, held by value. */
    var unpackedTracker: TrackerState

    /** `SlowUdpLink::new`: nothing packed yet, a fresh tracker. */
    constructor (remoteAddress: SocketAddr)
      ensures this.remoteAddress == remoteAddress
      ensures packedCount == 0 && unpackedTracker == Fresh
    {
      this.remoteAddress := remoteAddress;
      packedCount := 0;
      unpackedTracker := Fresh;
    }

    /** `SlowUdpLink::packed_count`. */
    function PackedCount(): u64
      reads this
    {
      packedCount
    }

    /**
     * `SlowUdpLink::pack`: count the packet, then wrap the serialized package
     * in a payload packet whose id is the new count. It always succeeds.
     * The `u64` counter overflowing is a panic in the source, so it may not
     * be at its maximum.
     */
    method Pack(package: SlowPackage, serialize: PackageSerializer) returns (r: Option<Bytes>)
      requires packedCount < 0xFFFF_FFFF_FFFF_FFFF
      modifies this
      ensures packedCount == old(packedCount) + 1
      ensures unpackedTracker == old(unpackedTracker)
      ensures r == Some(PackPayload(NewPayloadPacket(packedCount, serialize(package, GetPackageId(package)))))
    {
      packedCount := packedCount + 1;
      var packetId := packedCount;
      var data := serialize(package, GetPackageId(package));
      var payloadPacket := NewPayloadPacket(packetId, data);
      var packed := PackPayload(payloadPacket);
      r := Some(packed);
    }

    /**
     * `SlowUdpLink::unpack`: decode the packet; a payload packet's id goes to
     * the tracker (its verdict is dropped), every other packet changes
     * nothing.
     */
    method Unpack(data: Bytes) returns (r: SlowLinkPacket)
      modifies this
      ensures r == LinkPacket.Unpack(data)
      ensures data == [] ==> r == Invalid
      ensures r.PayloadPacket? ==> unpackedTracker == Step(old(unpackedTracker), r.payload.packetId).0
      ensures !r.PayloadPacket? ==> unpackedTracker == old(unpackedTracker)
      ensures packedCount == old(packedCount)
    {
      if data == [] {
        return Invalid;
      }
      var packet := LinkPacket.Unpack(data);
      match packet {
        case PayloadPacket(payloadPacket) => ProcessPayload(payloadPacket);
        case AcknowledgePacket(ackPacket) => ProcessAck(ackPacket);
        case _ =>
      }
      r := packet;
    }

    /** `SlowUdpLink::process_payload`: one tracker step on the packet id. */
    method ProcessPayload(payloadPacket: SlowLinkPayloadPacket)
      modifies this
      ensures unpackedTracker == Step(old(unpackedTracker), payloadPacket.packetId).0
      ensures packedCount == old(packedCount)
    {
      var step := Step(unpackedTracker, payloadPacket.packetId);
      unpackedTracker := step.0;
    }

    /** `SlowUdpLink::process_ack`: acknowledgements are not acted on yet. */
    method ProcessAck(ackPacket: SlowLinkAckPacket)
      ensures unchanged(this)
    {
    }
  }

  /**
   * The link test: a new link packs a package as payload packet 1 and
   * unpacks it to the same id and the serialized package, counting it as
   * received.
   */
  method PackThenUnpack(addr: SocketAddr, package: SlowPackage, serialize: PackageSerializer)
    returns (count: u64, packet: SlowLinkPacket, tracker: TrackerState)
    requires |serialize(package, GetPackageId(package))| < 0x1_0000
    ensures count == 1
    ensures packet == PayloadPacket(NewPayloadPacket(1, serialize(package, GetPackageId(package))))
    ensures tracker.highestPacketId == 1 && tracker.window[0]
  {
    var link := new SlowUdpLink(addr);
    var packed := link.Pack(package, serialize);
    count := link.PackedCount();
    UnpackRoundTrips(1, serialize(package, GetPackageId(package)), 0, 0);
    packet := link.Unpack(packed.value);
    tracker := link.unpackedTracker;
    NewerSlides(Fresh, 1);
  }

  /** Packing twice gives packet ids 1 and 2. */
  method PackTwice(addr: SocketAddr, first: SlowPackage, second: SlowPackage, serialize: PackageSerializer)
    returns (a: Option<Bytes>, b: Option<Bytes>)
    ensures a == Some(PackPayload(NewPayloadPacket(1, serialize(first, GetPackageId(first)))))
    ensures b == Some(PackPayload(NewPayloadPacket(2, serialize(second, GetPackageId(second)))))
  {
    var link := new SlowUdpLink(addr);
    a := link.Pack(first, serialize);
    b := link.Pack(second, serialize);
  }
}
