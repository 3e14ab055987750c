# slow: a verified model of the mesh core

`slow` is a small mesh-networking library. Junctions exchange packages:
a header with the recipient id, the sender id, a hop count, a type (ping,
pong, JSON, binary) and a package id, and then a payload. Each junction
learns routes from the packages it receives. It forwards a package that is
not for it, either along the best known route or to every junction it
knows. It drops a package it has already seen, and one that has travelled
too far.

This project models the core of the library in Dafny:

- the duplicate filters:
  - the 64-packet sliding window (`Tracker`);
  - one window per sender (`PackageTracker`);
  - the 32-packet window and route table of `Routes`;
  - the per-link statistics of the TCP router (`TcpRouter`);
- the wire formats:
  - junction ids (`JunctionIds`);
  - packages (`Package`);
  - the link packets (`LinkPacket`) and UDP packets (`UdpPacket`);
  - TCP frames (`TcpFrame`);
  - the older JSON datagrams (`Datagram`);
- the state machines that use them:
  - the UDP link (`UdpLink`);
  - the TCP junction (`TcpJunction`);
  - the UDP junction (`Junction`).

Where the library works with values, the model uses datatypes and
functions. Where it updates objects in place, the model uses classes whose
methods are specified by those functions. The properties the library
relies on are proved as lemmas:

- encoders and decoders round-trip;
- a resubmitted id is a duplicate;
- the window keeps exactly the ids seen in the last 64;
- counters count every arrival;
- forwarding never passes the hop limit;
- queues are first in, first out.

Supporting modules:

- `Common` holds the fixed-width integer types, with explicit wrap-around.
- `ByteOrder` holds big- and little-endian conversion.
- `Utf8` holds UTF-8 validity as in RFC 3629.

Integer widths:

- `u8`, `u16` and `u32` values that the library increments or casts wrap as
  in a release build, and so do the signed `i64` and `i32` differences of
  packet ids in the trackers.
- The `u64` link counter may not overflow: overflowing it panics in a debug
  build and wraps to 0 in a release build.
- The `usize` and `u64` statistics are unbounded naturals.

## Model

| member | source | states |
|---|---|---|
| Common.TruncU16 | src/package.rs:137 | `as u16`: a length below 65536 is kept |
| Common.TruncU32 | src/tcp/tcp_frame.rs:32 | `as u32`: a length below 2^32 is kept |
| Common.WrappingIncU8 | src/package.rs:271-274 | one more, and 255 wraps to 0 |
| Common.WrappingIncU32 | src/junction.rs:352-353 | one more, and `u32::MAX` wraps to 0 |
| ByteOrder.BigEndianRoundTrip | src/udp/udp_packet.rs:91-128 | reading n big-endian bytes of a number below 256^n gives it back |
| ByteOrder.BigEndianRoundTripBytes | src/udp/udp_packet.rs:91-128 | writing the number that n bytes encode gives the same bytes |
| ByteOrder.BigEndianInjective | src/udp/udp_packet.rs:91-128 | two numbers below 256^n with the same n bytes are equal |
| ByteOrder.BE16RoundTrip | src/udp/udp_packet.rs:162-189 | `u16::from_be_bytes` inverts `to_be_bytes` |
| ByteOrder.BE32RoundTrip | src/udp/udp_packet.rs:94-117 | `u32::from_be_bytes` inverts `to_be_bytes` |
| ByteOrder.BE64RoundTrip | src/udp/udp_packet.rs:95-118 | `u64::from_be_bytes` inverts `to_be_bytes` |
| ByteOrder.BE16OfRead | src/udp/udp_packet.rs:188-189 | two bytes read as a `u16` are written back unchanged |
| ByteOrder.BE32OfRead | src/udp/udp_packet.rs:117 | four bytes read as a `u32` are written back unchanged |
| ByteOrder.BE64OfRead | src/udp/udp_packet.rs:118 | eight bytes read as a `u64` are written back unchanged |
| ByteOrder.LE16RoundTrip | src/junction_id.rs:40-64 | `u16::from_le_bytes` inverts `to_le_bytes` |
| ByteOrder.LE16OfRead | src/junction_id.rs:64 | two bytes read little-endian are written back unchanged |
| Utf8.CharWidth | src/junction_id.rs:72 | a character is at most 4 bytes long; ASCII is 1 byte; a continuation byte cannot start one |
| Utf8.CharWidthPrefix | src/junction_id.rs:72 | the width of a complete first character does not depend on what follows it |
| Utf8.ConcatValid | src/junction_id.rs:72 | two valid UTF-8 strings concatenate to a valid one |
| Utf8.AsciiValid | src/junction_id.rs:72 | ASCII bytes are valid UTF-8 |
| Utf8.LeadingTailInvalid | src/junction_id.rs:72 | a string that starts with a continuation byte, 0xC0, 0xC1 or a byte from 0xF5 up is invalid |
| JunctionIds.Pack | src/junction_id.rs:33-46 | the packed id is exactly `PackedLength` bytes: a 2-byte little-endian length, then the UTF-8 bytes |
| JunctionIds.Unpack | src/junction_id.rs:57-76 | a decoded id re-packs to exactly the bytes it was read from |
| JunctionIds.RoundTrip | src/junction_id.rs:33-76 | unpacking a packed id (shorter than 65536 bytes) gives it back, whatever follows |
| JunctionIds.UnpackTooShort | src/junction_id.rs:58-60 | fewer than two bytes decode to `None` |
| JunctionIds.UnpackTruncated | src/junction_id.rs:62-65 | a length prefix longer than the data decodes to `None` |
| JunctionIds.UnpackRejectsInvalidUtf8 | src/junction_id.rs:67-75 | bytes that are not valid UTF-8 decode to `None` |
| JunctionIds.UnpackSucceedsIff | src/junction_id.rs:57-76 | decoding succeeds exactly when the prefix fits and the bytes are valid UTF-8 |
| JunctionIds.UnpackIgnoresTrailing | src/junction_id.rs:57-76 | bytes after the id do not change the result |
| JunctionIds.PackInjective | src/junction_id.rs:33-46 | two ids with the same packing are equal |
| JunctionIds.UnpackRejectsExamples | tests/junction_test.rs:277-293 | the empty input, `[5, 0]` and a 3-byte prefix before `FF FF FF` are all rejected |
| Tracker.WrappingDiff | src/tracker.rs:49 | the difference lies in the `i64` range and agrees with `a - b` modulo 2^64 |
| Tracker.ShiftLeft | src/tracker.rs:77 | `<<` on the window: bit k is the old bit k - n; the low n bits are clear; the width is kept |
| Tracker.WindowValue | src/tracker.rs:102-104 | the `u64` bitfield has bit k set exactly when window position k is set |
| Tracker.PacketTracker.constructor | src/tracker.rs:31-36 | a new tracker has highest id 0 and an empty window |
| Tracker.PacketTracker.Update | src/tracker.rs:48-86 | the new state and the verdict are those of `Step` on the old state |
| Tracker.PacketTracker.HighestPacketId | src/tracker.rs:93-95 | the highest id seen |
| Tracker.PacketTracker.PacketBitfield | src/tracker.rs:102-104 | bit k of the result is window position k |
| Tracker.HighestIsDuplicate | src/tracker.rs:50-52 | the current highest id is a duplicate and changes nothing |
| Tracker.FreshZeroIsDuplicate | src/tracker.rs:31-52 | id 0 is reported a duplicate by a new tracker |
| Tracker.OlderInWindow | src/tracker.rs:58-69 | an id 1 to 63 behind the highest is a duplicate if its bit is set, else it is accepted and its bit set; the highest is kept |
| Tracker.NewerSlides | src/tracker.rs:72-85 | a newer id is accepted and becomes the highest; the window slides by the difference and bit 0 is set |
| Tracker.RejectedLeavesUnchanged | src/tracker.rs:48-86 | a refused id leaves the tracker unchanged |
| Tracker.WrappingDiffAntisymmetric | src/tracker.rs:49 | swapping the arguments negates the difference, except at `i64::MIN` |
| Tracker.VerdictMatchesWindow | src/tracker.rs:48-86 | on a tracker whose bit 0 is set: a duplicate exactly when seen; old exactly when more than 63 behind |
| Tracker.NewerEstablishesWellFormed | src/tracker.rs:72-85 | after a newer id, bit 0 stands for the highest id |
| Tracker.StepPreservesWellFormed | src/tracker.rs:48-86 | every update keeps bit 0 set |
| Tracker.SeenAfterStep | src/tracker.rs:48-86 | after an update, an id is seen exactly when it was seen before or is the new id, and it lies in the new window |
| Tracker.HighestNeverDecreases | src/tracker.rs:48-86 | the highest id never moves backwards |
| Tracker.ResubmitIsDuplicate | src/tracker.rs:48-86 | submitting an accepted id again is a duplicate and changes nothing |
| Tracker.TrackerTestSequence | tests/tracker_test.rs:4-41 | the verdicts of the tracker test sequence |
| Package.TypeToByte | src/package.rs:35-42 | each type has its own byte below 4 |
| Package.TypeFromByte | src/package.rs:61-69 | decoding succeeds exactly on bytes below 4, and it inverts `TypeToByte` |
| Package.TypeByteRoundTrip | src/package.rs:35-69 | encoding then decoding a type gives it back |
| Package.NewPackage | src/package.rs:129-214 | a new package has 0 hops, id 0, the type's byte, the payload, and the payload length as a `u16` |
| Package.NewJsonPayload | src/package.rs:129-152 | a JSON package of the given ids and text, typed JSON |
| Package.NewBinPayload | src/package.rs:154-176 | a binary package, typed binary |
| Package.NewPing | src/package.rs:178-200 | a ping has an empty payload and size 0 |
| Package.NewPong | src/package.rs:202-214 | a pong has an empty payload and size 0 |
| Package.Encode | src/package.rs:250-256 | the serialized header followed by the payload |
| Package.Unpackage | src/package.rs:227-243 | succeeds exactly when the header decodes and its size field equals the number of bytes after it; the payload is those bytes |
| Package.PackageRoundTrip | src/package.rs:227-256 | with a matching header codec, a package whose size field is right survives packaging |
| Package.PackageWrongSizeRejected | src/package.rs:237-242 | a size field that disagrees with the payload is refused |
| Package.IncrementHops | src/package.rs:271-274 | one hop more, wrapping from 255 to 0; nothing else changes |
| Package.SetPackageId | src/package.rs:308-319 | the id is set; every other field is kept |
| Package.GetPackageType | src/package.rs:326-328 | fails exactly on a type byte of 4 or more; otherwise its byte is the header's |
| Package.PackageTests | tests/package_test.rs:125-153 | a ping starts at id 0 and 0 hops; setting id 42 reads back 42; two hop increments give 2 |
| PackageTracker.TrackersUpdate | src/package_tracker.rs:39-45 | the sender's tracker (a fresh one if new) takes one step; every other sender's tracker is unchanged |
| PackageTracker.SlowPackageTracker.constructor | src/package_tracker.rs:22-26 | no trackers |
| PackageTracker.SlowPackageTracker.Update | src/package_tracker.rs:39-45 | the map and the verdict are those of `TrackersUpdate` |
| PackageTracker.OtherSendersIndependent | src/package_tracker.rs:39-45 | an update for one sender does not change the verdict for another |
| PackageTracker.SameIdFromTwoSenders | src/package_tracker.rs:39-45 | the same nonzero id from two new senders is accepted from both |
| PackageTracker.RepeatFromSameSender | src/package_tracker.rs:39-45 | an id accepted from a sender is a duplicate when it comes again from that sender |
| Routes.WrappingDiff32 | src/route.rs:45 | the `i32` wrapping difference: in range and equal to `a - b` modulo 2^32 |
| Routes.PackageInfoRefusesOutOfWindow | src/route.rs:44-52 | the current greatest id, or one more than 31 behind, is refused and changes nothing |
| Routes.PackageInfoRefusalUnchanged | src/route.rs:44-73 | a refused id changes nothing |
| Routes.PackageInfoOlderInWindow | src/route.rs:54-62 | an id 1 to 31 behind is accepted exactly when its bit is clear, and its bit is then set |
| Routes.PackageInfoNewer | src/route.rs:64-73 | a newer id is accepted and becomes the greatest; the 32-bit window slides and bit 0 is set |
| Routes.UpdatedRoute | src/route.rs:118-130 | records the hops for the address and feeds the id to the window; returns the previous greatest id (or the unchanged one) and keeps the maximum |
| Routes.UpdateRouteRecordsHops | src/route.rs:119 | the updated address has the new hops; every other address is unchanged |
| Routes.GreatestNeverDecreases | src/route.rs:122-129 | the greatest id never decreases and is at least the new id |
| Routes.BestExists | src/route.rs:137-142 | every non-empty route set has a route with the fewest hops |
| Routes.BestRoute | src/route.rs:137-142 | `None` exactly when there are no routes; otherwise a route with the fewest hops |
| Routes.RouteTable.constructor | src/route.rs:153-157 | an empty table |
| Routes.RouteTable.UpdateRoute | src/route.rs:172-186 | the junction's route, created if needed, is updated as `UpdatedRoute` says; the result is its returned id |
| Routes.RouteTable.GetBestRoute | src/route.rs:197-201 | `None` for an unknown junction or one without routes; otherwise a route with the fewest hops |
| Routes.RouteTable.Remove | src/route.rs:212-214 | removes the junction and returns its route exactly when it was present |
| TcpRouter.RouteStatsUpdate | src/tcp/tcp_router.rs:73-95 | the sender's shared tracker takes a step; the link's valid count goes up on success, otherwise its invalid count; other links are unchanged |
| TcpRouter.BestLinkExists | src/tcp/tcp_router.rs:57-62 | every non-empty set of link statistics has a link with the most valid packages |
| TcpRouter.BestLink | src/tcp/tcp_router.rs:57-62 | `None` exactly when there are no links; otherwise a link with the most valid packages |
| TcpRouter.SlowTcpRouter.constructor | src/tcp/tcp_router.rs:110-114 | no statistics |
| TcpRouter.SlowTcpRouter.Update | src/tcp/tcp_router.rs:126-137 | the sender's statistics, created if needed, updated as `RouteStatsUpdate` says |
| TcpRouter.SlowTcpRouter.GetBestLink | src/tcp/tcp_router.rs:148-152 | `None` for an unknown sender; otherwise as `BestLink` |
| TcpRouter.UpdateCountsOne | src/tcp/tcp_router.rs:73-95 | every update counts exactly one package, on its own link |
| TcpRouter.CountedIsArrivals | src/tcp/tcp_router.rs:73-95 | from fresh statistics, valid plus invalid on a link equals the number of arrivals on it |
| TcpRouter.RepeatOnOtherLinkInvalid | src/tcp/tcp_router.rs:73-95 | an id accepted on one link and repeated on another is a duplicate there and counts as invalid |
| LinkPacket.TypeByte | src/link_packet.rs:12-19 | each link packet type has its own byte below 3 |
| LinkPacket.TypeFromByte | src/link_packet.rs:36-43 | succeeds exactly on bytes below 3 and inverts `TypeByte`; otherwise an invalid-type error |
| LinkPacket.TypeByteRoundTrip | src/link_packet.rs:36-43 | encoding then decoding a type gives it back |
| LinkPacket.NewPayloadPacket | src/link_packet.rs:74-81 | payload type, the id, the payload, and the length as a `u16` |
| LinkPacket.PackPayload | src/link_packet.rs:92-111 | the type byte, the big-endian id and size, then the payload; 11 bytes plus the payload |
| LinkPacket.UnpackPayload | src/link_packet.rs:125-177 | succeeds exactly on at least 11 bytes of type 2 whose declared size fits; the fields are read big-endian and the payload is exactly the declared size |
| LinkPacket.UnpackPayloadErrors | src/link_packet.rs:125-177 | which error each malformed input gives: header too short, invalid type, not a payload packet, payload too short |
| LinkPacket.PayloadRoundTrip | src/link_packet.rs:74-177 | a payload shorter than 65536 bytes round-trips, whatever follows |
| LinkPacket.OversizePayloadTruncated | src/link_packet.rs:74-111 | a payload of 65536 bytes or more is cut to its length modulo 65536 on the way back |
| LinkPacket.PayloadPackTest | tests/link_packet_test.rs:4-25 | "Hello, SlowLink!" with id 42 packs to 27 bytes and unpacks to the same packet |
| LinkPacket.PayloadInvalidTests | tests/link_packet_test.rs:27-60 | the empty, short, wrong-type and short-payload inputs are refused as the test expects |
| LinkPacket.NewAckPacket | src/link_packet.rs:208-214 | acknowledge type, the highest id and the bitfield |
| LinkPacket.PackAck | src/link_packet.rs:225-243 | 17 bytes: the type byte, then the id and the bitfield big-endian |
| LinkPacket.UnpackAck | src/link_packet.rs:257-296 | succeeds exactly on at least 17 bytes of type 0; the errors for short input, invalid type and other types |
| LinkPacket.AckRoundTrip | src/link_packet.rs:208-296 | an acknowledgement round-trips, whatever follows |
| LinkPacket.Unpack | src/link_packet.rs:326-351 | empty input is invalid; exactly `[1]` is hello; acknowledge and payload exactly when their decoders succeed |
| LinkPacket.UnpackRoundTrips | src/link_packet.rs:326-351 | packed payload and acknowledge packets, and `[1]`, are recognised as what they are |
| UdpPacket.TypeByte | src/udp/udp_packet.rs:17-21 | data is 0 and ack is 1 |
| UdpPacket.TypeFromByte | src/udp/udp_packet.rs:26-32 | succeeds exactly on bytes below 2 and inverts `TypeByte` |
| UdpPacket.TypeByteRoundTrip | src/udp/udp_packet.rs:17-32 | encoding then decoding a type gives it back |
| UdpPacket.PackAck | src/udp/udp_packet.rs:91-97 | 13 bytes: the type, the `u32` id and the `u64` bitfield, big-endian |
| UdpPacket.UnpackAck | src/udp/udp_packet.rs:107-128 | succeeds exactly on at least 13 bytes starting with 1 |
| UdpPacket.AckRoundTrip | src/udp/udp_packet.rs:91-128 | an ack round-trips, whatever follows |
| UdpPacket.PackData | src/udp/udp_packet.rs:158-166 | the type, id, index and count big-endian, then the data |
| UdpPacket.UnpackData | src/udp/udp_packet.rs:176-199 | succeeds exactly on at least 9 bytes starting with 0; the data is every byte after the header |
| UdpPacket.DataRoundTrip | src/udp/udp_packet.rs:158-199 | a data packet round-trips |
| UdpPacket.DataRepack | src/udp/udp_packet.rs:158-199 | any accepted buffer is exactly the packing of what it decodes to |
| UdpPacket.Unpack | src/udp/udp_packet.rs:56-65 | empty input fails; a data packet or an ack exactly when their decoders succeed |
| UdpPacket.UnpackRoundTrips | src/udp/udp_packet.rs:56-65 | packed data and ack packets are recognised as what they are |
| UdpPacket.UnpackRejects | src/udp/udp_packet.rs:56-65 | an unknown type, or a too-short data or ack packet, is refused |
| TcpFrame.Frame | src/tcp/tcp_frame.rs:23-46 | eight bytes more than the data: the length, the data, the length again |
| TcpFrame.ByteStream.Write | src/tcp/tcp_frame.rs:36-43 | everything is written and the result is its length |
| TcpFrame.ByteStream.ReadExact | src/tcp/tcp_frame.rs:69-96 | the next n bytes exactly when available; otherwise the input is used up |
| TcpFrame.Send | src/tcp/tcp_frame.rs:23-46 | more than 1 MiB is refused with nothing written; otherwise the frame is written and the data length returned |
| TcpFrame.ReceiveFrom | src/tcp/tcp_frame.rs:62-105 | never writes more than the buffer or the announced length; on success the result is the data length, and the input consumed is exactly one frame: the big-endian length, the data and the same length again, followed by the unread rest |
| TcpFrame.CopyToFront | src/tcp/tcp_frame.rs:86 | the front of the buffer becomes the data; the rest is untouched |
| TcpFrame.Receive | src/tcp/tcp_frame.rs:62-105 | result, unread input and buffer contents are those of `ReceiveFrom` |
| TcpFrame.ReceiveFrame | src/tcp/tcp_frame.rs:23-105 | a sent frame is received whole, leaving what follows it |
| TcpFrame.ReceiveBufferTooSmall | src/tcp/tcp_frame.rs:72-78 | a too-small buffer is an error after only the prefix is read, with nothing written |
| TcpFrame.ReceiveLengthMismatch | src/tcp/tcp_frame.rs:93-101 | a suffix that differs is an error, though the data has been written |
| TcpFrame.FramesInOrder | src/tcp/tcp_frame.rs:23-105 | two frames sent one after the other are received in order |
| Datagram.Decremented | src/datagram.rs:102-107 | at most one less, never below zero, unchanged only at zero |
| Datagram.PeekHeader | src/datagram.rs:47-50 | only the first six bytes matter |
| Datagram.UnpackageParts | src/datagram.rs:61-73 | succeeds exactly when the header decodes and its size equals the bytes after it; those bytes are the payload |
| Datagram.PackageBytes | src/datagram.rs:80-86 | the encoded header, then the payload |
| Datagram.PackageRoundTrip | src/datagram.rs:47-86 | with a matching codec, a datagram whose size is right round-trips |
| Datagram.PackageWrongSizeRejected | src/datagram.rs:61-73 | a wrong size field is refused |
| Datagram.DecrementFromFour | src/datagram.rs:174-188 | from four hops, three decrements report hops left and the fourth does not |
| Datagram.SlowDatagram.New | src/datagram.rs:28-36 | `None` exactly when the JSON encoding fails; otherwise four hops and the payload length |
| Datagram.SlowDatagram.Unpackage | src/datagram.rs:61-73 | a new datagram exactly when `UnpackageParts` succeeds, holding its parts |
| Datagram.SlowDatagram.Package | src/datagram.rs:80-86 | the datagram's bytes are `PackageBytes` of its fields |
| Datagram.SlowDatagram.DecrementHops | src/datagram.rs:102-107 | hops become `Decremented`; the result says whether hops remain |
| UdpLink.SlowUdpLink.constructor | src/udp/udp_link.rs:56-63 | nothing packed yet and a new tracker |
| UdpLink.SlowUdpLink.Pack | src/udp/udp_link.rs:76-85 | the counter goes up by one and the package goes out as the payload packet with that id |
| UdpLink.SlowUdpLink.Unpack | src/udp/udp_link.rs:99-113 | the result is `LinkPacket.Unpack`; only a payload packet moves the tracker, by one step on its id |
| UdpLink.SlowUdpLink.ProcessPayload | src/udp/udp_link.rs:120-123 | one tracker step on the packet id |
| UdpLink.SlowUdpLink.ProcessAck | src/udp/udp_link.rs:130 | changes nothing |
| UdpLink.PackThenUnpack | tests/udp/test_udp_link.rs:20-41 | a new link packs a package as packet 1 and unpacks it to the same packet, with 1 as the tracker's highest id |
| UdpLink.PackTwice | src/udp/udp_link.rs:76-85 | two packs give packet ids 1 and 2 |
| TcpJunction.FirstNonzero | src/tcp/tcp_junction.rs:283-300 | the first positive byte count, if any |
| TcpJunction.FirstNonzeroIsFirst | src/tcp/tcp_junction.rs:283-300 | `None` exactly when no outcome is a positive count; otherwise the earliest positive one |
| TcpJunction.LastErrorIsLast | src/tcp/tcp_junction.rs:134-160 | `None` exactly when every outcome is `Ok`; otherwise the latest error |
| TcpJunction.SendOutcome | src/tcp/tcp_junction.rs:275-315 | no links gives "not connected"; success is a positive count that some link reported |
| TcpJunction.AllZeroIsFailure | src/tcp/tcp_junction.rs:302-315 | links that all write zero bytes give a send failure |
| TcpJunction.OneSuccessSuffices | src/tcp/tcp_junction.rs:283-300 | one positive count makes the send succeed |
| TcpJunction.Attempts | src/tcp/tcp_junction.rs:283-300 | one attempt per link, in link order, each with the same data |
| TcpJunction.Retain | src/tcp/tcp_junction.rs:257-264 | keeps exactly the links with a different id |
| TcpJunction.RetainConcat | src/tcp/tcp_junction.rs:257-264 | filtering distributes over concatenation, so link order is kept |
| TcpJunction.RetainNoMatch | src/tcp/tcp_junction.rs:257-264 | removing an absent id changes nothing |
| TcpJunction.SlowTcpJunction.constructor | src/tcp/tcp_junction.rs:59-75 | no links, junctions, packages or transmissions; counters at 0; a new package tracker |
| TcpJunction.SlowTcpJunction.AddLink | src/tcp/tcp_junction.rs:246-251 | the link is appended; nothing else changes |
| TcpJunction.SlowTcpJunction.RemoveLink | src/tcp/tcp_junction.rs:257-264 | the links become `Retain` of the old ones |
| TcpJunction.SlowTcpJunction.RegisterJunction | src/tcp/tcp_junction.rs:193-196 | the map sends the junction to the address |
| TcpJunction.SlowTcpJunction.GetJunctionAddr | src/tcp/tcp_junction.rs:205-208 | the registered address exactly when there is one |
| TcpJunction.SlowTcpJunction.ReceivePackage | src/tcp/tcp_junction.rs:214-217 | the oldest waiting package, removed from the queue |
| TcpJunction.SlowTcpJunction.Send | src/tcp/tcp_junction.rs:275-315 | one attempt per link is logged; the result is `SendOutcome` of the link outcomes |
| TcpJunction.SlowTcpJunction.SendPackage | src/tcp/tcp_junction.rs:108-124 | sent with the next wrapping `u32` id; the count goes up only on success |
| TcpJunction.SlowTcpJunction.Close | src/tcp/tcp_junction.rs:134-160 | an error exactly when some link failed to close, and then the latest one |
| TcpJunction.SlowTcpJunction.Process | src/tcp/tcp_junction.rs:386-432 | undecodable data is dropped; a package is checked against the sender's tracker and queued only when new and addressed here |
| TcpJunction.ProcessTwice | src/tcp/tcp_junction.rs:386-432 | the same package processed twice is received once |
| TcpJunction.ReceiveInOrder | src/tcp/tcp_junction.rs:214-217 | packages are received in arrival order, then none |
| Junction.Deliveries | src/junction.rs:327-334 | one transmission per address |
| Junction.DeliveriesAt | src/junction.rs:327-334 | the i-th transmission carries the package to the i-th address |
| Junction.ForwardedCopy | src/junction.rs:305-314 | the package with one hop more, exactly when that count is below 128 |
| Junction.HopLimitBoundary | src/junction.rs:306-308 | arriving with 127 to 254 hops, a package is dropped; below 127 it is forwarded; at 255 the count wraps to 0 and it is forwarded |
| Junction.StampedId | src/junction.rs:352-353 | the k-th id after `count` is `count + k` while that fits |
| Junction.StampedIdStep | src/junction.rs:352-353 | each stamped id is the wrapping increment of the one before |
| Junction.PumpStepsExtend | src/junction.rs:351-361 | routing the next queued package extends the pumped log by one step |
| Junction.BroadcastToOne | src/junction.rs:322-336 | sending to a single known address makes exactly one transmission, to it |
| Junction.BroadcastToNone | src/junction.rs:322-336 | with no address to send to, nothing is sent |
| Junction.DeliveriesSnoc | src/junction.rs:327-334 | one more address adds one transmission at the end |
| Junction.EnumerationExtend | src/junction.rs:327-334 | each address visited by the loop is listed once, unless excluded |
| Junction.SendEach | src/junction.rs:322-336 | the log gains one transmission to each known address outside the excluded ones, each exactly once |
| Junction.SlowJunction.constructor | src/junction.rs:85-115 | empty known set, queues, log and route table; all counters 0 |
| Junction.SlowJunction.Send | src/junction.rs:135-141 | a JSON package from this junction is queued; nothing is sent |
| Junction.SlowJunction.Recv | src/junction.rs:148-151 | the oldest received JSON packet, removed from the queue |
| Junction.SlowJunction.Seed | src/junction.rs:158-164 | the address becomes known, unless it is the junction's own |
| Junction.SlowJunction.Pong | src/junction.rs:376-381 | a pong to the junction is queued |
| Junction.SlowJunction.Ping | src/junction.rs:388-393 | a ping to the junction is queued |
| Junction.SlowJunction.OnPongReceived | src/junction.rs:405-407 | the pong counter goes up by one, wrapping |
| Junction.SlowJunction.OnPingReceived | src/junction.rs:414-417 | a pong to the ping's sender is queued |
| Junction.SlowJunction.Join | src/junction.rs:474-489 | a hello with id 0 is sent straight to the address |
| Junction.SlowJunction.OnHelloReceived | src/junction.rs:424-429 | a hello with id 0 is answered by a hello with id 1; the sender's address becomes known |
| Junction.SlowJunction.GetBestRoute | src/junction.rs:440-444 | `None` exactly when the junction has no route; otherwise a route with the fewest hops |
| Junction.SlowJunction.SendToBestRoute | src/junction.rs:451-462 | true exactly when there is a route; then one transmission to a best route, else nothing |
| Junction.SlowJunction.SendToKnownJunctions | src/junction.rs:322-336 | one transmission to each known address except the excluded one |
| Junction.SlowJunction.Forward | src/junction.rs:305-314 | dropped at the hop limit; otherwise the copy with one hop more goes to a best route, else to every known address but the sender's; nothing sent reaches the limit |
| Junction.SlowJunction.UpdateRouteTable | src/junction.rs:231-242 | the sender's address becomes known and the table records the route as `UpdatedRoute` says |
| Junction.SlowJunction.OnPackageReceived | src/junction.rs:250-297 | a hello is answered; any other package records its route; a package whose route-table verdict is "not new" counts a duplicate; a new one counts unique; it is forwarded if addressed elsewhere, else a ping queues a pong, a pong is counted and parseable JSON is queued |
| Junction.SlowJunction.SendRouted | src/junction.rs:355-359 | a best route if there is one, else every known address |
| Junction.SlowJunction.PumpSend | src/junction.rs:348-362 | the queue is drained in order; each package gets the next wrapping id and is routed; the count advances by the queue length |
| Junction.PumpOne | src/junction.rs:348-362 | with one queued package and one known address: one transmission, id 1, to a best route or to that address |
| Junction.SeedSendPump | src/junction.rs:135-164 | a seeded junction with no routes sends a queued JSON package to its neighbour as package 1 |
| Junction.PingThenRepeat | tests/junction_test.rs:67-103 | a ping reported as new queues a pong and counts one unique package; the same ping reported as not new counts one duplicate |
| Junction.JoinHandshake | src/junction.rs:474-503 | after join and the hello exchange, each junction knows exactly the other's address |
| Junction.JoinPingPong | tests/junction_test.rs:229-251 | junction 1 pings junction 2; the pong comes back along the learnt route; junction 1 counts one pong |

## Left out

- Concurrency: the tokio tasks, `Mutex`es, atomics, `Notify`, `run`, `update2`, `pump_recv`, `wait_for_package` and the terminate flag. Each handler is one atomic step; nothing is said about interleavings.
- Sockets and streams: `SlowUdpSocket`, `SlowTcpStream`, `SlowTcpListener` and `SlowTcpLink` are not part of this model. A TCP stream is two byte sequences. A send on a socket is an entry in a `sent` or `transmissions` log. Link I/O outcomes are inputs to the methods that use them. Writes to a TCP stream (`TcpFrame.Send`, `TcpFrame.ByteStream.Write`) always succeed: the write errors of `src/tcp/tcp_frame.rs:36-42` are not modelled.
- `SlowJunction::send_package` failures: the source panics with `expect`. The model assumes every send succeeds.
- `SlowUdpLink::send` and `receive`, and the `connect`, `start_listening` and `start_processing` tasks of `SlowTcpJunction`: they are socket I/O and task spawning.
- The `bincode` header codec and `serde_json` are abstract. They are function-typed parameters with stated round-trip assumptions (`CodecPair`, `HeaderCodec`). JSON values are kept as their encoded bytes.
- These items are not part of this model and are given by callers:
  - `SlowPackage::pack` and `SlowPackage::unpack`, used by the links and the TCP junction;
  - `PackageType::Hello` and `SlowPackage::new_hello`;
  - `json_payload`.

  `Junction.Externals` holds them.
- `Junction.SlowJunction.UpdateRouteTable`: the source returns the route table's `u32` (a package id) where a `bool` "is new" verdict is expected. That verdict is the input `isNew`; the model does not derive it from the route window.
- The `time` field of a route (an `f32`, always `0.0` in the junction): floating point, never read by the core.
- `HashSet` and `HashMap` iteration order: broadcasts are specified for "some order, each address once". Ties between best routes or links are "some best one".
- Integer widths:
  - u8/u16/u32 increments and casts wrap as in a release build. In a debug build they panic instead.
  - The signed differences `packet_id as i64 - highest as i64` (`src/tracker.rs:49`) and `package_id as i32 - greatest as i32` (`src/route.rs:45`) can overflow, for example highest 1 and id 2^63. `Tracker.WrappingDiff` and `Routes.WrappingDiff32` wrap them as a release build does; a debug build panics there.
  - The hop increment at 255 wraps to 0. `Junction.HopLimitBoundary` states what that does to forwarding.
  - `pump_send` adds 1 to the old count without wrapping. It panics at `u32::MAX` in a debug build; the model wraps it.
- `UdpLink.SlowUdpLink.Pack`: requires the `u64` packet counter below its maximum. Overflowing it panics in a debug build and wraps to 0 in a release build; neither is modelled, since 2^64 packs is out of reach.
- `Package.IncrementHops` and `Package.SetPackageId` return a new package instead of updating one in place; packages are values moved between queues.
- `TcpFrame.Receive`: when the data read fails partway, the model leaves the buffer unchanged. `read_exact` may have filled part of it.
- `Tracker.FreshZeroIsDuplicate`: a new tracker reports id 0 as a duplicate though it was never received. The window properties (`VerdictMatchesWindow`, `SeenAfterStep`) are stated for trackers whose bit 0 stands for the highest id, which holds after the first accepted id.
- The tracker test calls `update` as if it returned a `bool`. `Tracker.TrackerTestSequence` states the verdicts instead.
- The UDP link test compares the payload with `package.pack(0)`. `UdpLink.PackThenUnpack` uses the package's own id, as `pack` does.
- `SlowLinkId` is imported by `src/tcp/tcp_router.rs:3` but not defined in the modelled code; the model's link id is a `u32`, and only its equality matters.
- `UnpackResult` in `src/udp/udp_link.rs` is never used.
- Simple getters are folded into the fields they read: `remote_address`, `local_addr`, `get_address`, `get_junction_id`, the counters and `print_known_junctions`.
- Logging (`log`, `println!`) and `Display` for `JunctionId`.
- Bit windows are sequences of booleans rather than machine words. `Tracker.WindowValue` and `Tracker.PacketTracker.PacketBitfield` relate them to the `u64` value.
