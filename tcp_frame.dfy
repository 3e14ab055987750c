/**
 * TCP framing: every message on a TCP link is its length as a big-endian
 * u32, the data, and the same length again. The length is capped at 1 MiB.
 *
 * The stream is two byte sequences: the bytes still to be read and the bytes
 * written so far. `write` writes everything (the stream's own `write_all`);
 * `read_exact` either delivers the bytes asked for or fails at end of input,
 * having used up what was left.
 */
module TcpFrame {
  import opened Common
  import opened ByteOrder

  /** `SlowTcpFrame::max_frame_size`: 1 MiB. */
  function MaxFrameSize(): nat
  {
    1024 * 1024
  }

  /** The `io::Error`s of framing, by cause; the kind is in each comment. */
  datatype FrameError =
    | DataTooLarge     // InvalidInput: "Data size exceeds 1MB limit"
    | UnexpectedEof    // UnexpectedEof from `read_exact`
    | BufferTooSmall   // InvalidInput: "buffer too small"
    | LengthMismatch   // InvalidData: "Length mismatch"

  /** One frame: length, data, length. */
  function Frame(data: Bytes): (r: Bytes)
    requires |data| <= MaxFrameSize()
    ensures |r| == 8 + |data|
    ensures ReadBE32(r[..4]) == |data| && r[4..4 + |data|] == data && ReadBE32(r[4 + |data|..]) == |data|
  {
    var len := BE32(|data|);
    BE32RoundTrip(|data|);
    assert (len + data + len)[..4] == len;
    assert (len + data + len)[4 + |data|..] == len;
    len + data + len
  }

  /** The byte stream under a link. */
  class ByteStream {
    /** Bytes that have arrived and are not read yet. */
    var incoming: Bytes
    /** Everything written, in order. */
    var outgoing: Bytes

    constructor (incoming: Bytes)
      ensures this.incoming == incoming && outgoing == []
    {
      this.incoming := incoming;
      outgoing := [];
    }

    /** `SlowTcpStream::write`: all of `data` goes out; the result is its length. */
    method Write(data: Bytes) returns (r: nat)
      modifies this
      ensures outgoing == old(outgoing) + data && incoming == old(incoming)
      ensures r == |data|
    {
      outgoing := outgoing + data;
      r := |data|;
    }

    /** `SlowTcpStream::read_exact`: the next `n` bytes, or `None` at end of input. */
    method ReadExact(n: nat) returns (r: Option<Bytes>)
      modifies this
      ensures outgoing == old(outgoing)
      ensures r.Some? <==> n <= |old(incoming)|
      ensures r.Some? ==> r.value == old(incoming)[..n] && incoming == old(incoming)[n..]
      ensures r.None? ==> incoming == []
    {
      if n <= |incoming| {
        r := Some(incoming[..n]);
        incoming := incoming[n..];
      } else {
        r := None;
        incoming := [];
      }
    }
  }

  /**
   * `SlowTcpFrame::send`: refuse more than 1 MiB without writing anything;
   * otherwise write the frame in three writes and return the data length.
   */
  method Send(data: Bytes, stream: ByteStream) returns (r: Result<nat, FrameError>)
    modifies stream
    ensures stream.incoming == old(stream.incoming)
    ensures |data| > MaxFrameSize() ==> r == Err(DataTooLarge) && stream.outgoing == old(stream.outgoing)
    ensures |data| <= MaxFrameSize() ==> r == Ok(|data|) && stream.outgoing == old(stream.outgoing) + Frame(data)
  {
    if |data| > MaxFrameSize() {
      return Err(DataTooLarge);
    }
    var lenBytes := BE32(|data|);
    var _ := stream.Write(lenBytes);
    var bytesSent := stream.Write(data);
    var _ := stream.Write(lenBytes);
    assert stream.outgoing == old(stream.outgoing) + (lenBytes + data + lenBytes);
    r := Ok(bytesSent);
  }

  /**
   * What `receive` does to a stream holding `incoming` with a buffer of
   * `capacity` bytes: its result, the bytes left unread and the bytes written
   * at the start of the buffer.
   */
  datatype Received = Received(result: Result<nat, FrameError>, rest: Bytes, written: Bytes)

  function ReceiveFrom(incoming: Bytes, capacity: nat): (r: Received)
    ensures |r.written| <= capacity
    ensures |incoming| >= 4 ==> |r.written| <= ReadBE32(incoming[..4])
    ensures r.result.Ok? ==> r.result.value == |r.written|
    ensures r.result.Ok? ==> |incoming| == 8 + |r.written| + |r.rest|
    ensures r.result.Ok? ==>
      && |r.written| < 0x1_0000_0000
      && incoming == BE32(|r.written|) + r.written + BE32(|r.written|) + r.rest
  {
    if |incoming| < 4 then Received(Err(UnexpectedEof), [], [])
    else
      var expectedLen := ReadBE32(incoming[..4]);
      var afterPrefix := incoming[4..];
      if capacity < expectedLen then Received(Err(BufferTooSmall), afterPrefix, [])
      else if |afterPrefix| < expectedLen then Received(Err(UnexpectedEof), [], [])
      else
        var data := afterPrefix[..expectedLen];
        var afterData := afterPrefix[expectedLen..];
        if |afterData| < 4 then Received(Err(UnexpectedEof), [], data)
        else if ReadBE32(afterData[..4]) != expectedLen then Received(Err(LengthMismatch), afterData[4..], data)
        else
          BE32OfRead(incoming[..4]);
          BE32OfRead(afterData[..4]);
          assert incoming == incoming[..4] + data + afterData[..4] + afterData[4..];
          Received(Ok(expectedLen), afterData[4..], data)
  }

  /** `read_exact` into `buffer[..|data|]`: the front of the buffer becomes `data`, the rest is untouched. */
  method CopyToFront(buffer: array<u8>, data: Bytes)
    requires |data| <= buffer.Length
    modifies buffer
    ensures buffer[..|data|] == data
    ensures buffer[|data|..] == old(buffer[|data|..])
  {
    var i := 0;
    while i < |data|
      invariant 0 <= i <= |data|
      invariant forall k :: 0 <= k < i ==> buffer[k] == data[k]
      invariant forall k :: i <= k < buffer.Length ==> buffer[k] == old(buffer[k])
    {
      buffer[i] := data[i];
      i := i + 1;
    }
  }

  /**
   * `SlowTcpFrame::receive`: read the prefix, check the buffer, read the
   * data into the front of the buffer, read and compare the suffix.
   */
  method Receive(buffer: array<u8>, stream: ByteStream) returns (r: Result<nat, FrameError>)
    modifies buffer, stream
    ensures stream.outgoing == old(stream.outgoing)
    ensures var rcv := ReceiveFrom(old(stream.incoming), buffer.Length);
      && r == rcv.result
      && stream.incoming == rcv.rest
      && buffer[..|rcv.written|] == rcv.written
      && buffer[|rcv.written|..] == old(buffer[|rcv.written|..])
  {
    var lenBytes := stream.ReadExact(4);
    if lenBytes.None? {
      return Err(UnexpectedEof);
    }
    var expectedLen := ReadBE32(lenBytes.value);
    if buffer.Length < expectedLen {
      return Err(BufferTooSmall);
    }
    var data := stream.ReadExact(expectedLen);
    if data.None? {
      return Err(UnexpectedEof);
    }
    CopyToFront(buffer, data.value);
    var suffixBytes := stream.ReadExact(4);
    if suffixBytes.None? {
      return Err(UnexpectedEof);
    }
    if ReadBE32(suffixBytes.value) != expectedLen {
      return Err(LengthMismatch);
    }
    r := Ok(expectedLen);
  }

  /**
   * A frame is received whole: with room for its data the result is the
   * length, the buffer starts with the data and exactly `8 + len` bytes are
   * used up, leaving what follows the frame.
   */
  lemma ReceiveFrame(data: Bytes, rest: Bytes, capacity: nat)
    requires |data| <= MaxFrameSize() && |data| <= capacity
    ensures ReceiveFrom(Frame(data) + rest, capacity) == Received(Ok(|data|), rest, data)
  {
    var incoming := Frame(data) + rest;
    assert incoming[..4] == Frame(data)[..4];
    var afterPrefix := incoming[4..];
    assert afterPrefix[..|data|] == data;
    assert afterPrefix[|data|..][..4] == Frame(data)[4 + |data|..];
    assert afterPrefix[|data|..][4..] == rest;
  }

  /** A buffer shorter than the announced length: an error after using up only the prefix, nothing written. */
  lemma ReceiveBufferTooSmall(incoming: Bytes, capacity: nat)
    requires |incoming| >= 4 && capacity < ReadBE32(incoming[..4])
    ensures ReceiveFrom(incoming, capacity) == Received(Err(BufferTooSmall), incoming[4..], [])
  {
  }

  /** A suffix that differs from the prefix is an error, though the data has already been written. */
  lemma ReceiveLengthMismatch(data: Bytes, suffix: Bytes, rest: Bytes, capacity: nat)
    requires |data| < 0x1_0000_0000 && |data| <= capacity
    requires |suffix| == 4 && ReadBE32(suffix) != |data|
    ensures ReceiveFrom(BE32(|data|) + data + suffix + rest, capacity) == Received(Err(LengthMismatch), rest, data)
  {
    var incoming := BE32(|data|) + data + suffix + rest;
    BE32RoundTrip(|data|);
    assert incoming[..4] == BE32(|data|);
    var afterPrefix := incoming[4..];
    assert afterPrefix[..|data|] == data;
    assert afterPrefix[|data|..][..4] == suffix;
    assert afterPrefix[|data|..][4..] == rest;
  }

  /** Frames sent one after the other are received one after the other. */
  lemma FramesInOrder(a: Bytes, b: Bytes, capacity: nat)
    requires |a| <= MaxFrameSize() && |b| <= MaxFrameSize()
    requires |a| <= capacity && |b| <= capacity
    ensures ReceiveFrom(Frame(a) + Frame(b), capacity).result == Ok(|a|)
    ensures ReceiveFrom(Frame(a) + Frame(b), capacity).written == a
    ensures ReceiveFrom(ReceiveFrom(Frame(a) + Frame(b), capacity).rest, capacity) == Received(Ok(|b|), [], b)
  {
    ReceiveFrame(a, Frame(b), capacity);
    ReceiveFrame(b, [], capacity);
    assert Frame(b) + [] == Frame(b);
  }
}
