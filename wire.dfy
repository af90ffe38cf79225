/**
 * Wire framing shared by client and host: every message is its payload's length as a
 * 4-byte big-endian `u32`, followed by exactly that many payload bytes. The payload is
 * the JSON text of a `Message`; the JSON codec itself is a `Codec` value.
 */
module Wire {
  import opened Basics
  import opened Protocol

  type Byte = b: int | 0 <= b < 256

  /** 2^32: one more than the largest `u32`. */
  const U32Limit: nat := 0x1_0000_0000

  /** `u32::to_be_bytes`: most significant byte first. */
  function BigEndian(n: nat): (b: seq<Byte>)
    requires n < U32Limit
    ensures |b| == 4
  {
    var n1 := n / 0x100;
    var n2 := n1 / 0x100;
    [n2 / 0x100, n2 % 0x100, n1 % 0x100, n % 0x100]
  }

  /** `u32::from_be_bytes`. */
  function FromBigEndian(b: seq<Byte>): (n: nat)
    requires |b| == 4
    ensures n < U32Limit
  {
    var b0: int, b1: int, b2: int, b3: int := b[0], b[1], b[2], b[3];
    ((b0 * 0x100 + b1) * 0x100 + b2) * 0x100 + b3
  }

  /** Reading back the four bytes of a `u32` gives the number. */
  lemma BigEndianRoundTrip(n: nat)
    requires n < U32Limit
    ensures FromBigEndian(BigEndian(n)) == n
  {
  }

  /** Every four bytes are the encoding of the number they spell. */
  lemma FromBigEndianRoundTrip(b: seq<Byte>)
    requires |b| == 4
    ensures BigEndian(FromBigEndian(b)) == b
  {
    var b0: int, b1: int, b2: int, b3: int := b[0], b[1], b[2], b[3];
    var n2: int := b0 * 0x100 + b1;
    var n1: int := n2 * 0x100 + b2;
    ShiftByte(b0, b1);
    ShiftByte(n2, b2);
    ShiftByte(n1, b3);
  }

  /** Appending a byte below a number and dropping it again. */
  lemma ShiftByte(high: int, low: int)
    requires 0 <= low < 0x100
    ensures (high * 0x100 + low) / 0x100 == high && (high * 0x100 + low) % 0x100 == low
  {
  }

  /**
   * The frame `send_message` writes: `(payload.len() as u32).to_be_bytes()` and then the
   * payload. The `as u32` cast keeps the length modulo 2^32.
   */
  function EncodeFrame(payload: seq<Byte>): (frame: seq<Byte>)
    ensures |frame| == 4 + |payload| && frame[4..] == payload
  {
    BigEndian(|payload| % U32Limit) + payload
  }

  /** A payload whose length fits a `u32` is announced with its exact length. */
  lemma FittingFrame(payload: seq<Byte>)
    requires |payload| < U32Limit
    ensures EncodeFrame(payload) == BigEndian(|payload|) + payload
  {
    assert |payload| % U32Limit == |payload|;
  }

  datatype WireError =
    | ShortHeader   // the stream ended before the 4 length bytes
    | ShortBody     // the stream ended before the announced number of payload bytes
    | Undecodable   // the payload is not the JSON text of a message

  /** A frame found at the start of a stream: its payload and how many bytes it took. */
  datatype Frame = Frame(payload: seq<Byte>, consumed: nat)

  /**
   * What `receive_message` reads off a stream: `read_exact` of 4 bytes, then `read_exact`
   * of the announced length.
   */
  function DecodeFrame(stream: seq<Byte>): (r: Result<Frame, WireError>)
    ensures r.Ok? ==> r.value.consumed == 4 + |r.value.payload| <= |stream|
  {
    if |stream| < 4 then Err(ShortHeader)
    else
      var len := FromBigEndian(stream[..4]);
      if |stream| - 4 < len then Err(ShortBody)
      else Ok(Frame(stream[4..4 + len], 4 + len))
  }

  /**
   * Round trip: a payload shorter than 2^32 bytes comes back unchanged from the frame that
   * encodes it, whatever follows the frame, and exactly the frame's bytes are consumed.
   */
  lemma FrameRoundTrip(payload: seq<Byte>, rest: seq<Byte>)
    requires |payload| < U32Limit
    ensures DecodeFrame(EncodeFrame(payload) + rest) == Ok(Frame(payload, 4 + |payload|))
  {
    var stream := EncodeFrame(payload) + rest;
    FittingFrame(payload);
    assert stream[..4] == BigEndian(|payload|);
    BigEndianRoundTrip(|payload|);
    assert stream[4..4 + |payload|] == payload;
  }

  /** The converse: whatever frame is decoded is the encoding of its payload. */
  lemma DecodedFrameIsEncoded(stream: seq<Byte>)
    requires DecodeFrame(stream).Ok?
    ensures var f := DecodeFrame(stream).value;
      |f.payload| < U32Limit && stream[..f.consumed] == EncodeFrame(f.payload)
  {
    var f := DecodeFrame(stream).value;
    FromBigEndianRoundTrip(stream[..4]);
    FittingFrame(f.payload);
    assert stream[..f.consumed] == stream[..4] + f.payload;
  }

  /**
   * Every proper prefix of a frame is rejected: with fewer than 4 bytes for want of the
   * length, otherwise for want of payload bytes.
   */
  lemma TruncatedFrameRejected(payload: seq<Byte>, k: nat)
    requires |payload| < U32Limit && k < 4 + |payload|
    ensures DecodeFrame(EncodeFrame(payload)[..k]) == if k < 4 then Err(ShortHeader) else Err(ShortBody)
  {
    if 4 <= k {
      var frame := EncodeFrame(payload);
      FittingFrame(payload);
      assert frame[..k][..4] == BigEndian(|payload|);
      BigEndianRoundTrip(|payload|);
    }
  }

  /**
   * The `as u32` cast in the sender: a payload of 2^32 bytes or more is announced with its
   * length modulo 2^32, so the receiver takes only that prefix of it as the message.
   */
  lemma OversizedPayloadTruncated(payload: seq<Byte>)
    requires U32Limit <= |payload|
    ensures var len := |payload| % U32Limit;
      DecodeFrame(EncodeFrame(payload)) == Ok(Frame(payload[..len], 4 + len))
  {
    var len := |payload| % U32Limit;
    var frame := EncodeFrame(payload);
    assert frame[..4] == BigEndian(len);
    BigEndianRoundTrip(len);
    assert frame[4..4 + len] == payload[..len];
  }

  /**
   * serde_json as the model sees it: an encoder of messages to bytes and a decoder that
   * may reject its input.
   */
  datatype Codec = Codec(encode: Message -> seq<Byte>, decode: seq<Byte> -> Option<Message>)

  /** `serde_json::from_slice(&to_vec(m)) == m`, and the text of `m` fits a frame. */
  ghost predicate RoundTrips(codec: Codec, m: Message)
  {
    codec.decode(codec.encode(m)) == Some(m) && |codec.encode(m)| < U32Limit
  }

  /** What `receive_message` yields from a stream: a message and the bytes it consumed. */
  function ParseMessage(stream: seq<Byte>, codec: Codec): (r: Result<(Message, nat), WireError>)
    ensures r.Ok? ==> 4 <= r.value.1 <= |stream|
  {
    match DecodeFrame(stream)
    case Err(e) => Err(e)
    case Ok(f) =>
      match codec.decode(f.payload)
      case None => Err(Undecodable)
      case Some(m) => Ok((m, f.consumed))
  }

  /**
   * Sending a message and receiving it back yields the same message and consumes exactly
   * its frame, provided the JSON codec round-trips that message.
   */
  lemma MessageRoundTrip(codec: Codec, m: Message, rest: seq<Byte>)
    requires RoundTrips(codec, m)
    ensures ParseMessage(EncodeFrame(codec.encode(m)) + rest, codec)
         == Ok((m, 4 + |codec.encode(m)|))
  {
    FrameRoundTrip(codec.encode(m), rest);
  }

  /**
   * One end of a TCP connection: the bytes the peer has sent that are not yet read, and
   * everything written to the peer so far.
   */
  class Socket {
    var inbound: seq<Byte>
    var outbound: seq<Byte>

    constructor (incoming: seq<Byte>)
      ensures inbound == incoming && outbound == []
    {
      inbound := incoming;
      outbound := [];
    }

    /** `write_all`: appends the bytes to what the peer will read. */
    method WriteAll(bytes: seq<Byte>)
      modifies this
      ensures outbound == old(outbound) + bytes && inbound == old(inbound)
    {
      outbound := outbound + bytes;
    }

    /**
     * `read(&mut buf[..len])`: copies the next bytes of the stream into the front of
     * `buf`, as many as are requested or as remain, and returns how many. 0 means the
     * peer has closed the stream.
     */
    method Read(buf: array<Byte>, len: nat) returns (n: nat)
      requires len <= buf.Length
      modifies this, buf
      ensures n == Min(len, |old(inbound)|)
      ensures buf[..n] == old(inbound)[..n]
      ensures forall i :: n <= i < buf.Length ==> buf[i] == old(buf[i])
      ensures inbound == old(inbound)[n..] && outbound == old(outbound)
    {
      n := Min(len, |inbound|);
      for i := 0 to n
        invariant inbound == old(inbound) && outbound == old(outbound)
        invariant buf[..i] == inbound[..i]
        invariant forall k :: i <= k < buf.Length ==> buf[k] == old(buf[k])
      {
        buf[i] := inbound[i];
      }
      inbound := inbound[n..];
    }

    /**
     * `read_exact(&mut buf[..len])`: fills the front of `buf` with the next `len` bytes,
     * or reports failure when the stream ends first, having consumed all that remained.
     */
    method ReadExact(buf: array<Byte>, len: nat) returns (ok: bool)
      requires len <= buf.Length
      modifies this, buf
      ensures ok <==> len <= |old(inbound)|
      ensures ok ==> buf[..len] == old(inbound)[..len] && inbound == old(inbound)[len..]
      ensures !ok ==> inbound == []
      ensures forall i :: len <= i < buf.Length ==> buf[i] == old(buf[i])
      ensures outbound == old(outbound)
    {
      var n := Read(buf, len);
      ok := n == len;
    }
  }

  /** `send_message`: writes the frame of the message's JSON text, then flushes. */
  method SendMessage(socket: Socket, m: Message, codec: Codec)
    modifies socket
    ensures socket.outbound == old(socket.outbound) + EncodeFrame(codec.encode(m))
    ensures socket.inbound == old(socket.inbound)
  {
    var serialized := codec.encode(m);
    var len := BigEndian(|serialized| % U32Limit);
    socket.WriteAll(len);
    socket.WriteAll(serialized);
  }

  /**
   * `receive_message`: reads the 4 length bytes, then a buffer of exactly that length,
   * and decodes it. Once a whole frame is read exactly that frame is consumed, whether
   * or not its payload decodes; a stream that ends early is consumed to its end.
   */
  method ReceiveMessage(socket: Socket, codec: Codec) returns (r: Result<Message, WireError>)
    modifies socket
    ensures var p := ParseMessage(old(socket.inbound), codec);
      && (p.Ok? ==> r == Ok(p.value.0) && socket.inbound == old(socket.inbound)[p.value.1..])
      && (p.Err? ==> r == Err(p.error))
      && (DecodeFrame(old(socket.inbound)).Err? ==> socket.inbound == [])
      && (DecodeFrame(old(socket.inbound)).Ok? ==>
            socket.inbound == old(socket.inbound)[DecodeFrame(old(socket.inbound)).value.consumed..])
    ensures socket.outbound == old(socket.outbound)
  {
    ghost var stream := socket.inbound;
    var lenBuf := new Byte[4](_ => 0);
    var ok := socket.ReadExact(lenBuf, 4);
    if !ok {
      return Err(ShortHeader);
    }
    assert lenBuf[..] == stream[..4];
    var msgLen := FromBigEndian(lenBuf[..]);
    var buffer := new Byte[msgLen](_ => 0);
    ok := socket.ReadExact(buffer, msgLen);
    if !ok {
      return Err(ShortBody);
    }
    assert buffer[..] == buffer[..msgLen] == stream[4..][..msgLen];
    assert buffer[..] == stream[4..4 + msgLen];
    match codec.decode(buffer[..])
    case None =>
      r := Err(Undecodable);
    case Some(m) =>
      r := Ok(m);
  }
}
