/** The 12-octet header that precedes every link payload. */
module LinkCodec {
  import opened Bytes
  import opened Options

  const HEADER_BYTES: nat := 12
  const MAXIMUM_FRAME_BYTES: nat := 512
  const MAXIMUM_PAYLOAD_BYTES: nat := 500
  const SUPPORTED_FLAGS: byte := 0

  predicate KnownMessageType(t: nat) {
    1 <= t <= 10 || 16 <= t <= 24 || 32 <= t <= 44 || t == 127
  }

  /** The types of the protocol one by one, as the switch lists them. */
  lemma KnownTypes(t: nat)
    ensures KnownMessageType(t)
            <==> t in {0x01, 0x02, 0x03, 0x04, 0x05, 0x06, 0x07, 0x08, 0x09, 0x0A, 0x10, 0x11, 0x12, 0x13, 0x14, 0x15,
                       0x16, 0x17, 0x18, 0x20, 0x21, 0x22, 0x23, 0x24, 0x25, 0x26, 0x27, 0x28, 0x29, 0x2A, 0x2B, 0x2C,
                       0x7F}
  {}

  datatype FrameView = FrameView(messageType: byte, messageId: nat, payload: seq<byte>)

  predicate ValidFrame(f: FrameView) {
    KnownMessageType(f.messageType) && f.messageId < TWO_64 && |f.payload| <= MAXIMUM_PAYLOAD_BYTES
  }

  function FrameHeader(messageType: byte, messageId: nat, length: nat): (r: seq<byte>)
    ensures |r| == HEADER_BYTES
  {
    [messageType, SUPPORTED_FLAGS] + BigEndian(length, 2) + BigEndian(messageId, 8)
  }

  /** The wire form of a frame. */
  function FrameBytes(f: FrameView): seq<byte> {
    FrameHeader(f.messageType, f.messageId, |f.payload|) + f.payload
  }

  /** A frame can be read back from its wire form. */
  lemma FrameFields(f: FrameView)
    requires ValidFrame(f)
    ensures var s := FrameBytes(f);
            && |s| == HEADER_BYTES + |f.payload| && s[0] == f.messageType && s[1] == SUPPORTED_FLAGS
            && FromBigEndian(s[2..4]) == |f.payload| && FromBigEndian(s[4..12]) == f.messageId && s[12..] == f.payload
  {
    hide BigEndian, FromBigEndian, Pow256;
    Powers();
    var s := FrameBytes(f);
    assert s[2..4] == BigEndian(|f.payload|, 2) && s[4..12] == BigEndian(f.messageId, 8);
    BigEndianRoundTrip(|f.payload|, 2);
    BigEndianRoundTrip(f.messageId, 8);
  }

  lemma FrameOf(s: seq<byte>)
    requires |s| >= HEADER_BYTES && s[1] == SUPPORTED_FLAGS && FromBigEndian(s[2..4]) == |s| - HEADER_BYTES
    ensures FrameBytes(FrameView(s[0], FromBigEndian(s[4..12]), s[12..])) == s
    ensures FromBigEndian(s[4..12]) < TWO_64
  {
    hide BigEndian, FromBigEndian, Pow256;
    Powers();
    FromBigEndianRoundTrip(s[2..4]);
    FromBigEndianRoundTrip(s[4..12]);
    FromBigEndianBound(s[4..12]);
    assert s == [s[0], s[1]] + s[2..4] + s[4..12] + s[12..];
  }

  /** Writes the header in front of a payload that is already in the buffer. */
  method EncodeFrameHeader(buffer: array<byte>, at: nat, capacity: nat, messageType: byte, flags: byte, messageId: nat,
                           payloadLength: nat) returns (ok: bool)
    requires at + capacity <= buffer.Length && messageId < TWO_64
    modifies buffer
    ensures ok <==>
              && KnownMessageType(messageType) && flags == SUPPORTED_FLAGS
              && payloadLength <= MAXIMUM_PAYLOAD_BYTES && HEADER_BYTES + payloadLength <= capacity
    ensures !ok ==> buffer[..] == old(buffer[..])
    ensures ok ==> buffer[..] == old(buffer[..at]) + FrameHeader(messageType, messageId, payloadLength)
                                 + old(buffer[at + HEADER_BYTES..])
  {
    hide BigEndian, Pow256;
    if !KnownMessageType(messageType) || flags != SUPPORTED_FLAGS || payloadLength > MAXIMUM_PAYLOAD_BYTES
       || capacity < HEADER_BYTES + payloadLength {
      return false;
    }
    EncodeStart(buffer, at, messageType, flags, payloadLength);
    assert buffer[at + 4..][8..] == buffer[at + 12..] && old(buffer[at + 4..])[8..] == old(buffer[at + 12..]);
    EncodeId(buffer, at + 4, messageId);
    assert buffer[..] == buffer[..at + 4] + buffer[at + 4..at + 12] + buffer[at + 12..];
    ok := true;
  }

  /** Writes the type, the flags and the payload length. */
  method EncodeStart(buffer: array<byte>, at: nat, messageType: byte, flags: byte, payloadLength: nat)
    requires at + 4 <= buffer.Length
    modifies buffer
    ensures buffer[..at + 4] == old(buffer[..at]) + [messageType, flags] + BigEndian(payloadLength, 2)
    ensures buffer[at + 4..] == old(buffer[at + 4..])
  {
    hide BigEndian;
    LengthOctets(payloadLength);
    buffer[at] := messageType;
    buffer[at + 1] := flags;
    buffer[at + 2] := payloadLength / 256 % 256;
    buffer[at + 3] := payloadLength % 256;
    assert buffer[..at] == old(buffer[..at]);
  }

  /** Writes the id octet by octet, the highest first. */
  method EncodeId(buffer: array<byte>, at: nat, messageId: nat)
    requires at + 8 <= buffer.Length
    modifies buffer
    ensures buffer[..at] == old(buffer[..at]) && buffer[at + 8..] == old(buffer[at + 8..])
    ensures buffer[at..at + 8] == BigEndian(messageId, 8)
  {
    hide BigEndian, Pow256;
    ghost var id := BigEndian(messageId, 8);
    for i := 0 to 8
      invariant buffer[..at] == old(buffer[..at]) && buffer[at + 8..] == old(buffer[at + 8..])
      invariant buffer[at..at + i] == id[..i]
    {
      BigEndianAt(messageId, 8, i);
      buffer[at + i] := messageId / Pow256(7 - i) % 256;
    }
  }

  lemma LengthOctets(n: nat)
    ensures BigEndian(n, 2) == [n / 256 % 256, n % 256]
  {
    assert BigEndian(n / 256, 1) == BigEndian(n / 256 / 256, 0) + [n / 256 % 256];
  }

  /** Accepts exactly the wire forms of frames, and returns the frame each one is. */
  method DecodeMessage(message: seq<byte>) returns (frame: Option<FrameView>)
    ensures frame.Some? ==> ValidFrame(frame.value) && FrameBytes(frame.value) == message
    ensures forall f :: ValidFrame(f) && FrameBytes(f) == message ==> frame == Some(f)
  {
    hide FrameBytes;
    forall f | ValidFrame(f) && FrameBytes(f) == message
      ensures |message| >= HEADER_BYTES && f == FrameView(message[0], FromBigEndian(message[4..12]), message[12..])
      ensures message[1] == SUPPORTED_FLAGS && FromBigEndian(message[2..4]) == |message| - HEADER_BYTES
    {
      FrameFields(f);
    }
    if |message| < HEADER_BYTES || |message| > MAXIMUM_FRAME_BYTES {
      return None;
    }
    if !KnownMessageType(message[0]) || message[1] != SUPPORTED_FLAGS {
      return None;
    }
    var high: nat, low: nat := message[2], message[3];
    var payloadLength := high * 256 + low;
    TwoOctets(message[2], message[3]);
    assert message[2..4] == [message[2], message[3]];
    if payloadLength > MAXIMUM_PAYLOAD_BYTES || |message| != HEADER_BYTES + payloadLength {
      return None;
    }
    var messageId := 0;
    for i := 0 to 8
      invariant messageId == FromBigEndian(message[4..4 + i])
    {
      var octet: nat := message[4 + i];
      assert message[4..4 + (i + 1)][..i] == message[4..4 + i];
      messageId := messageId * 256 + octet;
    }
    FrameOf(message);
    frame := Some(FrameView(message[0], messageId, message[12..]));
  }
}
