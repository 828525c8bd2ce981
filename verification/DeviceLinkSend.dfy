/** The send path: payload, link header and WebSocket frame are built in one shared buffer. */
module DeviceLinkSend {
  import opened Bytes
  import opened Options
  import opened WebSocketFrames
  import L = LinkCodec
  import C = Cbor
  import CborWalker

  const MAXIMUM_OUTGOING_HEADER: nat := 14
  const WORKSPACE_BYTES: nat := 526
  const FRAME_AT: nat := MAXIMUM_OUTGOING_HEADER
  const PAYLOAD_AT: nat := FRAME_AT + 12

  datatype SendFailure = Sent | WriteBusy | CborSchema | CborCanonical | FrameHeader | WebSocketFrame | TransportSubmit
    | TransportWrite

  /** The header of a masked binary frame from a client, up to the mask. */
  function ClientHeader(length: nat): (r: seq<byte>)
    requires length <= MAXIMUM_MESSAGE_BYTES
    ensures |r| == if length <= 125 then 2 else 4
  {
    [0x82] + (if length <= 125 then [0x80 + length] else [0xFE] + BigEndian(length, 2))
  }

  /** A whole masked frame (section 5.2). */
  function ClientFrame(data: seq<byte>, mask: seq<byte>): seq<byte>
    requires |data| <= MAXIMUM_MESSAGE_BYTES && |mask| == 4
  {
    ClientHeader(|data|) + mask + Masked(data, mask)
  }

  /** What a server makes of a client's bytes: one final binary frame, unmasked. */
  function Unwrap(wire: seq<byte>): Option<seq<byte>> {
    var head := ParseHead(wire);
    if head.None? then None
    else
      var h := head.value;
      if !Fin(h) || Opcode(h) != 2 || Reserved(h) || !HasMask(h) || |wire| != h.size + 4 + h.length then None
      else Some(Masked(wire[h.size + 4..], wire[h.size..h.size + 4]))
  }

  /** What was framed and masked is what the server unwraps. */
  lemma UnwrapFrame(data: seq<byte>, mask: seq<byte>)
    requires |data| <= MAXIMUM_MESSAGE_BYTES && |mask| == 4
    ensures Unwrap(ClientFrame(data, mask)) == Some(data)
  {
    hide Masked, BigEndian, FromBigEndian;
    var wire := ClientFrame(data, mask);
    var size := |ClientHeader(|data|)|;
    UnmaskMasked(data, mask);
    assert HeadSize(wire[1]) == size && wire[0] == 0x82;
    assert wire[size..size + 4] == mask && wire[size + 4..] == Masked(data, mask);
    if size == 4 {
      assert wire[2..4] == BigEndian(|data|, 2);
      TwoOctetRoundTrip(|data|);
    }
  }

  /** The two steps together, for every frame. */
  lemma SendRoundTrip(f: L.FrameView, mask: seq<byte>)
    requires L.ValidFrame(f) && |mask| == 4
    ensures |L.FrameBytes(f)| <= MAXIMUM_MESSAGE_BYTES
    ensures Unwrap(ClientFrame(L.FrameBytes(f), mask)) == Some(L.FrameBytes(f))
  {
    UnwrapFrame(L.FrameBytes(f), mask);
  }

  class Sender {
    const tx: array<byte>
    var open: bool
    var error: Error

    constructor ()
      ensures tx.Length == WORKSPACE_BYTES && fresh(tx) && open
    {
      tx := new byte[WORKSPACE_BYTES](_ => 0);
      open, error := true, NoError;
    }

    method RandomByte() returns (r: byte) {
      r := *;
    }

    /** Moves the data up to make room for the header; the two places may overlap. */
    method MoveData(from: nat, to: nat, length: nat)
      requires from + length <= tx.Length && to + length <= tx.Length
      modifies tx
      ensures tx[to..to + length] == old(tx[from..from + length])
    {
      forall i | 0 <= i < length {
        tx[to + i] := tx[from + i];
      }
    }

    /** Masks the data in place. */
    method MaskData(at: nat, length: nat, mask: seq<byte>)
      requires at + length <= tx.Length && |mask| == 4
      modifies tx
      ensures tx[at..at + length] == Masked(old(tx[at..at + length]), mask)
    {
      hide Xor;
      for i := 0 to length
        invariant tx[at..at + i] == Masked(old(tx[at..at + length]), mask)[..i]
        invariant forall k :: at + i <= k < at + length ==> tx[k] == old(tx[k])
      {
        tx[at + i] := Xor(tx[at + i], mask[i % 4]);
      }
    }

    method CopyHeader(header: seq<byte>)
      requires |header| <= tx.Length
      modifies tx
      ensures tx[..] == header + old(tx[|header|..])
    {
      forall i | 0 <= i < |header| {
        tx[i] := header[i];
      }
    }

    /** Turns `length` octets of the buffer, wherever they are, into one masked frame at its front. */
    method PrepareBinary(from: nat, length: nat) returns (ok: bool, wireLength: nat)
      requires from + length <= tx.Length
      modifies this`open, this`error, tx
      ensures ok <==> old(open) && length <= MAXIMUM_MESSAGE_BYTES && length + MAXIMUM_OUTGOING_HEADER <= tx.Length
      ensures wireLength <= tx.Length
      ensures ok ==> open && exists mask: seq<byte> ::
                |mask| == 4 && tx[..wireLength] == ClientFrame(old(tx[from..from + length]), mask)
      ensures !ok ==> !open && wireLength == 0 && tx[..] == old(tx[..])
    {
      hide Masked, Xor, BigEndian, ClientHeader;
      wireLength := 0;
      if !open || length > MAXIMUM_MESSAGE_BYTES {
        error, open := NotConnected, false;
        return false, 0;
      }
      if tx.Length < length + MAXIMUM_OUTGOING_HEADER {
        error, open := MessageTooLarge, false;
        return false, 0;
      }
      var m0 := RandomByte();
      var m1 := RandomByte();
      var m2 := RandomByte();
      var m3 := RandomByte();
      var mask := [m0, m1, m2, m3];
      var header := MakeHeader(length, mask);
      Place(from, length, header, mask);
      wireLength := |header| + length;
      ok := true;
      assert tx[..wireLength] == ClientFrame(old(tx[from..from + length]), mask);
    }

    method MakeHeader(length: nat, mask: seq<byte>) returns (header: seq<byte>)
      requires length <= MAXIMUM_MESSAGE_BYTES && |mask| == 4
      ensures header == ClientHeader(length) + mask
    {
      hide BigEndian;
      L.LengthOctets(length);
      header := [0x82];
      if length <= 125 {
        header := header + [0x80 + length];
      } else {
        header := header + [0xFE, length / 256 % 256, length % 256];
      }
      header := header + mask;
    }

    /** Moves and masks the data, then puts the header in front: only then may the old place be overwritten. */
    method Place(from: nat, length: nat, header: seq<byte>, mask: seq<byte>)
      requires from + length <= tx.Length && |header| + length <= tx.Length && |mask| == 4
      modifies tx
      ensures tx[..|header| + length] == header + Masked(old(tx[from..from + length]), mask)
    {
      hide Masked;
      MoveData(from, |header|, length);
      MaskData(|header|, length, mask);
      ghost var masked := tx[|header|..|header| + length];
      assert masked == tx[|header|..][..length];
      CopyHeader(header);
      assert tx[|header|..|header| + length] == tx[..][|header|..][..length];
    }

    /** The encoder leaves the payload behind the place of the header. */
    method EncodePayload(payload: seq<byte>)
      requires tx.Length == WORKSPACE_BYTES && |payload| <= L.MAXIMUM_PAYLOAD_BYTES
      modifies tx
      ensures tx[PAYLOAD_AT..PAYLOAD_AT + |payload|] == payload
    {
      forall i | 0 <= i < |payload| {
        tx[PAYLOAD_AT + i] := payload[i];
      }
    }

    /**
     Sends one link frame. `encoded` is what the schema encoder produced, `None` if
     it failed; `wire` is what was submitted to the transport. It unwraps and decodes
     to the same type, id and payload, whether or not the transport then gets rid of it.
     */
    method SendEncoded(messageType: byte, messageId: nat, encoded: Option<seq<byte>>, busy: bool)
        returns (failure: SendFailure, wire: seq<byte>)
      requires tx.Length == WORKSPACE_BYTES && messageId < TWO_64
      modifies this`open, this`error, tx
      ensures failure == Sent || failure == TransportWrite ==>
                && encoded.Some? && L.KnownMessageType(messageType)
                && C.IsCanonical(encoded.value)
                && Unwrap(wire) == Some(L.FrameBytes(L.FrameView(messageType, messageId, encoded.value)))
      ensures failure != Sent && failure != TransportWrite ==> wire == []
      ensures failure == WriteBusy <==> busy
      ensures !busy ==> (failure == CborSchema <==> !Fitting(encoded))
      ensures !busy && Fitting(encoded) ==> (failure == CborCanonical <==> !C.IsCanonical(encoded.value))
      ensures !busy && Fitting(encoded) && C.IsCanonical(encoded.value) ==>
                (failure == FrameHeader <==> !L.KnownMessageType(messageType))
      ensures !busy && Fitting(encoded) && C.IsCanonical(encoded.value) && L.KnownMessageType(messageType) ==>
                (failure == WebSocketFrame <==> !old(open))
      ensures !busy && Fitting(encoded) && old(open) && L.KnownMessageType(messageType)
              && C.IsCanonical(encoded.value) ==>
                failure in {Sent, TransportSubmit, TransportWrite}
    {
      hide Unwrap, ClientFrame, C.IsCanonical, L.FrameHeader;
      wire := [];
      if busy {
        return WriteBusy, [];
      }
      if encoded.None? || encoded.value == [] || |encoded.value| > 500 {
        return CborSchema, [];
      }
      var payload := encoded.value;
      EncodePayload(payload);
      var canonical := CborWalker.ValidateCanonicalCbor(payload);
      if !canonical {
        return CborCanonical, [];
      }
      ghost var before := tx[..];
      var encodedHeader := L.EncodeFrameHeader(tx, FRAME_AT, L.MAXIMUM_FRAME_BYTES, messageType, 0, messageId, |payload|);
      if !encodedHeader {
        return FrameHeader, [];
      }
      ghost var f := L.FrameView(messageType, messageId, payload);
      FrameInPlace(before, tx[..], FRAME_AT, L.FrameHeader(messageType, messageId, |payload|), payload);
      assert tx[FRAME_AT..FRAME_AT + 12 + |payload|] == tx[..][FRAME_AT..FRAME_AT + 12 + |payload|];
      var ok, wireLength := PrepareBinary(FRAME_AT, L.HEADER_BYTES + |payload|);
      if !ok {
        return WebSocketFrame, [];
      }
      ghost var mask: seq<byte> :| |mask| == 4 && tx[..wireLength] == ClientFrame(L.FrameBytes(f), mask);
      SendRoundTrip(f, mask);
      var submitted: bool := *;
      if !submitted {
        return TransportSubmit, [];
      }
      var written: bool := *;
      failure, wire := (if written then Sent else TransportWrite), tx[..wireLength];
    }

    /** A header written in front of its payload. */
    static lemma FrameInPlace(before: seq<byte>, after: seq<byte>, at: nat, header: seq<byte>, payload: seq<byte>)
      requires at + |header| + |payload| <= |before|
      requires before[at + |header|..at + |header| + |payload|] == payload
      requires after == before[..at] + header + before[at + |header|..]
      ensures |after| == |before| && after[at..at + |header| + |payload|] == header + payload
    {
      assert before[at + |header|..][..|payload|] == payload;
      assert after[at..] == header + before[at + |header|..];
      assert after[at..at + |header| + |payload|] == after[at..][..|header| + |payload|];
    }

    /** The encoder produced something, and no more than a frame holds. */
    static predicate Fitting(encoded: Option<seq<byte>>) {
      encoded.Some? && 0 < |encoded.value| <= L.MAXIMUM_PAYLOAD_BYTES
    }
  }
}
