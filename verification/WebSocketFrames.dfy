/** The server-to-client frame stream of RFC 6455, decoded as a whole. */
module WebSocketFrames {
  import opened Bytes
  import opened Options
  import opened Utf8

  const MAXIMUM_MESSAGE_BYTES: nat := 512
  const MAXIMUM_CONTROL_BYTES: nat := 125

  datatype Error = NoError | NotConnected | Protocol | MessageTooLarge | Transport | PeerClosed

  /** What the application sees: payload octets and the ends of messages. */
  datatype Out = Octet(b: byte) | EndOfMessage

  datatype Ending = Waiting | Failed(error: Error) | Closed

  datatype Outcome = Outcome(out: seq<Out>, ending: Ending)

  datatype Head = Head(first: byte, second: byte, length: nat, size: nat)

  function HeadSize(second: byte): nat {
    var indicator: nat := second % 128;
    if indicator <= 125 then 2 else if indicator == 126 then 4 else 10
  }

  /** The frame header at the front of `s`, once all of it has arrived (section 5.2). */
  function ParseHead(s: seq<byte>): (h: Option<Head>)
    ensures h.Some? ==> 2 <= h.value.size <= |s|
  {
    if |s| < 2 || |s| < HeadSize(s[1]) then None
    else
      var indicator: nat := s[1] % 128;
      Some(Head(s[0], s[1],
                if indicator <= 125 then indicator else FromBigEndian(s[2..HeadSize(s[1])]),
                HeadSize(s[1])))
  }

  function Opcode(h: Head): nat { h.first % 16 }

  predicate Fin(h: Head) { h.first >= 128 }

  predicate Reserved(h: Head) { h.first / 16 % 8 != 0 }

  predicate HasMask(h: Head) { h.second >= 128 }

  predicate IsControl(h: Head) { Opcode(h) >= 8 }

  /** Why a frame is refused, given the message it would continue. */
  function Refusal(h: Head, inMessage: bool, received: nat): Option<Error> {
    if Reserved(h) || HasMask(h) then Some(Protocol)
    else if IsControl(h) && (Opcode(h) > 10 || !Fin(h) || h.length > MAXIMUM_CONTROL_BYTES) then Some(Protocol)
    else if !IsControl(h) && h.length + received > MAXIMUM_MESSAGE_BYTES then Some(MessageTooLarge)
    else if Opcode(h) == 2 then if inMessage then Some(Protocol) else None
    else if Opcode(h) == 0 then if inMessage then None else Some(Protocol)
    else if !IsControl(h) then Some(Protocol)
    else None
  }

  /**
   The close status codes that are accepted on the wire: of those in use, section 7.4
   reserves 1004 to 1006 and leaves 1012 to 2999 to later specifications.
   */
  predicate ValidCloseCode(code: nat) {
    1000 <= code < 5000 && !(1004 <= code < 1007) && !(1012 <= code < 3000)
  }

  ghost predicate ValidClose(payload: seq<byte>) {
    payload == [] ||
    (|payload| >= 2 && ValidCloseCode(FromBigEndian(payload[..2])) && IsText(payload[2..]))
  }

  function Octets(s: seq<byte>): (r: seq<Out>)
    ensures |r| == |s|
  {
    seq(|s|, i requires 0 <= i < |s| => Octet(s[i]))
  }

  function Prepend(out: seq<Out>, o: Outcome): Outcome {
    Outcome(out + o.out, o.ending)
  }

  /** What a complete data frame delivers. */
  function Delivery(h: Head, payload: seq<byte>): seq<Out> {
    Octets(payload) + (if Fin(h) then [EndOfMessage] else [])
  }

  /**
   The whole stream `s` from a frame boundary on: everything delivered up to the
   first error, close or missing octet. Zero-length control frames are passed
   over without a look at their opcode.
   */
  ghost function Decode(s: seq<byte>, inMessage: bool, received: nat): Outcome
    decreases |s|
  {
    var head := ParseHead(s);
    if head.None? then Outcome([], Waiting)
    else
      var h := head.value;
      var refusal := Refusal(h, inMessage, received);
      if refusal.Some? then Outcome([], Failed(refusal.value))
      else
        var rest := s[h.size..];
        if IsControl(h) then
          if |rest| < h.length then Outcome([], Waiting)
          else if h.length > 0 && Opcode(h) == 8 then
            Outcome([], if ValidClose(rest[..h.length]) then Closed else Failed(Protocol))
          else Decode(rest[h.length..], inMessage, received)
        else if |rest| < h.length then Outcome(Octets(rest), Waiting)
        else
          Prepend(Delivery(h, rest[..h.length]),
                  Decode(rest[h.length..], !Fin(h), if Fin(h) then 0 else received + h.length))
  }

  /** A control frame sent in answer to one received. */
  datatype Reply = Reply(opcode: nat, payload: seq<byte>)

  /** The answer to one control frame: a pong for a ping, a close for a valid close, both only for a payload. */
  ghost function Answer(opcode: nat, payload: seq<byte>): seq<Reply> {
    if payload == [] then []
    else if opcode == 9 then [Reply(10, payload)]
    else if opcode == 8 && ValidClose(payload) then [Reply(8, payload)]
    else []
  }

  /** What the whole stream `s` is answered with, up to the first error, close or missing octet. */
  ghost function Replies(s: seq<byte>, inMessage: bool, received: nat): seq<Reply>
    decreases |s|
  {
    var head := ParseHead(s);
    if head.None? || Refusal(head.value, inMessage, received).Some? then []
    else
      var h := head.value;
      var rest := s[h.size..];
      if |rest| < h.length then []
      else if IsControl(h) then
        Answer(Opcode(h), rest[..h.length])
        + (if h.length > 0 && Opcode(h) == 8 then [] else Replies(rest[h.length..], inMessage, received))
      else Replies(rest[h.length..], !Fin(h), if Fin(h) then 0 else received + h.length)
  }

  /** No message of a stream is longer than `MAXIMUM_MESSAGE_BYTES`. */
  predicate Bounded(out: seq<Out>, carried: nat) {
    carried <= MAXIMUM_MESSAGE_BYTES &&
    (out == [] || Bounded(out[1..], if out[0] == EndOfMessage then 0 else carried + 1))
  }

  lemma {:induction false} BoundedOctets(s: seq<byte>, out: seq<Out>, carried: nat)
    requires carried + |s| <= MAXIMUM_MESSAGE_BYTES && Bounded(out, carried + |s|)
    ensures Bounded(Octets(s) + out, carried)
  {
    if s == [] {
      assert Octets(s) + out == out;
    } else {
      BoundedOctets(s[1..], out, carried + 1);
      assert (Octets(s) + out)[1..] == Octets(s[1..]) + out;
    }
  }

  lemma BoundedDelivery(h: Head, payload: seq<byte>, more: seq<Out>, received: nat)
    requires received + |payload| <= MAXIMUM_MESSAGE_BYTES
    requires Bounded(more, if Fin(h) then 0 else received + |payload|)
    ensures Bounded(Delivery(h, payload) + more, received)
  {
    var tail := (if Fin(h) then [EndOfMessage] else []) + more;
    assert Fin(h) ==> tail[1..] == more;
    assert !Fin(h) ==> tail == more;
    BoundedOctets(payload, tail, received);
    assert Delivery(h, payload) + more == Octets(payload) + tail;
  }

  lemma BoundedPart(payload: seq<byte>, received: nat)
    requires received + |payload| <= MAXIMUM_MESSAGE_BYTES
    ensures Bounded(Octets(payload), received)
  {
    BoundedOctets(payload, [], received);
    assert Octets(payload) + [] == Octets(payload);
  }

  lemma Accepted(h: Head, inMessage: bool, received: nat)
    requires Refusal(h, inMessage, received).None? && !IsControl(h)
    ensures received + h.length <= MAXIMUM_MESSAGE_BYTES
  {}

  lemma {:induction false} MessagesBounded(s: seq<byte>, inMessage: bool, received: nat)
    requires received <= MAXIMUM_MESSAGE_BYTES
    ensures Bounded(Decode(s, inMessage, received).out, received)
    decreases |s|
  {
    hide ValidClose, ParseHead, Refusal, IsControl, Delivery, Octets, Bounded, Opcode;
    NoneBounded(received);
    var head := ParseHead(s);
    if head.Some? && Refusal(head.value, inMessage, received).None? {
      var h := head.value;
      var rest := s[h.size..];
      if IsControl(h) {
        if |rest| >= h.length {
          MessagesBounded(rest[h.length..], inMessage, received);
        }
      } else if |rest| < h.length {
        Accepted(h, inMessage, received);
        BoundedPart(rest, received);
      } else {
        Accepted(h, inMessage, received);
        var after := if Fin(h) then 0 else received + h.length;
        MessagesBounded(rest[h.length..], !Fin(h), after);
        BoundedDelivery(h, rest[..h.length], Decode(rest[h.length..], !Fin(h), after).out, received);
      }
    }
  }

  lemma NoneBounded(received: nat)
    requires received <= MAXIMUM_MESSAGE_BYTES
    ensures Bounded([], received)
  {}

  /** Masking of section 5.3; masking again undoes it. */
  function Masked(s: seq<byte>, mask: seq<byte>): (r: seq<byte>)
    requires |mask| == 4
    ensures |r| == |s|
  {
    seq(|s|, i requires 0 <= i < |s| => Xor(s[i], mask[i % 4]))
  }

  lemma UnmaskMasked(s: seq<byte>, mask: seq<byte>)
    requires |mask| == 4
    ensures Masked(Masked(s, mask), mask) == s
  {
    hide Xor;
    forall i | 0 <= i < |s|
      ensures Masked(Masked(s, mask), mask)[i] == s[i]
    {
      XorUndo(s[i], mask[i % 4]);
    }
  }

  /** The masked text message of the examples in section 5.7. */
  lemma HelloMasked()
    ensures Masked([0x48, 0x65, 0x6c, 0x6c, 0x6f], [0x37, 0xfa, 0x21, 0x3d]) == [0x7f, 0x9f, 0x4d, 0x51, 0x58]
  {
    HelloOctets();
    hide Xor;
    assert Masked([0x48, 0x65, 0x6c, 0x6c, 0x6f], [0x37, 0xfa, 0x21, 0x3d])[4] == Xor(0x6f, 0x37);
  }

  lemma HelloOctets()
    ensures Xor(0x48, 0x37) == 0x7f && Xor(0x65, 0xfa) == 0x9f && Xor(0x6c, 0x21) == 0x4d && Xor(0x6c, 0x3d) == 0x51
    ensures Xor(0x6f, 0x37) == 0x58
  {
    hide Xor;
    HelloOctet0();
    HelloOctet1();
    HelloOctet2();
    HelloOctet3();
    HelloOctet4();
  }

  lemma HelloOctet0()
    ensures Xor(0x48, 0x37) == 0x7f
  {
    assert XorBits(0, 0, 1) == 0 && XorBits(1, 0, 2) == 1 && XorBits(2, 1, 3) == 3;
    assert XorBits(4, 3, 4) == 7 && XorBits(9, 6, 5) == 15 && XorBits(18, 13, 6) == 31 && XorBits(36, 27, 7) == 63;
  }

  lemma HelloOctet1()
    ensures Xor(0x65, 0xfa) == 0x9f
  {
    assert XorBits(0, 1, 1) == 1 && XorBits(1, 3, 2) == 2 && XorBits(3, 7, 3) == 4;
    assert XorBits(6, 15, 4) == 9 && XorBits(12, 31, 5) == 19 && XorBits(25, 62, 6) == 39 && XorBits(50, 125, 7) == 79;
  }

  lemma HelloOctet2()
    ensures Xor(0x6c, 0x21) == 0x4d
  {
    assert XorBits(0, 0, 1) == 0 && XorBits(1, 0, 2) == 1 && XorBits(3, 1, 3) == 2;
    assert XorBits(6, 2, 4) == 4 && XorBits(13, 4, 5) == 9 && XorBits(27, 8, 6) == 19 && XorBits(54, 16, 7) == 38;
  }

  lemma HelloOctet3()
    ensures Xor(0x6c, 0x3d) == 0x51
  {
    assert XorBits(0, 0, 1) == 0 && XorBits(1, 0, 2) == 1 && XorBits(3, 1, 3) == 2;
    assert XorBits(6, 3, 4) == 5 && XorBits(13, 7, 5) == 10 && XorBits(27, 15, 6) == 20 && XorBits(54, 30, 7) == 40;
  }

  lemma HelloOctet4()
    ensures Xor(0x6f, 0x37) == 0x58
  {
    assert XorBits(0, 0, 1) == 0 && XorBits(1, 0, 2) == 1 && XorBits(3, 1, 3) == 2;
    assert XorBits(6, 3, 4) == 5 && XorBits(13, 6, 5) == 11 && XorBits(27, 13, 6) == 22 && XorBits(55, 27, 7) == 44;
  }

  // ---- What a server reads ----

  /** `frame` is one whole masked control frame in which a server reads this opcode and payload. */
  predicate ServerReads(frame: seq<byte>, opcode: nat, payload: seq<byte>) {
    var head := ParseHead(frame);
    && head.Some?
    && (var h := head.value;
        && Fin(h) && HasMask(h) && !Reserved(h) && Opcode(h) == opcode && h.length == |payload|
        && |frame| == h.size + 4 + h.length
        && Masked(frame[h.size + 4..], frame[h.size..h.size + 4]) == payload)
  }

  /** A server reads one answer in a frame, no other. */
  lemma ReadsOne(frame: seq<byte>, opcode: nat, payload: seq<byte>, opcode': nat, payload': seq<byte>)
    requires ServerReads(frame, opcode, payload) && ServerReads(frame, opcode', payload')
    ensures opcode == opcode' && payload == payload' && |frame| >= 6 + |payload| && frame[0] == 128 + opcode
  {}

  /** The answer to the ping 89 02 68 69 under the mask 01 02 03 04. */
  lemma PongRead()
    ensures ServerReads([0x8A, 0x82, 1, 2, 3, 4, 0x69, 0x6B], 10, [0x68, 0x69])
    ensures !ServerReads([0x8A, 0x82, 1, 2, 3, 4, 0x68, 0x69], 10, [0x68, 0x69])
  {
    hide Xor;
    PongOctet0();
    PongOctet1();
    XorUndo(0x68, 1);
    XorUndo(0x69, 2);
    var frame, plain: seq<byte> := [0x8A, 0x82, 1, 2, 3, 4, 0x69, 0x6B], [0x8A, 0x82, 1, 2, 3, 4, 0x68, 0x69];
    assert frame[2..6] == [1, 2, 3, 4] == plain[2..6] && frame[6..] == [0x69, 0x6B] && plain[6..] == [0x68, 0x69];
    assert Masked(frame[6..], frame[2..6]) == [0x68, 0x69];
    assert Masked(plain[6..], plain[2..6])[0] == 0x69;
  }

  lemma PongOctet0()
    ensures Xor(0x68, 1) == 0x69
  {
    assert XorBits(0, 0, 1) == 0 && XorBits(1, 0, 2) == 1 && XorBits(3, 0, 3) == 3;
    assert XorBits(6, 0, 4) == 6 && XorBits(13, 0, 5) == 13 && XorBits(26, 0, 6) == 26 && XorBits(52, 0, 7) == 52;
  }

  lemma PongOctet1()
    ensures Xor(0x69, 2) == 0x6B
  {
    assert XorBits(0, 0, 1) == 0 && XorBits(1, 0, 2) == 1 && XorBits(3, 0, 3) == 3;
    assert XorBits(6, 0, 4) == 6 && XorBits(13, 0, 5) == 13 && XorBits(26, 0, 6) == 26 && XorBits(52, 1, 7) == 53;
  }

  /** `s` is one frame after the other, in which a server reads `replies`. */
  ghost predicate AllRead(s: seq<byte>, replies: seq<Reply>)
    decreases |replies|
  {
    if replies == [] then s == []
    else
      var last := replies[|replies| - 1];
      exists n: nat :: n <= |s| && AllRead(s[..n], replies[..|replies| - 1]) && ServerReads(s[n..], last.opcode, last.payload)
  }

  lemma OneMoreRead(s: seq<byte>, replies: seq<Reply>, frame: seq<byte>, opcode: nat, payload: seq<byte>)
    requires AllRead(s, replies) && ServerReads(frame, opcode, payload)
    ensures AllRead(s + frame, replies + [Reply(opcode, payload)])
  {
    hide ServerReads;
    var more := replies + [Reply(opcode, payload)];
    assert more[..|more| - 1] == replies;
    assert (s + frame)[..|s|] == s && (s + frame)[|s|..] == frame;
  }

  // ---- Streams made of legal frames ----

  /** A frame as a server sends it: unmasked, with the shortest length field. */
  datatype Frame = Frame(fin: bool, opcode: nat, payload: seq<byte>)

  function Wire(f: Frame): seq<byte>
    requires f.opcode < 16 && |f.payload| < 65536
  {
    [f.opcode + (if f.fin then 128 else 0)]
    + (if |f.payload| <= 125 then [|f.payload|] else [126] + BigEndian(|f.payload|, 2))
    + f.payload
  }

  /** Frames that form messages, with pings and pongs anywhere between them. */
  predicate Legal(fs: seq<Frame>, inMessage: bool, received: nat) {
    fs == [] ||
    var f := fs[0];
    if f.opcode == 9 || f.opcode == 10 then f.fin && |f.payload| <= MAXIMUM_CONTROL_BYTES && Legal(fs[1..], inMessage, received)
    else
      && f.opcode == (if inMessage then 0 else 2)
      && received + |f.payload| <= MAXIMUM_MESSAGE_BYTES
      && Legal(fs[1..], !f.fin, if f.fin then 0 else received + |f.payload|)
  }

  function WireAll(fs: seq<Frame>, inMessage: bool, received: nat): seq<byte>
    requires Legal(fs, inMessage, received)
  {
    if fs == [] then []
    else if fs[0].opcode >= 9 then Wire(fs[0]) + WireAll(fs[1..], inMessage, received)
    else
      Wire(fs[0])
      + WireAll(fs[1..], !fs[0].fin, if fs[0].fin then 0 else received + |fs[0].payload|)
  }

  /** The payloads of the data frames, and the message ends; control frames leave no trace. */
  function Content(fs: seq<Frame>): seq<Out> {
    if fs == [] then []
    else if fs[0].opcode >= 9 then Content(fs[1..])
    else Octets(fs[0].payload) + (if fs[0].fin then [EndOfMessage] else []) + Content(fs[1..])
  }

  lemma WireHead(f: Frame, t: seq<byte>)
    requires f.opcode < 16 && |f.payload| < 65536
    ensures var s := Wire(f) + t;
            var h := ParseHead(s);
            && h.Some? && Opcode(h.value) == f.opcode && Fin(h.value) == f.fin && h.value.length == |f.payload|
            && !Reserved(h.value) && !HasMask(h.value)
            && h.value.size + |f.payload| == |Wire(f)|
            && s[h.value.size..][..|f.payload|] == f.payload
            && s[h.value.size..][|f.payload|..] == t
  {
    hide BigEndian, FromBigEndian, Pow256;
    var s := Wire(f) + t;
    var size := if |f.payload| <= 125 then 2 else 4;
    assert HeadSize(s[1]) == size && |Wire(f)| == size + |f.payload|;
    assert s[size..] == f.payload + t;
    if size == 4 {
      assert s[2..4] == BigEndian(|f.payload|, 2);
      TwoOctetRoundTrip(|f.payload|);
    }
  }

  lemma TwoOctetRoundTrip(n: nat)
    requires n < 65536
    ensures FromBigEndian(BigEndian(n, 2)) == n
  {
    assert Pow256(2) == 65536;
    BigEndianRoundTrip(n, 2);
  }

  /** A ping or pong anywhere leaves the rest of the stream to be decoded as if it were not there. */
  lemma ControlTransparent(f: Frame, t: seq<byte>, inMessage: bool, received: nat)
    requires f.fin && (f.opcode == 9 || f.opcode == 10) && |f.payload| <= MAXIMUM_CONTROL_BYTES
    ensures Decode(Wire(f) + t, inMessage, received) == Decode(t, inMessage, received)
  {
    hide Wire, ParseHead, ValidClose, Opcode, Fin, Reserved, HasMask;
    WireHead(f, t);
  }

  /** A close frame ends the stream, valid or not, unless it is empty: then it is passed over. */
  lemma CloseEndsIff(f: Frame, t: seq<byte>, inMessage: bool, received: nat)
    requires f.fin && f.opcode == 8 && |f.payload| <= MAXIMUM_CONTROL_BYTES
    ensures Decode(Wire(f) + t, inMessage, received)
            == if f.payload == [] then Decode(t, inMessage, received)
               else Outcome([], if ValidClose(f.payload) then Closed else Failed(Protocol))
  {
    hide Wire, ParseHead, ValidClose, Opcode, Fin, Reserved, HasMask;
    WireHead(f, t);
  }

  /** A control frame is answered by itself, and what follows as if it were not there, except after a close. */
  lemma ControlAnswered(f: Frame, t: seq<byte>, inMessage: bool, received: nat)
    requires f.fin && 8 <= f.opcode <= 10 && |f.payload| <= MAXIMUM_CONTROL_BYTES
    ensures Replies(Wire(f) + t, inMessage, received)
            == Answer(f.opcode, f.payload)
               + (if f.opcode == 8 && f.payload != [] then [] else Replies(t, inMessage, received))
  {
    hide Wire, ParseHead, Answer, Opcode, Fin, Reserved, HasMask;
    WireHead(f, t);
  }

  /** A ping is answered if and only if it has a payload, a close if and only if it has a valid one. */
  lemma AnsweredIff(f: Frame, inMessage: bool, received: nat)
    requires f.fin && 8 <= f.opcode <= 10 && |f.payload| <= MAXIMUM_CONTROL_BYTES
    ensures f.opcode == 9 ==> (Replies(Wire(f), inMessage, received) == [Reply(10, f.payload)] <==> f.payload != [])
    ensures f.opcode == 8 ==>
              (Replies(Wire(f), inMessage, received) == [Reply(8, f.payload)]
               <==> f.payload != [] && ValidClose(f.payload))
    ensures f.opcode == 10 ==> Replies(Wire(f), inMessage, received) == []
  {
    hide Wire, ParseHead, ValidClose;
    ControlAnswered(f, [], inMessage, received);
    assert Wire(f) + [] == Wire(f);
    NoReplies(inMessage, received);
  }

  lemma NoReplies(inMessage: bool, received: nat)
    ensures Replies([], inMessage, received) == []
  {}

  lemma DataDelivered(f: Frame, t: seq<byte>, inMessage: bool, received: nat)
    requires f.opcode == (if inMessage then 0 else 2) && received + |f.payload| <= MAXIMUM_MESSAGE_BYTES
    ensures Decode(Wire(f) + t, inMessage, received)
            == Prepend(Octets(f.payload) + (if f.fin then [EndOfMessage] else []),
                       Decode(t, !f.fin, if f.fin then 0 else received + |f.payload|))
  {
    hide Wire, ParseHead, ValidClose, Opcode, Fin, Reserved, HasMask;
    WireHead(f, t);
  }

  /** Legal frames are delivered whole, fragments joined and control frames invisible. */
  lemma {:induction false} DecodeLegal(fs: seq<Frame>, inMessage: bool, received: nat)
    requires Legal(fs, inMessage, received)
    ensures Decode(WireAll(fs, inMessage, received), inMessage, received) == Outcome(Content(fs), Waiting)
  {
    hide Wire, Decode;
    if fs == [] {
      NoHead(inMessage, received);
    } else {
      var f := fs[0];
      if f.opcode >= 9 {
        DecodeLegal(fs[1..], inMessage, received);
        ControlTransparent(f, WireAll(fs[1..], inMessage, received), inMessage, received);
      } else {
        var received' := if f.fin then 0 else received + |f.payload|;
        DecodeLegal(fs[1..], !f.fin, received');
        DataDelivered(f, WireAll(fs[1..], !f.fin, received'), inMessage, received);
      }
    }
  }

  lemma NoHead(inMessage: bool, received: nat)
    ensures Decode([], inMessage, received) == Outcome([], Waiting)
  {}
}
