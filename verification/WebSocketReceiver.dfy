/** The incremental receive side of the WebSocket client. */
module WebSocketReceiver {
  import opened Bytes
  import opened Options
  import opened Utf8
  import opened Utf8Validators
  import opened WebSocketFrames

  /**
   The borrowed connection. `stream` is all the peer ever sends; which part of it
   has arrived at a given moment, whether the writer is busy and how much it takes
   are left open, unless the connection is declared prompt or free.
   */
  class Connection {
    const stream: seq<byte>
    const prompt: bool  // all of the stream is there from the start
    const free: bool    // stays up, and the writer takes whatever it is given
    var cursor: nat
    ghost var sent: seq<byte>  // every octet the writer took

    constructor (stream: seq<byte>, prompt: bool, free: bool)
      ensures this.stream == stream && this.prompt == prompt && this.free == free && cursor == 0 && sent == []
    {
      this.stream, this.prompt, this.free, cursor := stream, prompt, free, 0;
      sent := [];
    }

    /** Nothing is left to wait for. */
    predicate Drained()
      reads this`cursor
    {
      cursor == |stream|
    }

    method TakeByte() returns (ok: bool, value: byte)
      requires cursor <= |stream|
      modifies this`cursor
      ensures cursor <= |stream|
      ensures ok ==> old(cursor) < |stream| && cursor == old(cursor) + 1 && value == stream[old(cursor)]
      ensures !ok ==> cursor == old(cursor) && (prompt ==> Drained())
    {
      var arrived: bool := *;
      ok := (arrived || prompt) && cursor < |stream|;
      value := 0;
      if ok {
        value := stream[cursor];
        cursor := cursor + 1;
      }
    }

    method Connected() returns (r: bool)
      ensures free ==> r
    {
      r := *;
      r := r || free;
    }

    method WriteBusy() returns (r: bool)
      ensures free ==> !r
    {
      r := *;
      r := r && !free;
    }

    method Write(data: seq<byte>) returns (written: nat)
      modifies this`sent
      ensures free ==> written == |data|
      ensures sent == old(sent) + (if written <= |data| then data[..written] else [])
    {
      var taken: int := *;
      written := if free || taken < 0 then |data| else taken;
      if written <= |data| {
        sent := sent + data[..written];
      }
    }

    method RandomByte() returns (r: byte) {
      r := *;
    }
  }

  datatype State = Shut | Open | Closing

  /** The masked control frame sent in reply (sections 5.2 and 5.3). */
  function ControlFrame(opcode: nat, payload: seq<byte>, mask: seq<byte>): seq<byte>
    requires opcode < 16 && |payload| <= MAXIMUM_CONTROL_BYTES && |mask| == 4
  {
    [128 + opcode, 128 + |payload|] + mask + Masked(payload, mask)
  }

  /** A server reads in it just the opcode and the payload it was made from, under whatever mask. */
  lemma ControlFrameRead(opcode: nat, payload: seq<byte>, mask: seq<byte>)
    requires opcode < 16 && |payload| <= MAXIMUM_CONTROL_BYTES && |mask| == 4
    ensures ServerReads(ControlFrame(opcode, payload, mask), opcode, payload)
  {
    hide Xor, Masked;
    var frame := ControlFrame(opcode, payload, mask);
    assert frame[2..6] == mask && frame[6..] == Masked(payload, mask);
    UnmaskMasked(payload, mask);
  }

  class Receiver {
    const connection: Connection
    var state: State
    var error: Error
    var header: seq<byte>
    var frameActive: bool
    var frameControl: bool
    var frameFin: bool
    var frameOpcode: nat
    var frameLength: nat
    var frameRemaining: nat
    var control: seq<byte>
    var messageInProgress: bool
    var messageComplete: bool
    var messageLength: nat
    var pendingControl: seq<byte>

    ghost var delivered: seq<Out>   // everything handed to the application
    ghost var answered: seq<Reply>  // every control frame sent off in answer to one received
    // The last frame boundary: its place in the stream, what had been delivered, the open message.
    ghost var boundary: nat
    ghost var before: seq<Out>
    ghost var inMessage: bool
    ghost var received: nat

    /** The whole stream decodes to what was delivered before the boundary, then the rest. */
    ghost predicate Tracks()
      reads this, connection`cursor
    {
      && boundary <= connection.cursor <= |connection.stream|
      && received <= MAXIMUM_MESSAGE_BYTES
      && Decode(connection.stream, false, 0)
         == Prepend(before, Decode(connection.stream[boundary..], inMessage, received))
    }

    /** The whole stream is answered by what was answered before the boundary, then the rest. */
    ghost predicate Answers()
      reads this`boundary, this`answered, this`inMessage, this`received
    {
      && boundary <= |connection.stream|
      && Replies(connection.stream, false, 0) == answered + Replies(connection.stream[boundary..], inMessage, received)
    }

    /** A server reads the answers, and nothing else, in what was sent and what is still to be sent. */
    ghost predicate OnWire()
      reads this`pendingControl, this`answered, connection`sent
    {
      AllRead(connection.sent + pendingControl, answered)
    }

    /** What was sent is a beginning of the answers, and of at most one more that could not be finished. */
    ghost predicate Begun()
      reads this`answered, connection`sent
    {
      exists rest: seq<byte>, more: seq<Reply> ::
        |more| <= 1 && AllRead(connection.sent + rest, answered + more)
    }

    lemma OnWireBegun()
      requires OnWire()
      ensures Begun()
    {
      assert answered + [] == answered;
      assert AllRead(connection.sent + pendingControl, answered + []);
    }

    /** Between frames, with part of a header. */
    ghost predicate InHeader()
      reads this, connection`cursor
    {
      && boundary <= connection.cursor <= |connection.stream|
      && header == connection.stream[boundary..connection.cursor]
      && delivered == before
      && (if messageComplete then !inMessage && received == 0 && !messageInProgress
          else inMessage == messageInProgress && received == messageLength)
    }

    /** Within a frame whose header was accepted. */
    ghost predicate InFrame(h: Head)
      reads this, connection`cursor
    {
      && boundary <= connection.cursor <= |connection.stream|
      && ParseHead(connection.stream[boundary..]) == Some(h)
      && Refusal(h, inMessage, received) == None
      && !messageComplete && header == []
      && frameControl == IsControl(h) && frameFin == Fin(h) && frameOpcode == Opcode(h)
      && frameLength == h.length && frameRemaining <= frameLength
      && connection.cursor == boundary + h.size + (frameLength - frameRemaining)
      && (var part := connection.stream[boundary + h.size..connection.cursor];
          if frameControl then
            && control == part && delivered == before
            && inMessage == messageInProgress && received == messageLength
          else
            && delivered == before + Octets(part)
            && messageInProgress && messageLength == received + |part|)
    }

    ghost function CurrentHead(): Head
      reads this, connection`cursor
      requires boundary <= |connection.stream| && ParseHead(connection.stream[boundary..]).Some?
    {
      ParseHead(connection.stream[boundary..]).value
    }

    /** At rest between two reads: something of the header or of the frame is missing. */
    ghost predicate Valid()
      reads this, connection`cursor, connection`sent
    {
      && Tracks() && Answers() && OnWire()
      && (messageComplete ==> pendingControl == [])
      && if frameActive then
           ParseHead(connection.stream[boundary..]).Some? && InFrame(CurrentHead()) && frameRemaining > 0
         else InHeader() && ParseHead(header) == None
    }

    constructor (connection: Connection)
      requires connection.cursor == 0 && connection.sent == []
      ensures Valid() && state == Open && delivered == [] && answered == [] && !messageComplete
      ensures this.connection == connection
    {
      this.connection := connection;
      state, error := Open, NoError;
      header, control, pendingControl := [], [], [];
      frameActive, frameControl, frameFin := false, false, false;
      frameOpcode, frameLength, frameRemaining := 0, 0, 0;
      messageInProgress, messageComplete, messageLength := false, false, 0;
      delivered, answered, boundary, before, inMessage, received := [], [], 0, [], false, 0;
      new;
      assert connection.stream[0..] == connection.stream;
      PrependNothing(Decode(connection.stream, false, 0));
    }

    static lemma PrependNothing(o: Outcome)
      ensures Prepend([], o) == o
    {}

    /** What was delivered is the beginning of what the whole stream holds, and so are the answers. */
    lemma DeliveredIsPrefix()
      requires Valid()
      ensures delivered <= Decode(connection.stream, false, 0).out
      ensures answered <= Replies(connection.stream, false, 0)
    {
      hide ParseHead, Refusal, ValidClose, Replies;
      var s := connection.stream[boundary..];
      if frameActive && !frameControl {
        var h := CurrentHead();
        var rest := s[h.size..];
        var part := connection.stream[boundary + h.size..connection.cursor];
        assert part == rest[..|part|];
        OctetsPrefix(rest, |part|);
        if |rest| >= h.length {
          OctetsPrefix(rest[..h.length], |part|);
          assert rest[..h.length][..|part|] == part;
        }
      }
    }

    static lemma OctetsPrefix(s: seq<byte>, n: nat)
      requires n <= |s|
      ensures Octets(s[..n]) == Octets(s)[..n]
    {}

    /** Once the whole stream is consumed, everything it holds has been delivered and answered. */
    lemma DeliveredIsAll()
      requires Valid() && connection.cursor == |connection.stream|
      ensures Decode(connection.stream, false, 0) == Outcome(delivered, Waiting)
      ensures answered == Replies(connection.stream, false, 0)
    {
      hide Refusal, ValidClose;
      var s := connection.stream[boundary..];
      assert connection.stream[boundary..connection.cursor] == s;
      if frameActive {
        var h := CurrentHead();
        assert connection.stream[boundary + h.size..connection.cursor] == s[h.size..];
      }
    }

    method Fail(e: Error)
      modifies this`error, this`state
      ensures error == e && state == Shut
    {
      error, state := e, Shut;
    }

    /** Reads header octets until the header is whole or nothing more has arrived. */
    method ReadHeader() returns (whole: bool)
      requires Tracks() && InHeader() && !messageComplete
      requires ParseHead(header) == None
      modifies this`header, connection`cursor
      ensures Tracks() && InHeader()
      ensures whole ==> ParseHead(header).Some? && ParseHead(header).value.size == |header|
      ensures old(connection.cursor) <= connection.cursor && (whole ==> old(connection.cursor) < connection.cursor)
      ensures !whole ==> ParseHead(header) == None && (connection.prompt ==> connection.Drained())
    {
      hide Decode, Replies, AllRead;
      whole := FillHeader(2);
      if !whole {
        return;
      }
      whole := FillHeader(HeadSize(header[1]));
      assert whole ==> header != old(header);
    }

    /** One octet of the header, if it has arrived. */
    method TakeHeader() returns (ok: bool)
      requires Tracks() && InHeader()
      modifies this`header, connection`cursor
      ensures Tracks() && InHeader()
      ensures ok ==> |header| == |old(header)| + 1 && old(header) <= header
      ensures !ok ==> header == old(header) && (connection.prompt ==> connection.Drained())
    {
      hide Decode, Replies, AllRead;
      var taken, value := connection.TakeByte();
      ok := taken;
      if ok {
        header := header + [value];
      }
    }

    method FillHeader(needed: nat) returns (whole: bool)
      requires Tracks() && InHeader()
      requires |header| <= needed || (needed == 2 && |header| < HeadSize(header[1]))
      requires needed > 2 ==> |header| >= 2 && needed == HeadSize(header[1])
      modifies this`header, connection`cursor
      ensures Tracks() && InHeader()
      ensures old(header) <= header
      ensures whole ==> |header| == (if |old(header)| > needed then |old(header)| else needed)
      ensures !whole ==> |header| < needed && (connection.prompt ==> connection.Drained())
    {
      hide Decode, Replies, AllRead;
      while |header| < needed
        invariant Tracks() && InHeader() && old(header) <= header
        invariant |header| <= needed || header == old(header)
        decreases needed - |header|
      {
        var ok := TakeHeader();
        if !ok {
          return false;
        }
      }
      whole := true;
    }

    /** The payload length field, accumulated octet by octet in 64 bits. */
    method PayloadLength() returns (length: nat)
      requires ParseHead(header).Some? && ParseHead(header).value.size == |header|
      ensures length == ParseHead(header).value.length
    {
      var indicator: nat := header[1] % 128;
      length := indicator;
      if indicator >= 126 {
        length := 0;
        for i := 0 to |header| - 2
          invariant length == FromBigEndian(header[2..][..i])
          modifies {}
        {
          Fits64(header[2..][..i]);
          // The source checks here that a shift loses no bit; seven octets cannot.
          assert length <= (TWO_64 - 1) / 256;
          var octet: nat := header[2 + i];
          length := length * 256 + octet;
          assert header[2..][..i + 1][..i] == header[2..][..i];
        }
        assert header[2..][..|header| - 2] == header[2..|header|];
      }
    }

    static lemma Fits64(s: seq<byte>)
      requires |s| < 8
      ensures FromBigEndian(s) < TWO_64 / 256
    {
      FromBigEndianBound(s);
      Pow256Grows(|s|);
    }

    static lemma Pow256Grows(n: nat)
      requires n < 8
      ensures Pow256(n) <= TWO_64 / 256
    {
      assert Pow256(3) == 256 * Pow256(2);
      assert Pow256(5) == 256 * Pow256(4);
      assert Pow256(7) == 256 * Pow256(6);
    }

    /** The checks of `startFrame`, in its order. */
    method CheckFrame(length: nat) returns (refusal: Option<Error>)
      requires |header| >= 2 && messageLength <= MAXIMUM_MESSAGE_BYTES && !messageComplete
      ensures refusal == Refusal(Head(header[0], header[1], length, |header|), messageInProgress, messageLength)
    {
      var opcode: nat := header[0] % 16;
      if header[0] / 16 % 8 != 0 || header[1] >= 128 {
        return Some(Protocol);
      }
      var isControl := opcode >= 8;
      if isControl && (opcode > 10 || header[0] < 128 || length > MAXIMUM_CONTROL_BYTES) {
        return Some(Protocol);
      }
      if !isControl && length > MAXIMUM_MESSAGE_BYTES - messageLength {
        return Some(MessageTooLarge);
      }
      if opcode == 2 {
        if messageInProgress || messageComplete {
          return Some(Protocol);
        }
      } else if opcode == 0 {
        if !messageInProgress {
          return Some(Protocol);
        }
      } else if !isControl {
        return Some(Protocol);
      }
      refusal := None;
    }

    /** Accepts or refuses the frame whose header is whole. */
    method StartFrame() returns (ok: bool)
      requires Tracks() && Answers() && OnWire() && InHeader() && !messageComplete
      requires ParseHead(header).Some? && ParseHead(header).value.size == |header|
      modifies this`error, this`state, this`messageInProgress, this`frameOpcode, this`frameControl, this`frameFin,
               this`frameLength, this`frameRemaining, this`control, this`frameActive, this`header
      ensures Tracks()
      ensures ok ==> state == old(state) && frameActive && ParseHead(connection.stream[boundary..]).Some?
                     && InFrame(CurrentHead()) && frameRemaining == frameLength
      ensures !ok ==> state == Shut && error != Transport && Verdict() && OnWire()
    {
      hide Decode, Replies, Refusal, AllRead;
      HeadOfStream(connection.stream[boundary..], header);
      RefusedHere();
      var length := PayloadLength();
      var refusal := CheckFrame(length);
      RefusalKinds(Head(header[0], header[1], length, |header|), messageInProgress, messageLength);
      HeadFields(header);
      if refusal.Some? {
        Fail(refusal.value);
        return false;
      }
      var h := Head(header[0], header[1], length, |header|);
      if Opcode(h) == 2 {
        messageInProgress := true;
      }
      AcceptedData(h, inMessage, received);
      OpenFrame(h);
      ok := true;
    }

    static lemma RefusalKinds(h: Head, inMessage: bool, received: nat)
      ensures Refusal(h, inMessage, received) in {None, Some(Protocol), Some(MessageTooLarge)}
    {}

    static lemma NoOctets()
      ensures Octets([]) == []
    {}

    static lemma HeadFields(s: seq<byte>)
      requires ParseHead(s).Some?
      ensures ParseHead(s).value == Head(s[0], s[1], ParseHead(s).value.length, ParseHead(s).value.size)
    {}

    static lemma AcceptedData(h: Head, inMessage: bool, received: nat)
      requires Refusal(h, inMessage, received) == None
      ensures !IsControl(h) ==> Opcode(h) == 2 || inMessage
      ensures Opcode(h) == 2 ==> !IsControl(h)
    {}

    method OpenFrame(h: Head)
      requires boundary + h.size == connection.cursor <= |connection.stream|
      requires ParseHead(connection.stream[boundary..]) == Some(h) && Refusal(h, inMessage, received) == None
      requires !messageComplete && delivered == before && messageLength == received
      requires if IsControl(h) then inMessage == messageInProgress else messageInProgress
      modifies this`frameOpcode, this`frameControl, this`frameFin,
               this`frameLength, this`frameRemaining, this`control, this`frameActive, this`header
      ensures frameActive && InFrame(h) && frameRemaining == frameLength
    {
      hide Refusal, ParseHead, Opcode, Fin, IsControl, Replies, AllRead, InFrame;
      frameOpcode, frameControl, frameFin := Opcode(h), IsControl(h), Fin(h);
      frameLength, frameRemaining, control := h.length, h.length, [];
      frameActive := true;
      header := [];
      AtPayload(h);
    }

    /** No payload has arrived yet. */
    lemma AtPayload(h: Head)
      requires boundary + h.size == connection.cursor <= |connection.stream|
      requires ParseHead(connection.stream[boundary..]) == Some(h) && Refusal(h, inMessage, received) == None
      requires !messageComplete && header == [] && delivered == before && messageLength == received
      requires if frameControl then inMessage == messageInProgress else messageInProgress
      requires frameControl == IsControl(h) && frameFin == Fin(h) && frameOpcode == Opcode(h)
      requires frameLength == frameRemaining == h.length && control == []
      ensures InFrame(h)
    {
      hide Refusal, ParseHead, Opcode, Fin, IsControl, Octets;
      var part := connection.stream[boundary + h.size..connection.cursor];
      assert part == [];
      NoOctets();
      assert before + [] == before;
    }

    /** A header is parsed the same from the stream as from the octets collected. */
    static lemma HeadOfStream(s: seq<byte>, header: seq<byte>)
      requires header <= s && ParseHead(header).Some? && ParseHead(header).value.size == |header|
      ensures ParseHead(s) == ParseHead(header)
    {
      if |header| > 2 {
        assert s[2..|header|] == header[2..|header|];
      }
    }

    lemma RefusedHere()
      requires Tracks() && Answers() && delivered == before && ParseHead(connection.stream[boundary..]).Some?
      ensures var r := Refusal(CurrentHead(), inMessage, received);
              r.Some? ==>
                && Decode(connection.stream, false, 0) == Outcome(delivered, Failed(r.value))
                && Replies(connection.stream, false, 0) == answered
    {
      hide ParseHead, Refusal, ValidClose;
    }

    /** A finished data frame, or a control frame without payload: the boundary moves past it. */
    method FinishFrame()
      requires Tracks() && Answers() && ParseHead(connection.stream[boundary..]).Some? && InFrame(CurrentHead())
      requires frameRemaining == 0 && (frameControl ==> frameLength == 0)
      modifies this`frameActive, this`messageInProgress, this`messageComplete, this`delivered,
               this`boundary, this`before, this`inMessage, this`received
      ensures !frameActive && Tracks() && Answers() && InHeader() && header == []
      ensures delivered == old(delivered) + (if messageComplete then [EndOfMessage] else [])
      ensures messageComplete <==> !frameControl && frameFin
    {
      hide ParseHead, Refusal, Decode, Replies, AllRead;
      ghost var h := CurrentHead();
      PastFrame(h);
      PastAnswer(h);
      if frameControl {
        PassControl(h);
      } else {
        CompleteData(h);
      }
    }

    /** The boundary moves past a control frame. */
    method PassControl(ghost h: Head)
      requires Tracks() && InFrame(h) && frameControl && frameRemaining == 0
      requires connection.cursor == boundary + h.size + h.length
      requires Decode(connection.stream, false, 0)
               == Prepend(before, Decode(connection.stream[connection.cursor..], inMessage, received))
      modifies this`frameActive, this`boundary
      ensures !frameActive && Tracks() && InHeader() && boundary == connection.cursor
    {
      hide ParseHead, Refusal, Decode, Replies, AllRead;
      frameActive := false;
      boundary := connection.cursor;
      assert connection.stream[boundary..connection.cursor] == [];
    }

    /** The boundary moves past a data frame; the last one of a message completes it. */
    method CompleteData(ghost h: Head)
      requires Tracks() && InFrame(h) && !frameControl && frameRemaining == 0
      requires connection.cursor == boundary + h.size + h.length && received + h.length <= MAXIMUM_MESSAGE_BYTES
      requires messageLength == received + h.length
      requires Decode(connection.stream, false, 0)
               == Prepend(delivered + (if Fin(h) then [EndOfMessage] else []),
                          Decode(connection.stream[connection.cursor..], !Fin(h),
                                 if Fin(h) then 0 else received + h.length))
      requires Replies(connection.stream, false, 0)
               == answered + Replies(connection.stream[connection.cursor..], !Fin(h),
                                     if Fin(h) then 0 else received + h.length)
      modifies this`frameActive, this`messageInProgress, this`messageComplete, this`delivered,
               this`boundary, this`before, this`inMessage, this`received
      ensures !frameActive && Tracks() && Answers() && InHeader()
      ensures delivered == old(delivered) + (if messageComplete then [EndOfMessage] else [])
      ensures messageComplete == frameFin
    {
      hide ParseHead, Refusal, Decode, Replies, AllRead;
      frameActive := false;
      inMessage, received := !Fin(h), if Fin(h) then 0 else received + h.length;
      if frameFin {
        messageInProgress := false;
        messageComplete := true;
        delivered := delivered + [EndOfMessage];
      }
      before := delivered;
      boundary := connection.cursor;
      assert connection.stream[boundary..connection.cursor] == [];
    }

    /** One step of `Decode`: an accepted frame all of whose payload is there. */
    static lemma DecodeFrame(s: seq<byte>, h: Head, inMessage: bool, received: nat)
      requires ParseHead(s) == Some(h) && Refusal(h, inMessage, received) == None
      requires h.length <= |s| - h.size && (h.length == 0 || Opcode(h) != 8)
      ensures var rest := s[h.size..];
              Decode(s, inMessage, received)
              == if IsControl(h) then Decode(rest[h.length..], inMessage, received)
                 else Prepend(Delivery(h, rest[..h.length]),
                              Decode(rest[h.length..], !Fin(h), if Fin(h) then 0 else received + h.length))
    {
      hide ParseHead, Refusal, ValidClose, IsControl, Opcode, Delivery;
    }

    lemma PastFrame(h: Head)
      requires Tracks() && InFrame(h) && frameRemaining == 0
      requires h.length == 0 || Opcode(h) != 8
      ensures var next := boundary + h.size + h.length;
              && next == connection.cursor
              && (if IsControl(h) then
                    Decode(connection.stream, false, 0)
                    == Prepend(before, Decode(connection.stream[next..], inMessage, received))
                  else
                    Decode(connection.stream, false, 0)
                    == Prepend(delivered + (if Fin(h) then [EndOfMessage] else []),
                               Decode(connection.stream[next..], !Fin(h), if Fin(h) then 0 else received + h.length)))
      ensures connection.stream[connection.cursor..connection.cursor] == []
      ensures !IsControl(h) ==> messageLength == received + h.length && received + h.length <= MAXIMUM_MESSAGE_BYTES
    {
      hide ParseHead, Refusal, Decode, ValidClose, Octets, IsControl, Fin, Opcode, Replies, AllRead;
      var s := connection.stream[boundary..];
      var next := boundary + h.size + h.length;
      DecodeFrame(s, h, inMessage, received);
      assert s[h.size..][h.length..] == connection.stream[next..];
      if !IsControl(h) {
        Accepted(h, inMessage, received);
        var payload := connection.stream[boundary + h.size..next];
        assert s[h.size..][..h.length] == payload;
        PrependTwice(before, Delivery(h, payload),
                     Decode(connection.stream[next..], !Fin(h), if Fin(h) then 0 else received + h.length));
        assert before + Delivery(h, payload) == delivered + (if Fin(h) then [EndOfMessage] else []);
      }
    }

    static lemma RepliesFrame(s: seq<byte>, h: Head, inMessage: bool, received: nat)
      requires ParseHead(s) == Some(h) && Refusal(h, inMessage, received) == None
      requires h.length <= |s| - h.size && (h.length == 0 || Opcode(h) != 8)
      ensures var rest := s[h.size..];
              Replies(s, inMessage, received)
              == if IsControl(h) then Answer(Opcode(h), rest[..h.length]) + Replies(rest[h.length..], inMessage, received)
                 else Replies(rest[h.length..], !Fin(h), if Fin(h) then 0 else received + h.length)
    {
      hide ParseHead, Refusal, Answer, IsControl, Opcode;
    }

    /** The same of the answers. */
    lemma PastAnswer(h: Head)
      requires Tracks() && Answers() && InFrame(h) && frameRemaining == 0
      requires h.length == 0 || Opcode(h) != 8
      ensures Replies(connection.stream, false, 0)
              == if frameControl then
                   answered + Answer(Opcode(h), control)
                   + Replies(connection.stream[connection.cursor..], inMessage, received)
                 else
                   answered + Replies(connection.stream[connection.cursor..], !Fin(h),
                                      if Fin(h) then 0 else received + h.length)
      ensures frameControl && h.length == 0 ==> Answer(Opcode(h), control) == []
    {
      hide ParseHead, Refusal, Decode, Replies, ValidClose, Octets, IsControl, Fin, Opcode, AllRead;
      var s := connection.stream[boundary..];
      var next := boundary + h.size + h.length;
      RepliesFrame(s, h, inMessage, received);
      assert s[h.size..][h.length..] == connection.stream[next..];
      assert s[h.size..][..h.length] == connection.stream[boundary + h.size..next];
    }

    static lemma PrependTwice(a: seq<Out>, b: seq<Out>, o: Outcome)
      ensures Prepend(a, Prepend(b, o)) == Prepend(a + b, o)
    {}

    /**
     Drains a pending reply: a busy writer is left alone, a write that takes nothing or
     more than it was given fails. No octet is lost or sent twice.
     */
    method ServiceControl() returns (ok: bool, ghost busy: bool, ghost taken: nat)
      modifies this`pendingControl, connection`sent
      ensures ok <==> old(pendingControl) == [] || busy || 0 < taken <= |old(pendingControl)|
      ensures old(pendingControl) == [] ==> taken == 0
      ensures pendingControl == if ok && !busy then old(pendingControl)[taken..] else old(pendingControl)
      ensures connection.sent + pendingControl == old(connection.sent + pendingControl)
      ensures |pendingControl| <= |old(pendingControl)|
      ensures ok || pendingControl == old(pendingControl)
      ensures connection.free ==> ok && pendingControl == []
      ensures ok ==> exists n :: 0 <= n <= |old(pendingControl)| && pendingControl == old(pendingControl)[n..]
      ensures old(Valid()) ==> Valid()
    {
      hide Decode, ParseHead, Refusal, Replies, AllRead;
      assert pendingControl == pendingControl[0..];
      busy, taken := false, 0;
      if pendingControl == [] {
        ok := true;
        return;
      }
      var writerBusy := connection.WriteBusy();
      busy := writerBusy;
      if writerBusy {
        ok := true;
        return;
      }
      var written := connection.Write(pendingControl);
      taken := written;
      if written == 0 || written > |pendingControl| {
        ok := false;
        return;
      }
      assert pendingControl == pendingControl[..written] + pendingControl[written..];
      pendingControl := pendingControl[written..];
      ok := true;
    }

    /** What is still to be sent is the rest of a frame in which a server reads the answer. */
    ghost predicate Replying(opcode: nat, payload: seq<byte>)
      reads this`pendingControl
    {
      exists frame: seq<byte>, n :: 0 <= n <= |frame| && ServerReads(frame, opcode, payload) && pendingControl == frame[n..]
    }

    /** One such frame has been put behind `before`. */
    ghost predicate Queued(before: seq<byte>, opcode: nat, payload: seq<byte>)
      reads this`pendingControl, connection`sent
    {
      exists frame: seq<byte> :: ServerReads(frame, opcode, payload) && connection.sent + pendingControl == before + frame
    }

    /** Queues a masked control frame and starts sending it. */
    method SendFrame(opcode: nat, payload: seq<byte>) returns (ok: bool)
      requires |payload| <= MAXIMUM_CONTROL_BYTES
      modifies this`pendingControl, connection`sent
      ensures ok ==> old(pendingControl) == [] && 8 <= opcode <= 10 && Replying(opcode, payload)
      ensures ok ==> Queued(old(connection.sent + pendingControl), opcode, payload)
      ensures !ok ==>
                || connection.sent + pendingControl == old(connection.sent + pendingControl)
                || Queued(old(connection.sent + pendingControl), opcode, payload)
      ensures connection.free && state == Open && old(pendingControl) == [] && 8 <= opcode <= 10 ==>
                ok && pendingControl == []
    {
      hide Xor, ServerReads;
      if state != Open || opcode < 8 || opcode > 10 || |payload| > MAXIMUM_CONTROL_BYTES || pendingControl != [] {
        return false;
      }
      var m0 := connection.RandomByte();
      var m1 := connection.RandomByte();
      var m2 := connection.RandomByte();
      var m3 := connection.RandomByte();
      var mask := [m0, m1, m2, m3];
      assert connection.sent + [] == connection.sent;
      pendingControl := ControlFrame(opcode, payload, mask);
      ghost var whole := pendingControl;
      ControlFrameRead(opcode, payload, mask);
      ghost var busy, taken;
      ok, busy, taken := ServiceControl();
      if ok {
        ghost var n :| 0 <= n <= |whole| && pendingControl == whole[n..];
      }
    }

    /** The answer that was queued is one more that a server reads. */
    lemma Answered(before: seq<byte>, opcode: nat, payload: seq<byte>)
      requires AllRead(before, answered) && Queued(before, opcode, payload)
      ensures AllRead(connection.sent + pendingControl, answered + [Reply(opcode, payload)])
    {
      hide ServerReads, AllRead;
      var frame: seq<byte> :| ServerReads(frame, opcode, payload) && connection.sent + pendingControl == before + frame;
      OneMoreRead(before, answered, frame, opcode, payload);
    }

    /** Collects the payload of a control frame. */
    method ReceiveControl() returns (whole: bool)
      requires Tracks() && ParseHead(connection.stream[boundary..]).Some? && InFrame(CurrentHead()) && frameControl
      modifies this`control, this`frameRemaining, connection`cursor
      ensures Tracks() && InFrame(CurrentHead())
      ensures connection.cursor >= old(connection.cursor)
      ensures whole <==> frameRemaining == 0
      ensures !whole && connection.prompt ==> connection.Drained()
    {
      hide Decode, ParseHead, Refusal, Replies, AllRead;
      while |control| < frameLength
        invariant Tracks() && InFrame(CurrentHead()) && connection.cursor >= old(connection.cursor)
        decreases frameRemaining
      {
        var ok, value := connection.TakeByte();
        if !ok {
          return false;
        }
        control := control + [value];
        frameRemaining := frameRemaining - 1;
      }
      whole := true;
    }

    method ValidClosePayload() returns (valid: bool)
      ensures valid <==> ValidClose(control)
    {
      hide IsText;
      if |control| == 0 {
        return true;
      }
      if |control| < 2 {
        return false;
      }
      var high: nat, low: nat := control[0], control[1];
      var code := high * 256 + low;
      assert control[..2] == [control[0], control[1]];
      TwoOctets(control[0], control[1]);
      var validCode := (1000 <= code <= 1003) || (1007 <= code <= 1011) || (3000 <= code <= 4999);
      if !validCode {
        return false;
      }
      valid := ValidCloseText(control[2..]);
    }

    /** Acts on a whole control frame: a reply to a ping, the end on a close. */
    method FinishControl() returns (ok: bool)
      requires Tracks() && Answers() && ParseHead(connection.stream[boundary..]).Some? && InFrame(CurrentHead())
      requires frameControl && frameRemaining == 0 && frameLength > 0 && state == Open && OnWire()
      modifies this`frameActive, this`boundary, this`pendingControl, this`error, this`state, this`answered, connection`sent
      ensures (ok || state != Open ==> OnWire()) && Begun()
      ensures delivered == old(delivered) && (ok ==> state == Open)
      ensures ok ==> !frameActive && Tracks() && Answers() && InHeader() && header == []
      ensures !ok ==> Verdict()
      ensures !ok && state == Shut ==> error == Protocol
      ensures !ok && state == Closing ==> error == PeerClosed
      ensures !ok && state == Open ==> error == old(error)
      ensures connection.free && old(pendingControl) == [] ==> (ok || state != Open) && pendingControl == []
      ensures old(pendingControl) == [] && ok && frameOpcode == 9 ==> Replying(10, control)
      ensures ok && frameOpcode == 10 ==> pendingControl == old(pendingControl)
      ensures state == Closing ==> Replying(8, control)
    {
      hide Decode, Replies, ParseHead, Refusal, ValidClose, Answer, AllRead, ServerReads;
      ghost var before := connection.sent + pendingControl;
      ghost var h := CurrentHead();
      assert |control| == frameLength <= MAXIMUM_CONTROL_BYTES by {
        ControlBound(h);
      }
      if frameOpcode == 8 {
        ok := FinishClose(h);
        return;
      }
      PastFrame(h);
      PastAnswer(h);
      PassControl(h);
      ok := true;
      if frameOpcode == 9 {
        ok := SendFrame(10, control);
      }
      AnswerOf(h);
      if frameOpcode == 9 {
        PongSent(before, ok);
      }
      if ok {
        answered := answered + Answer(Opcode(h), control);
      }
      if OnWire() {
        OnWireBegun();
      }
    }

    /** The pong was queued, or nothing was. */
    lemma PongSent(before: seq<byte>, ok: bool)
      requires AllRead(before, answered)
      requires Queued(before, 10, control) || (!ok && connection.sent + pendingControl == before)
      ensures ok ==> AllRead(connection.sent + pendingControl, answered + [Reply(10, control)])
      ensures Begun()
    {
      hide ServerReads, AllRead;
      if Queued(before, 10, control) {
        Answered(before, 10, control);
      } else {
        OnWireBegun();
      }
    }

    lemma AnswerOf(h: Head)
      requires |control| > 0 && Opcode(h) != 8
      ensures Answer(Opcode(h), control) == if Opcode(h) == 9 then [Reply(10, control)] else []
      ensures answered + [] == answered
    {}

    /** A close with a payload ends the connection, answered only if it is valid. */
    method FinishClose(ghost h: Head) returns (ok: bool)
      requires Tracks() && Answers() && OnWire() && InFrame(h) && state == Open && frameOpcode == 8
      requires frameControl && frameRemaining == 0 && |control| == frameLength <= MAXIMUM_CONTROL_BYTES && frameLength > 0
      modifies this`frameActive, this`pendingControl, this`error, this`state, this`answered, connection`sent
      ensures (state != Open ==> OnWire()) && Begun()
      ensures !ok && delivered == old(delivered) && Verdict()
      ensures state == Shut ==> error == Protocol
      ensures state == Closing ==> error == PeerClosed && Replying(8, control)
      ensures state == Open ==> error == old(error)
      ensures connection.free && old(pendingControl) == [] ==> state != Open && pendingControl == []
    {
      hide Decode, Replies, ParseHead, Refusal, ValidClose, AllRead, ServerReads;
      ghost var before := connection.sent + pendingControl;
      ok := false;
      OnWireBegun();
      CloseHere(h);
      frameActive := false;
      var valid := ValidClosePayload();
      if !valid {
        Fail(Protocol);
        return;
      }
      var sent := SendFrame(8, control);
      CloseSent(before, sent);
      if sent {
        answered := answered + [Reply(8, control)];
        state, error := Closing, PeerClosed;
        OnWireBegun();
      }
    }

    lemma CloseSent(before: seq<byte>, sent: bool)
      requires AllRead(before, answered)
      requires Queued(before, 8, control) || (!sent && connection.sent + pendingControl == before)
      ensures sent ==> AllRead(connection.sent + pendingControl, answered + [Reply(8, control)])
      ensures Begun()
    {
      hide ServerReads, AllRead;
      if Queued(before, 8, control) {
        Answered(before, 8, control);
      } else {
        OnWireBegun();
      }
    }

    lemma ControlBound(h: Head)
      requires InFrame(h) && frameControl && frameRemaining == 0
      ensures |control| == frameLength <= MAXIMUM_CONTROL_BYTES
    {
      hide ParseHead;
    }

    lemma CloseHere(h: Head)
      requires Tracks() && Answers() && InFrame(h) && frameControl && frameRemaining == 0 && h.length > 0 && Opcode(h) == 8
      ensures Decode(connection.stream, false, 0)
              == Outcome(delivered, if ValidClose(control) then Closed else Failed(Protocol))
      ensures Replies(connection.stream, false, 0)
              == answered + (if ValidClose(control) then [Reply(8, control)] else [])
    {
      hide ParseHead, ValidClose;
      var s := connection.stream[boundary..];
      assert s[h.size..][..h.length] == connection.stream[boundary + h.size..connection.cursor];
    }

    /** One payload octet of the current data frame, if it has arrived. */
    method TakePayload() returns (ok: bool, value: byte)
      requires Tracks() && ParseHead(connection.stream[boundary..]).Some? && InFrame(CurrentHead()) && !frameControl
      requires frameRemaining > 0
      modifies this`delivered, this`frameRemaining, this`messageLength, connection`cursor
      ensures Tracks() && InFrame(CurrentHead())
      ensures ok ==> delivered == old(delivered) + [Octet(value)] && frameRemaining == old(frameRemaining) - 1
      ensures !ok ==> delivered == old(delivered) && frameRemaining == old(frameRemaining)
      ensures !ok && connection.prompt ==> connection.Drained()
    {
      hide Decode, ParseHead, Refusal, Replies, AllRead;
      ghost var start := boundary + CurrentHead().size;
      ok, value := connection.TakeByte();
      if ok {
        frameRemaining := frameRemaining - 1;
        messageLength := messageLength + 1;
        delivered := delivered + [Octet(value)];
        OneMoreOctet(connection.stream, start, connection.cursor);
      }
    }

    static lemma OneMoreOctet(stream: seq<byte>, start: nat, end: nat)
      requires start < end <= |stream|
      ensures stream[start..end] == stream[start..end - 1] + [stream[end - 1]]
      ensures Octets(stream[start..end]) == Octets(stream[start..end - 1]) + [Octet(stream[end - 1])]
    {}

    /** Copies payload of the current data frame into the caller's buffer. */
    method ReceiveData(destination: array<byte>) returns (written: nat)
      requires Tracks() && ParseHead(connection.stream[boundary..]).Some? && InFrame(CurrentHead()) && !frameControl
      modifies this`delivered, this`frameRemaining, this`messageLength, connection`cursor, destination
      ensures Tracks() && InFrame(CurrentHead()) && written <= destination.Length
      ensures delivered == old(delivered) + Octets(destination[..written])
      ensures frameRemaining == old(frameRemaining) - written
      ensures connection.prompt ==> frameRemaining == 0 || written == destination.Length || connection.Drained()
    {
      hide Decode, ParseHead, Refusal, Replies, AllRead;
      written := 0;
      assert old(delivered) + Octets(destination[..0]) == delivered;
      while frameRemaining > 0 && written < destination.Length
        invariant written <= destination.Length && frameRemaining == old(frameRemaining) - written
        invariant Tracks() && InFrame(CurrentHead())
        invariant delivered == old(delivered) + Octets(destination[..written])
        decreases frameRemaining
      {
        var ok, value := TakePayload();
        if !ok {
          return;
        }
        destination[written] := value;
        assert Octets(destination[..written + 1]) == Octets(destination[..written]) + [Octet(value)];
        written := written + 1;
      }
    }

    /** What a failed read says of the stream, unless the connection itself gave way. */
    ghost predicate Verdict()
      reads this, connection`cursor, connection`sent
    {
      && answered <= Replies(connection.stream, false, 0) && Begun() && (state == Closing ==> OnWire())
      && (state == Shut && error != Transport ==>
            && Decode(connection.stream, false, 0) == Outcome(delivered, Failed(error))
            && Replies(connection.stream, false, 0) == answered)
      && (state == Closing ==>
            && Decode(connection.stream, false, 0) == Outcome(delivered, Closed)
            && Replies(connection.stream, false, 0) == answered)
    }

    /** Over for a reason found in the stream. */
    predicate Settled()
      reads this
    {
      state != Open && error != Transport
    }

    /**
     Reads what has arrived, never more than the buffer holds. The octets written
     and the message end reported continue what the whole stream decodes to. A read
     that has nothing to report, and no reply to get rid of, has used up what arrived.
     */
    method Read(destination: array<byte>) returns (n: int)
      requires state == Open ==> Valid()
      modifies this, connection, destination
      ensures -1 <= n <= destination.Length
      ensures n >= 0 ==>
                && state == Open && Valid()
                && delivered == old(delivered) + Octets(destination[..n]) + (if messageComplete then [EndOfMessage] else [])
      ensures n == -1 ==> delivered == old(delivered)
      ensures n == -1 && old(state) == Open ==> Verdict() && (connection.free ==> Settled())
      ensures n == 0 && destination.Length > 0 && connection.prompt ==>
                messageComplete || pendingControl != [] || connection.Drained()
      ensures connection.free && old(state) == Open ==> OnWire() && pendingControl == []
      ensures n >= 0 && destination.Length > 0 && connection.prompt && connection.free ==>
                connection.cursor > old(connection.cursor) || connection.Drained()
    {
      hide Decode, ParseHead, Refusal, InHeader, InFrame, Tracks, CurrentHead, Replies, AllRead;
      if state != Open {
        return -1;
      }
      DeliveredIsPrefix();
      var ready := Prepare();
      if !ready {
        OnWireBegun();
        return -1;
      }
      Nothing(destination);
      if pendingControl != [] {
        return 0;
      }
      n := Pump(destination);
    }

    static lemma Nothing(destination: array<byte>)
      ensures Octets(destination[..0]) == []
    {}

    /** Sends what is pending, checks the connection, and forgets a message already reported. */
    method Prepare() returns (ready: bool)
      requires Valid() && state == Open
      modifies connection`sent, this`pendingControl, this`error, this`state, this`messageComplete, this`messageInProgress,
               this`messageLength
      ensures delivered == old(delivered)
      ensures ready ==> state == Open && Valid() && !messageComplete
      ensures OnWire()
      ensures answered == old(answered)
      ensures !ready ==> state == Shut && error == Transport
      ensures connection.free ==> ready && pendingControl == []
    {
      hide Decode, ParseHead, Refusal, InHeader, InFrame, Tracks, Replies, AllRead;
      var serviced, busy, taken := ServiceControl();
      if !serviced {
        Fail(Transport);
        return false;
      }
      if pendingControl != [] {
        assert |old(pendingControl)| > 0;
        return true;
      }
      var connected := connection.Connected();
      if !connected {
        Fail(Transport);
        return false;
      }
      if messageComplete {
        Rearm();
      }
      ready := true;
    }

    /** Forgets a message already reported. */
    method Rearm()
      requires Valid() && messageComplete
      modifies this`messageComplete, this`messageInProgress, this`messageLength
      ensures Valid() && !messageComplete
    {
      hide Decode, ParseHead, Refusal, Replies, AllRead;
      messageComplete := false;
      messageInProgress := false;
      messageLength := 0;
    }

    /** Takes up the next frame if none is in progress; a frame without payload is over at once. */
    method Enter() returns (step: Step)
      requires Valid() && state == Open && !messageComplete && pendingControl == []
      modifies this, connection
      ensures pendingControl == []
      ensures step == Proceed ==> state == Open && Valid() && frameActive && delivered == old(delivered)
      ensures step == Proceed ==> !messageComplete && connection.cursor >= old(connection.cursor)
      ensures step == Again ==>
                && state == Open && Valid() && !messageComplete && delivered == old(delivered)
                && connection.cursor > old(connection.cursor)
      ensures step == Stop ==>
                && state == Open && Valid()
                && delivered == old(delivered) + (if messageComplete then [EndOfMessage] else [])
                && connection.cursor >= old(connection.cursor)
                && (messageComplete ==> connection.cursor > old(connection.cursor))
                && (connection.prompt ==> messageComplete || connection.Drained())
      ensures step == Fault ==> delivered == old(delivered) && Verdict() && Settled() && OnWire()
    {
      hide Decode, Refusal, ParseHead, Replies, AllRead;
      if frameActive {
        return Proceed;
      }
      var whole := ReadHeader();
      if !whole {
        return Stop;
      }
      var ok := StartFrame();
      if !ok {
        return Fault;
      }
      if frameRemaining > 0 {
        return Proceed;
      }
      FinishFrame();
      NothingParsed();
      step := if messageComplete then Stop else Again;
    }

    static lemma NothingParsed()
      ensures ParseHead([]) == None
    {}

    /** Takes in a control frame and answers it. */
    method Control() returns (step: Step)
      requires Valid() && state == Open && frameActive && frameControl && pendingControl == []
      modifies this, connection
      ensures step != Proceed
      ensures delivered == old(delivered)
      ensures step == Again ==>
                && state == Open && Valid() && !messageComplete && pendingControl == []
                && connection.cursor > old(connection.cursor)
      ensures step == Stop ==> state == Open && Valid() && !messageComplete
      ensures step == Stop && connection.prompt ==> pendingControl != [] || connection.Drained()
      ensures step == Stop ==> connection.cursor >= old(connection.cursor)
      ensures connection.free ==> OnWire() && pendingControl == []
      ensures step == Fault ==> Verdict() && (connection.free ==> Settled())
    {
      hide Decode, Refusal, ParseHead, Replies, AllRead;
      var whole := ReceiveControl();
      if !whole {
        return Stop;
      }
      var ok := FinishControl();
      if !ok {
        return Fault;
      }
      NothingParsed();
      step := if pendingControl != [] then Stop else Again;
    }

    /** Delivers payload of the data frame in progress, and its end once it is whole. */
    method Data(destination: array<byte>) returns (written: nat)
      requires Valid() && state == Open && frameActive && !frameControl && pendingControl == []
      requires destination.Length > 0
      modifies this, connection, destination
      ensures written <= destination.Length && state == Open && Valid()
      ensures delivered == old(delivered) + Octets(destination[..written])
                           + (if messageComplete then [EndOfMessage] else [])
      ensures connection.prompt ==> written > 0 || connection.Drained()
      ensures connection.cursor == old(connection.cursor) + written && pendingControl == []
      ensures messageComplete ==> written > 0
    {
      hide Decode, Refusal, ParseHead, Replies, AllRead;
      written := ReceiveData(destination);
      if frameRemaining > 0 {
        return;
      }
      FinishFrame();
      NothingParsed();
    }

    lemma InBounds()
      requires Valid()
      ensures connection.cursor <= |connection.stream|
    {}

    /** The loop of `read`: frame after frame until there is something to report. */
    method Pump(destination: array<byte>) returns (n: int)
      requires Valid() && state == Open && !messageComplete && pendingControl == []
      modifies this, connection, destination
      ensures -1 <= n <= destination.Length
      ensures n >= 0 ==>
                && state == Open && Valid()
                && delivered == old(delivered) + Octets(destination[..n]) + (if messageComplete then [EndOfMessage] else [])
      ensures n == -1 ==> delivered == old(delivered) && Verdict() && (connection.free ==> Settled())
      ensures n == 0 && destination.Length > 0 && connection.prompt ==>
                messageComplete || pendingControl != [] || connection.Drained()
      ensures connection.free ==> OnWire() && pendingControl == []
      ensures n >= 0 && (n > 0 || messageComplete) ==> connection.cursor > old(connection.cursor)
    {
      hide Decode, ParseHead, Refusal, InHeader, InFrame, Tracks, CurrentHead, Replies, AllRead;
      InBounds();
      while true
        invariant connection.cursor <= |connection.stream|
        invariant Valid() && state == Open && !messageComplete && pendingControl == []
        invariant delivered == old(delivered) && connection.cursor >= old(connection.cursor)
        decreases |connection.stream| - connection.cursor
      {
        Nothing(destination);
        var step := Enter();
        Nothing(destination);
        if step == Stop {
          return 0;
        } else if step == Fault {
          return -1;
        } else if step == Again {
          InBounds();
          continue;
        }
        if frameControl {
          step := Control();
          Nothing(destination);
          if step == Stop {
            return 0;
          } else if step == Fault {
            return -1;
          }
          InBounds();
        } else if destination.Length == 0 {
          return 0;
        } else {
          n := Data(destination);
          return;
        }
      }
    }
  }

  datatype Step = Proceed | Again | Stop | Fault

  /**
   A whole connection: reads with the given capacities, until one fails. Whatever
   has arrived at each read, the output is a beginning of what the whole stream
   decodes to, and all of it once the stream is used up, refused or closed; the same
   holds of the answers to control frames, which a server reads, one after the other, in
   what the writer took. With all of the stream there, a connection
   that holds and a reader that never comes with an empty buffer, as many reads as the
   stream has octets always get that far.
   */
  method Session(connection: Connection, capacities: seq<nat>) returns (out: seq<Out>, receiver: Receiver, failed: bool)
    requires connection.cursor == 0 && connection.sent == []
    modifies connection
    ensures receiver.connection == connection
    ensures out <= Decode(connection.stream, false, 0).out
    ensures !failed && connection.cursor == |connection.stream| ==>
              Decode(connection.stream, false, 0) == Outcome(out, Waiting)
    ensures failed && receiver.state == Shut && receiver.error != Transport ==>
              Decode(connection.stream, false, 0) == Outcome(out, Failed(receiver.error))
    ensures failed && receiver.state == Closing ==> Decode(connection.stream, false, 0) == Outcome(out, Closed)
    ensures receiver.answered <= Replies(connection.stream, false, 0) && receiver.Begun()
    ensures !failed ==> AllRead(connection.sent + receiver.pendingControl, receiver.answered)
    ensures connection.free ==> AllRead(connection.sent, receiver.answered)
    ensures connection.prompt && connection.free && |connection.stream| <= |capacities|
            && (forall i :: 0 <= i < |capacities| ==> capacities[i] > 0) ==>
              && out == Decode(connection.stream, false, 0).out
              && receiver.answered == Replies(connection.stream, false, 0)
              && failed == !Decode(connection.stream, false, 0).ending.Waiting?
  {
    hide Decode, Replies, ParseHead, Refusal, AllRead, ServerReads;
    receiver := new Receiver(connection);
    out, failed := [], false;
    NoneRead();
    receiver.DeliveredIsPrefix();
    for i := 0 to |capacities|
      invariant fresh(receiver) && receiver.connection == connection
      invariant receiver.state == Open && receiver.Valid() && out == receiver.delivered
      invariant connection.free ==> AllRead(connection.sent, receiver.answered)
      invariant out <= Decode(connection.stream, false, 0).out && receiver.answered <= Replies(connection.stream, false, 0)
      invariant connection.cursor <= |connection.stream|
      invariant connection.prompt && connection.free && (forall j :: 0 <= j < |capacities| ==> capacities[j] > 0) ==>
                  connection.cursor >= i || connection.Drained()
    {
      var destination := new byte[capacities[i]](_ => 0);
      var n := receiver.Read(destination);
      assert connection.sent + [] == connection.sent;
      if n < 0 {
        failed := true;
        return;
      }
      out := out + Octets(destination[..n]) + (if receiver.messageComplete then [EndOfMessage] else []);
      receiver.DeliveredIsPrefix();
    }
    receiver.OnWireBegun();
    if connection.cursor == |connection.stream| {
      receiver.DeliveredIsAll();
    }
  }

  lemma NoneRead()
    ensures AllRead([], [])
  {}
}
