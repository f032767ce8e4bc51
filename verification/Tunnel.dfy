/** The two halves of the handshake on one stream, down to its bytes. */
module Tunnel {
  import opened Bytes
  import opened Results
  import opened Frames

  datatype OpenFrame = OpenFrame(requestID: string, network: string, target: string, deadlineMS: int)
  datatype AckFrame = AckFrame(ok: bool, error: string)

  /** JSON encoding and decoding of the two control frames; decoding may fail. */
  datatype Codec = Codec(
    encodeOpen: OpenFrame -> bytes, decodeOpen: bytes -> Option<OpenFrame>,
    encodeAck: AckFrame -> bytes, decodeAck: bytes -> Option<AckFrame>)

  /** These two frames survive their own encoding and are small enough to send. */
  ghost predicate Faithful(c: Codec, o: OpenFrame, a: AckFrame) {
    && c.decodeOpen(c.encodeOpen(o)) == Some(o) && |c.encodeOpen(o)| <= MAX_FRAME_LEN
    && c.decodeAck(c.encodeAck(a)) == Some(a) && |c.encodeAck(a)| <= MAX_FRAME_LEN
  }

  datatype DialError = WriteOpen(e: FrameError) | ReadAck(e: FrameError) | BadAck | DialRefused(reason: string)

  /** What the agent is asked to dial, and how long the dial may take. */
  datatype DialCall = DialCall(network: string, target: string, timeoutMS: int)

  /** The remaining time of the caller's context; an expired deadline is sent as zero. */
  function DeadlineMS(remaining: Option<int>): int {
    match remaining
    case None => 0
    case Some(ms) => if ms < 0 then 0 else ms
  }

  /** What an OPEN frame asks the agent to dial. */
  function DialCallFor(open: OpenFrame, defaultMS: int): DialCall {
    DialCall(if open.network == "" then "tcp" else open.network, open.target,
             if open.deadlineMS > 0 then open.deadlineMS else defaultMS)
  }

  /** Reading the ACK off a stream: what it says, and the bytes behind it. */
  function ReadVerdict(c: Codec, data: bytes): Result<bytes, DialError> {
    match ParseFrame(data)
    case Bad(e, _) => Err(ReadAck(e))
    case Frame(p, rest) =>
      match c.decodeAck(p)
      case None => Err(BadAck)
      case Some(ack) => if ack.ok then Ok(rest) else Err(DialRefused(ack.error))
  }

  /** The gateway half. A connection is handed out exactly when the OPEN frame went out whole and the
      first frame that came back is a positive ACK; the reader then stands at the first raw byte. */
  method DialTarget(c: Codec, w: Writer, r: Reader, requestID: string, network: string, addr: string,
                    remaining: Option<int>)
    returns (res: Result<(), DialError>)
    modifies w, r
    ensures var open := c.encodeOpen(OpenFrame(requestID, network, addr, DeadlineMS(remaining)));
      var sent := |open| <= MAX_FRAME_LEN && |EncodeFrame(open)| <= old(w.room);
      && (res.Ok? <==> sent && ReadVerdict(c, old(r.data)).Ok?)
      && w.out == old(w.out) + OnWire(open, old(w.room))
      && (res.Ok? ==> r.data == ReadVerdict(c, old(r.data)).value)
      && (res.Err? && sent ==> res.error == ReadVerdict(c, old(r.data)).error)
      && (!sent ==> res.Err? && res.error.WriteOpen? && r.data == old(r.data))
      && (sent ==> match ParseFrame(old(r.data))
            case Bad(e, _) => res == Err(ReadAck(e))
            case Frame(p, rest) =>
              && (c.decodeAck(p).None? ==> res == Err(BadAck))
              && (c.decodeAck(p).Some? && !c.decodeAck(p).value.ok ==>
                    res == Err(DialRefused(c.decodeAck(p).value.error)))
              && (c.decodeAck(p).Some? && c.decodeAck(p).value.ok ==> res.Ok? && r.data == rest))
  {
    var deadlineMS := 0;
    if remaining.Some? {
      deadlineMS := remaining.value;
      if deadlineMS < 0 {
        deadlineMS := 0;
      }
    }
    var wrote := w.WriteFrame(c.encodeOpen(OpenFrame(requestID, network, addr, deadlineMS)));
    if wrote.Err? {
      return Err(WriteOpen(wrote.error));
    }
    var frame := r.ReadFrame();
    if frame.Err? {
      return Err(ReadAck(frame.error));
    }
    var ack := c.decodeAck(frame.value);
    if ack.None? {
      return Err(BadAck);
    }
    if !ack.value.ok {
      return Err(DialRefused(ack.value.error));
    }
    return Ok(());
  }

  /** The agent half up to the splice. It dials what the OPEN frame asks for and nothing else, writes
      at most one ACK, and splices only after a dial that succeeded and an ACK that went out whole. */
  method HandleStream(c: Codec, r: Reader, w: Writer, dial: DialCall -> Result<(), string>, defaultMS: int)
    returns (dialed: Option<DialCall>, spliced: bool)
    modifies r, w
    ensures match ParseFrame(old(r.data))
      case Bad(_, rest) => dialed == None && !spliced && w.out == old(w.out) && r.data == rest
      case Frame(p, rest) =>
        && r.data == rest
        && (c.decodeOpen(p).None? ==> dialed == None && !spliced && w.out == old(w.out))
        && (c.decodeOpen(p).Some? ==>
              var open := c.decodeOpen(p).value;
              && dialed.Some? && dialed.value.target == open.target
              && (open.network == "" ==> dialed.value.network == "tcp")
              && (open.network != "" ==> dialed.value.network == open.network)
              && (open.deadlineMS > 0 ==> dialed.value.timeoutMS == open.deadlineMS)
              && (open.deadlineMS <= 0 ==> dialed.value.timeoutMS == defaultMS)
              && var back := dial(dialed.value);
              var ack := c.encodeAck(if back.Ok? then AckFrame(true, "") else AckFrame(false, back.error));
              && w.out == old(w.out) + OnWire(ack, old(w.room))
              && (spliced <==> back.Ok? && |ack| <= MAX_FRAME_LEN && |EncodeFrame(ack)| <= old(w.room)))
  {
    dialed, spliced := None, false;
    var frame := r.ReadFrame();
    if frame.Err? {
      return;
    }
    var open := c.decodeOpen(frame.value);
    if open.None? {
      return;
    }
    var network := open.value.network;
    if network == "" {
      network := "tcp";
    }
    var timeout := defaultMS;
    if open.value.deadlineMS > 0 {
      timeout := open.value.deadlineMS;
    }
    var call := DialCall(network, open.value.target, timeout);
    dialed := Some(call);
    var target := dial(call);
    if target.Err? {
      var _ := w.WriteFrame(c.encodeAck(AckFrame(false, target.error)));
      return;
    }
    var wrote := w.WriteFrame(c.encodeAck(AckFrame(true, "")));
    spliced := wrote.Ok?;
  }

  function AckOf(dialed: Result<(), string>): AckFrame {
    match dialed
    case Ok(_) => AckFrame(true, "")
    case Err(e) => AckFrame(false, e)
  }

  /** The whole handshake over the bytes: the agent that reads what the gateway wrote dials exactly
      the requested address, for no longer than the caller has left; the gateway that reads what the agent
      wrote gets a connection exactly when that dial succeeded, and the raw bytes that follow on either
      side are untouched. */
  lemma HandshakeEndToEnd(c: Codec, requestID: string, network: string, addr: string, remaining: Option<int>,
                          dial: DialCall -> Result<(), string>, defaultMS: int, rawToAgent: bytes,
                          rawToGateway: bytes)
    requires var open := OpenFrame(requestID, network, addr, DeadlineMS(remaining));
      Faithful(c, open, AckOf(dial(DialCallFor(open, defaultMS))))
    ensures var open := OpenFrame(requestID, network, addr, DeadlineMS(remaining));
      var toAgent := EncodeFrame(c.encodeOpen(open)) + rawToAgent;
      var call := DialCallFor(open, defaultMS);
      var toGateway := EncodeFrame(c.encodeAck(AckOf(dial(call)))) + rawToGateway;
      && ParseFrame(toAgent).Frame? && c.decodeOpen(ParseFrame(toAgent).payload) == Some(open)
      && ParseFrame(toAgent).rest == rawToAgent
      && call.target == addr && call.network == (if network == "" then "tcp" else network)
      && (remaining.Some? && remaining.value > 0 ==> call.timeoutMS == remaining.value)
      && (remaining.None? || remaining.value <= 0 ==> call.timeoutMS == defaultMS)
      && (ReadVerdict(c, toGateway) == Ok(rawToGateway) <==> dial(call).Ok?)
      && (dial(call).Err? ==> ReadVerdict(c, toGateway) == Err(DialRefused(dial(call).error)))
  {
    var open := OpenFrame(requestID, network, addr, DeadlineMS(remaining));
    FrameRoundTrip(c.encodeOpen(open), rawToAgent);
    var ack := AckOf(dial(DialCallFor(open, defaultMS)));
    FrameRoundTrip(c.encodeAck(ack), rawToGateway);
  }

  /** The agent's dial is bounded by the caller's remaining time exactly when there is some left: an
      expired deadline travels as zero, which the agent takes for no deadline at all. */
  lemma ExpiredDeadlineGetsDefault(requestID: string, network: string, addr: string, remaining: Option<int>,
                                   defaultMS: int)
    requires remaining.Some? && defaultMS > 0
    ensures var call := DialCallFor(OpenFrame(requestID, network, addr, DeadlineMS(remaining)), defaultMS);
      call.timeoutMS == remaining.value <==> remaining.value > 0
  {
  }
}
