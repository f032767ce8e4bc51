/** Length-prefixed control frames over a byte stream that delivers its bytes in arbitrary chunks. */
module Frames {
  import opened Bytes
  import opened Results
  import Seqs

  const MAX_FRAME_LEN: nat := 64 * 1024

  datatype FrameError = TooLarge(length: nat) | EndOfStream | UnexpectedEnd | WriteFailed

  function EncodeFrame(payload: bytes): bytes {
    BigEndian(|payload| % TWO_TO_32, 4) + payload
  }

  datatype Parsed = Frame(payload: bytes, rest: bytes) | Bad(error: FrameError, rest: bytes)

  /** Reading n bytes: all or nothing, except that a short stream is used up. */
  function ShortRead(data: bytes): FrameError {
    if data == [] then EndOfStream else UnexpectedEnd
  }

  /** What the first frame of a stream is, and what of the stream is left after reading it. */
  function ParseFrame(data: bytes): Parsed {
    if |data| < 4 then Bad(ShortRead(data), [])
    else
      var n := FromBigEndian(data[..4]);
      if n > MAX_FRAME_LEN then Bad(TooLarge(n), data[4..])
      else if |data| - 4 < n then Bad(ShortRead(data[4..]), [])
      else Frame(data[4..4 + n], data[4 + n..])
  }

  function Quad(a: int, b: int, c: int, d: int): int {
    a * 0x100_0000 + b * 0x1_0000 + c * 0x100 + d
  }

  lemma FourBytes(bs: bytes)
    requires |bs| == 4
    ensures FromBigEndian(bs) == Quad(bs[0], bs[1], bs[2], bs[3])
  {
    assert bs[..3][..2] == bs[..2] && bs[..2][..1] == bs[..1] && bs[..1][..0] == [];
    var a: int, b: int, c: int := bs[0], bs[1], bs[2];
    assert FromBigEndian(bs[..1]) == a && FromBigEndian(bs[..2]) == a * 256 + b;
    assert FromBigEndian(bs[..3]) == (a * 256 + b) * 256 + c;
  }

  /** What a reader makes of any bytes: four bytes of length, the most significant first, and so many bytes
      behind them; a length over 65536 is refused with the bytes behind it unread, and a stream that ends
      too early is used up, with the plain end reported only where a part has not begun. */
  lemma ParseFrameExactly(data: bytes)
    ensures ParseFrame(data) ==
      if |data| < 4 then Bad(if data == [] then EndOfStream else UnexpectedEnd, [])
      else
        var n := Quad(data[0], data[1], data[2], data[3]);
        if n > 0x1_0000 then Bad(TooLarge(n), data[4..])
        else if |data| < 4 + n then Bad(if |data| == 4 then EndOfStream else UnexpectedEnd, [])
        else Frame(data[4..4 + n], data[4 + n..])
  {
    if |data| >= 4 {
      FourBytes(data[..4]);
      hide FromBigEndian;
    }
  }

  // ---- Round trip ---------------------------------------------------------------------------

  lemma HeaderReads(payload: bytes, rest: bytes)
    requires |payload| <= MAX_FRAME_LEN
    ensures var s := EncodeFrame(payload) + rest;
      |s| >= 4 && FromBigEndian(s[..4]) == |payload| && s[4..] == payload + rest
  {
    hide BigEndian;
    hide Capacity;
    Capacities();
    BigEndianRoundTrip(|payload|, 4);
    hide FromBigEndian;
    var s := EncodeFrame(payload) + rest;
    assert s[..4] == BigEndian(|payload|, 4);
  }

  /** Reading what was written gives the payload and leaves every later byte untouched. */
  lemma FrameRoundTrip(payload: bytes, rest: bytes)
    requires |payload| <= MAX_FRAME_LEN
    ensures ParseFrame(EncodeFrame(payload) + rest) == Frame(payload, rest)
  {
    HeaderReads(payload, rest);
    var s := EncodeFrame(payload) + rest;
    assert s[4..4 + |payload|] == payload && s[4 + |payload|..] == rest;
  }

  /** That is so exactly up to 65536 bytes: a longer payload never reads back. */
  lemma FrameRoundTripExactly(payload: bytes, rest: bytes)
    ensures ParseFrame(EncodeFrame(payload) + rest) == Frame(payload, rest) <==> |payload| <= 0x1_0000
  {
    if |payload| <= 0x1_0000 {
      FrameRoundTrip(payload, rest);
    } else {
      LongestFrame(EncodeFrame(payload) + rest);
    }
  }

  lemma LongestFrame(data: bytes)
    ensures ParseFrame(data).Frame? ==> |ParseFrame(data).payload| <= 0x1_0000
  {
  }

  /** On the wire: four bytes of length, the most significant first, and the payload behind them. */
  lemma FrameBytes(payload: bytes)
    requires |payload| <= MAX_FRAME_LEN
    ensures var n := |payload|;
      EncodeFrame(payload) == [0, n / 0x1_0000 % 0x100, n / 0x100 % 0x100, n % 0x100] + payload
  {
    FourBigEndian(|payload|);
    hide BigEndian;
  }

  /** A stream cut anywhere inside a frame never yields a frame. */
  lemma TruncatedIsBad(payload: bytes, cut: nat)
    requires |payload| <= MAX_FRAME_LEN && cut < |EncodeFrame(payload)|
    ensures ParseFrame(EncodeFrame(payload)[..cut]).Bad?
  {
    if cut >= 4 {
      HeaderReads(payload, []);
      assert EncodeFrame(payload) + [] == EncodeFrame(payload);
      assert EncodeFrame(payload)[..cut][..4] == EncodeFrame(payload)[..4];
    }
  }

  function EncodeAll(payloads: seq<bytes>): bytes {
    if payloads == [] then [] else EncodeFrame(payloads[0]) + EncodeAll(payloads[1..])
  }

  /** Reading frames one after the other: the payloads and what is left of the stream. */
  function ParseMany(data: bytes, count: nat): (seq<bytes>, bytes) {
    if count == 0 then ([], data)
    else match ParseFrame(data)
      case Bad(_, _) => ([], data)
      case Frame(p, rest) => var (ps, left) := ParseMany(rest, count - 1); ([p] + ps, left)
  }

  /** Any sequence of payloads comes back, in order, and the raw bytes behind it are untouched. */
  lemma {:induction false} ManyRoundTrip(payloads: seq<bytes>, raw: bytes)
    requires forall i | 0 <= i < |payloads| :: |payloads[i]| <= MAX_FRAME_LEN
    ensures ParseMany(EncodeAll(payloads) + raw, |payloads|) == (payloads, raw)
  {
    if payloads == [] {
      assert EncodeAll(payloads) + raw == raw;
    } else {
      var later := EncodeAll(payloads[1..]) + raw;
      hide EncodeFrame;
      hide ParseFrame;
      Seqs.Assoc(EncodeFrame(payloads[0]), EncodeAll(payloads[1..]), raw);
      FrameRoundTrip(payloads[0], later);
      ManyRoundTrip(payloads[1..], raw);
      Seqs.HeadTail(payloads);
    }
  }

  lemma ParseNext(payload: bytes, rest: bytes, count: nat)
    requires |payload| <= MAX_FRAME_LEN
    ensures ParseMany(EncodeFrame(payload) + rest, count + 1).0 == [payload] + ParseMany(rest, count).0
  {
    FrameRoundTrip(payload, rest);
    hide ParseFrame;
  }

  lemma ParseStops(data: bytes, count: nat)
    requires ParseFrame(data).Bad?
    ensures ParseMany(data, count).0 == []
  {
  }

  lemma EncodeNext(payload: bytes, more: seq<bytes>)
    ensures EncodeAll([payload] + more) == EncodeFrame(payload) + EncodeAll(more)
  {
    Seqs.Cons(payload, more);
  }

  ghost predicate AllFit(payloads: seq<bytes>) {
    forall i | 0 <= i < |payloads| :: |payloads[i]| <= MAX_FRAME_LEN
  }

  /** `got` are the payloads whose frames lie wholly within the first `cut` bytes. */
  ghost predicate WholeFrames(payloads: seq<bytes>, got: seq<bytes>, cut: nat) {
    got < payloads && |EncodeAll(got)| <= cut < |EncodeAll(got)| + |EncodeFrame(payloads[|got|])|
  }

  lemma OneMoreFrame(payload: bytes, rest: seq<bytes>, later: seq<bytes>, cut: nat)
    requires WholeFrames(rest, later, cut)
    ensures WholeFrames([payload] + rest, [payload] + later, |EncodeFrame(payload)| + cut)
  {
    hide EncodeFrame;
    hide EncodeAll;
    EncodeNext(payload, later);
    assert ([payload] + rest)[|later| + 1] == rest[|later|];
  }

  /** However much of a stream arrives, what is read are whole frames from its front, in order and
      unaltered; a stream cut short lacks at least the last one. */
  lemma {:induction false} CutStreamGivesPrefix(payloads: seq<bytes>, cut: nat)
    requires AllFit(payloads) && cut < |EncodeAll(payloads)|
    ensures WholeFrames(payloads, ParseMany(EncodeAll(payloads)[..cut], |payloads|).0, cut)
    decreases |payloads|
  {
    if payloads == [] {
      NoPayloads();
    } else {
      var payload, rest := payloads[0], payloads[1..];
      assert |payload| <= MAX_FRAME_LEN && AllFit(rest);
      hide *;
      Seqs.HeadTail(payloads);
      EncodeNext(payload, rest);
      if cut < |EncodeFrame(payload)| {
        CutInFirst(payload, rest, cut);
      } else {
        CutStreamGivesPrefix(rest, cut - |EncodeFrame(payload)|);
        CutLater(payload, rest, cut);
      }
    }
  }

  lemma CutInFirst(payload: bytes, rest: seq<bytes>, cut: nat)
    requires |payload| <= MAX_FRAME_LEN && cut < |EncodeFrame(payload)|
    ensures WholeFrames([payload] + rest, ParseMany((EncodeFrame(payload) + EncodeAll(rest))[..cut], |rest| + 1).0, cut)
  {
    hide EncodeFrame;
    hide EncodeAll;
    hide ParseFrame;
    hide ParseMany;
    Seqs.TakeOfConcat(EncodeFrame(payload), EncodeAll(rest), cut);
    TruncatedIsBad(payload, cut);
    ParseStops(EncodeFrame(payload)[..cut], |rest| + 1);
    NoPayloads();
  }

  lemma CutLater(payload: bytes, rest: seq<bytes>, cut: nat)
    requires |payload| <= MAX_FRAME_LEN && |EncodeFrame(payload)| <= cut < |EncodeFrame(payload)| + |EncodeAll(rest)|
    requires var left := cut - |EncodeFrame(payload)|;
      WholeFrames(rest, ParseMany(EncodeAll(rest)[..left], |rest|).0, left)
    ensures WholeFrames([payload] + rest, ParseMany((EncodeFrame(payload) + EncodeAll(rest))[..cut], |rest| + 1).0, cut)
  {
    hide EncodeFrame;
    hide EncodeAll;
    hide ParseFrame;
    hide ParseMany;
    hide WholeFrames;
    var first := EncodeFrame(payload);
    var left := EncodeAll(rest)[..cut - |first|];
    Seqs.TakeOfConcat(first, EncodeAll(rest), cut);
    if cut == |first| {
      Seqs.Empty(first);
    }
    ParseNext(payload, left, |rest|);
    OneMoreFrame(payload, rest, ParseMany(left, |rest|).0, cut - |first|);
  }

  lemma NoPayloads()
    ensures EncodeAll([]) == []
  {
  }

  // ---- The stream objects -------------------------------------------------------------------

  /** The reading end: a call of Read delivers between one byte and as many as asked for, as the
      schedule has it, until the data is used up. */
  class Reader {
    var data: bytes
    var served: nat
    const chunk: nat -> nat

    constructor (data: bytes, chunk: nat -> nat)
      ensures this.data == data && this.chunk == chunk
    {
      this.data, this.chunk, served := data, chunk, 0;
    }

    /** Nothing delivered means the stream has ended. */
    method Read(n: nat) returns (got: bytes)
      requires n > 0
      modifies this
      ensures |got| <= n && got + data == old(data)
      ensures got == [] <==> old(data) == []
    {
      var size := chunk(served);
      size := if size == 0 then 1 else size;
      size := if size > n then n else size;
      size := if size > |data| then |data| else size;
      got, data := data[..size], data[size..];
      served := served + 1;
    }

    /** Fills a buffer of n bytes, in as many reads as it takes. */
    method ReadFull(n: nat) returns (r: Result<bytes, FrameError>)
      modifies this
      ensures |old(data)| >= n ==> r == Ok(old(data)[..n]) && data == old(data)[n..]
      ensures |old(data)| < n ==> r == Err(ShortRead(old(data))) && data == []
    {
      var buf: bytes := [];
      while |buf| < n
        invariant |buf| <= n && buf + data == old(data)
        decreases n - |buf|
      {
        var got := Read(n - |buf|);
        if got == [] {
          assert buf == old(data);
          return Err(if buf == [] then EndOfStream else UnexpectedEnd);
        }
        assert buf + (got + data) == (buf + got) + data;
        buf := buf + got;
      }
      assert buf == old(data)[..n] && data == old(data)[n..];
      return Ok(buf);
    }

    /** One frame, whatever the chunks: exactly the first frame of the stream is consumed. */
    method ReadFrame() returns (r: Result<bytes, FrameError>)
      modifies this
      ensures match ParseFrame(old(data))
        case Frame(payload, rest) => r == Ok(payload) && data == rest
        case Bad(error, rest) => r == Err(error) && data == rest
    {
      var hdr := ReadFull(4);
      if hdr.Err? {
        return Err(hdr.error);
      }
      var n := FromBigEndian(hdr.value);
      if n > MAX_FRAME_LEN {
        return Err(TooLarge(n));
      }
      ghost var body := data;
      var buf := ReadFull(n);
      assert n <= |body| ==> body[..n] == old(data)[4..4 + n] && body[n..] == old(data)[4 + n..];
      if buf.Err? {
        return Err(buf.error);
      }
      return Ok(buf.value);
    }

    /** Reads the control frames of a stream that carries raw bytes behind them. */
    method ReadFrames(ghost payloads: seq<bytes>, ghost raw: bytes, count: nat) returns (got: seq<bytes>)
      requires count == |payloads| && forall i | 0 <= i < |payloads| :: |payloads[i]| <= MAX_FRAME_LEN
      requires data == EncodeAll(payloads) + raw
      modifies this
      ensures got == payloads && data == raw
    {
      got := [];
      for i := 0 to count
        invariant got == payloads[..i]
        invariant data == EncodeAll(payloads[i..]) + raw
      {
        ghost var later := EncodeAll(payloads[i + 1..]) + raw;
        assert payloads[i..][1..] == payloads[i + 1..];
        Seqs.Assoc(EncodeFrame(payloads[i]), EncodeAll(payloads[i + 1..]), raw);
        FrameRoundTrip(payloads[i], later);
        var r := ReadFrame();
        got := got + [r.value];
      }
      assert payloads[count..] == [] && EncodeAll([]) + raw == raw;
    }
  }

  /** What of a frame reaches a wire that takes `room` more bytes: a frame over the limit is refused
      unwritten, and any other is cut where the wire fails. */
  function OnWire(payload: bytes, room: nat): bytes {
    if |payload| > MAX_FRAME_LEN then []
    else if |EncodeFrame(payload)| <= room then EncodeFrame(payload)
    else EncodeFrame(payload)[..room]
  }

  /** The writing end: takes bytes until its room is used up, then fails. */
  class Writer {
    var out: bytes
    var room: nat

    constructor (room: nat)
      ensures out == [] && this.room == room
    {
      out, this.room := [], room;
    }

    method Write(p: bytes) returns (ok: bool)
      modifies this
      ensures ok <==> |p| <= old(room)
      ensures ok ==> out == old(out) + p && room == old(room) - |p|
      ensures !ok ==> out == old(out) + p[..old(room)] && room == 0
    {
      ok := |p| <= room;
      if ok {
        out, room := out + p, room - |p|;
      } else {
        out, room := out + p[..room], 0;
      }
    }

    /** A frame is written whole, or the error comes with a proper prefix of it on the wire. */
    method WriteFrame(payload: bytes) returns (r: Result<(), FrameError>)
      modifies this
      ensures out == old(out) + OnWire(payload, old(room)) && room <= old(room)
      ensures r.Ok? ==> out == old(out) + EncodeFrame(payload)
      ensures r.Err? && r.error.TooLarge? ==> out == old(out)
      ensures r == Err(WriteFailed) ==>
        old(room) < |EncodeFrame(payload)| && out == old(out) + EncodeFrame(payload)[..old(room)]
      ensures r == if |payload| > MAX_FRAME_LEN then Err(TooLarge(|payload|))
                   else if |EncodeFrame(payload)| > old(room) then Err(WriteFailed)
                   else Ok(())
    {
      if |payload| > MAX_FRAME_LEN {
        return Err(TooLarge(|payload|));
      }
      var hdr := BigEndian(|payload| % TWO_TO_32, 4);
      var ok := Write(hdr);
      if !ok {
        assert EncodeFrame(payload)[..old(room)] == hdr[..old(room)];
        return Err(WriteFailed);
      }
      ok := Write(payload);
      if !ok {
        assert EncodeFrame(payload)[..old(room)] == hdr + payload[..old(room) - 4];
        return Err(WriteFailed);
      }
      return Ok(());
    }
  }
}
