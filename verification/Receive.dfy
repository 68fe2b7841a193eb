/** The receiving machines of network_handle_data and connect_monitor, over a stream that arrives in pieces. */
module Receive {
  import opened Strings
  import opened Numbers
  import opened Protocol
  import opened CharBytes

  // ---------------------------------------------------------------- Frames in a stream

  /**
    * What a reader makes of the front of a stream. Waiting: no frame is complete yet. Stuck: a frame without a body,
    * after which the machine is in a state without a branch. Crashed: no buffer for the body, because the size of the
    * buffer overflows an int, or because the length is negative and recv is asked for an enormous number of bytes.
    */
  datatype Frame = Waiting | Stuck | Crashed | Received(body: Bytes, rest: Bytes)

  function LengthOf(header: Bytes): int
    requires |header| == HEADER_LENGTH
  {
    BlockLength(ToText(header))
  }

  function NextFrame(stream: Bytes): Frame {
    if |stream| <= HEADER_LENGTH then Waiting
    else
      var n := LengthOf(stream[..HEADER_LENGTH]);
      if n < 0 || n + 2 >= 0x8000_0000 then Crashed
      else if n == 0 then Stuck
      else if |stream| < HEADER_LENGTH + n then Waiting
      else Received(stream[HEADER_LENGTH..HEADER_LENGTH + n], stream[HEADER_LENGTH + n..])
  }

  /** The bodies of the complete frames of a stream, in order, and what stops the reader. */
  function Deliver(stream: Bytes): (seq<Bytes>, Frame)
    decreases |stream|
  {
    match NextFrame(stream)
    case Received(body, rest) =>
      var (bodies, last) := Deliver(rest);
      ([body] + bodies, last)
    case f => ([], f)
  }

  /** A frame on the wire. */
  function Wire(flags: string, body: Bytes): Bytes {
    ToBytes(Header(flags, |body|)) + body
  }

  predicate GoodFlags(flags: string) {
    |flags| == 6 && EightBit(flags)
  }

  predicate GoodBody(body: Bytes) {
    1 <= |body| < 0x7fff_fffe
  }

  lemma HeaderEightBit(flags: string, n: nat)
    requires EightBit(flags)
    ensures EightBit(Header(flags, n))
  {
    var p := Padded(n % 0x1_0000_0000, 17);
    forall c | c in Header(flags, n)
      ensures c as int < 256
    {
      if c in p {
        assert IsDigit(c);
      }
    }
  }

  lemma WireHeader(flags: string, body: Bytes, rest: Bytes)
    requires GoodFlags(flags) && GoodBody(body)
    ensures var w := Wire(flags, body) + rest;
      |w| > HEADER_LENGTH && LengthOf(w[..HEADER_LENGTH]) == |body| && w[HEADER_LENGTH..] == body + rest
  {
    hide BlockLength, Header;
    var h := Header(flags, |body|);
    HeaderRoundTrip(flags, |body|);
    HeaderEightBit(flags, |body|);
    TextOfBytes(h);
    assert (Wire(flags, body) + rest)[..HEADER_LENGTH] == ToBytes(h);
  }

  /** A frame that was sent is received whole, and nothing behind it is touched. */
  lemma NextOfWire(flags: string, body: Bytes, rest: Bytes)
    requires GoodFlags(flags) && GoodBody(body)
    ensures NextFrame(Wire(flags, body) + rest) == Received(body, rest)
  {
    hide Wire, LengthOf;
    WireHeader(flags, body, rest);
    var w := Wire(flags, body) + rest;
    assert w[HEADER_LENGTH..HEADER_LENGTH + |body|] == (body + rest)[..|body|] == body;
    assert w[HEADER_LENGTH + |body|..] == (body + rest)[|body|..] == rest;
  }

  /** Any header and something behind it: the length decides what the reader makes of it. */
  lemma NextOfHeader(flags: string, n: nat, rest: Bytes)
    requires GoodFlags(flags) && n < 0x1_0000_0000 && rest != []
    ensures var f := NextFrame(ToBytes(Header(flags, n)) + rest);
      if n == 0 then f == Stuck
      else if n >= 0x7fff_fffe then f == Crashed
      else if |rest| < n then f == Waiting
      else f == Received(rest[..n], rest[n..])
  {
    hide BlockLength, Header;
    var h := Header(flags, n);
    HeaderRoundTrip(flags, n);
    HeaderEightBit(flags, n);
    TextOfBytes(h);
    var w := ToBytes(h) + rest;
    assert w[..HEADER_LENGTH] == ToBytes(h);
    if 0 < n <= |rest| {
      assert w[HEADER_LENGTH..HEADER_LENGTH + n] == rest[..n] && w[HEADER_LENGTH + n..] == rest[n..];
    }
  }

  /** No part of a frame is delivered before the whole frame is there. */
  lemma NextOfPart(flags: string, body: Bytes, k: nat)
    requires GoodFlags(flags) && GoodBody(body) && k < |Wire(flags, body)|
    ensures NextFrame(Wire(flags, body)[..k]) == Waiting
  {
    hide LengthOf;
    HeaderRoundTrip(flags, |body|);
    WireHeader(flags, body, []);
    var w := Wire(flags, body);
    assert w + [] == w;
    if k > HEADER_LENGTH {
      assert w[..k][..HEADER_LENGTH] == w[..HEADER_LENGTH];
    }
  }

  datatype Sent = Sent(flags: string, body: Bytes)

  function WireAll(frames: seq<Sent>): Bytes {
    if frames == [] then [] else Wire(frames[0].flags, frames[0].body) + WireAll(frames[1..])
  }

  predicate GoodFrame(f: Sent) {
    GoodFlags(f.flags) && GoodBody(f.body)
  }

  function Bodies(frames: seq<Sent>): (r: seq<Bytes>)
    ensures |r| == |frames|
  {
    if frames == [] then [] else [frames[0].body] + Bodies(frames[1..])
  }

  /** Any number of frames, and part of one more, deliver exactly their bodies in order. */
  lemma {:induction false} DeliverOfWire(frames: seq<Sent>, next: Sent, k: nat)
    requires (forall f :: f in frames ==> GoodFrame(f)) && GoodFrame(next) && k < |Wire(next.flags, next.body)|
    ensures Deliver(WireAll(frames) + Wire(next.flags, next.body)[..k]) == (Bodies(frames), Waiting)
    decreases |frames|
  {
    hide Wire, NextFrame;
    var part := Wire(next.flags, next.body)[..k];
    if frames == [] {
      assert [] + part == part;
      NextOfPart(next.flags, next.body, k);
    } else {
      var f, more := frames[0], WireAll(frames[1..]) + part;
      assert f in frames;
      assert WireAll(frames) + part == Wire(f.flags, f.body) + more;
      NextOfWire(f.flags, f.body, more);
      DeliverOfWire(frames[1..], next, k);
    }
  }

  // ---------------------------------------------------------------- The socket

  /**
    * The bytes that the other side has sent and that are still to be read, and the bytes sent to it. When the other
    * side has closed the connection no more will come.
    */
  class Socket {
    const closed: bool
    var incoming: Bytes
    var outgoing: Bytes

    constructor (stream: Bytes, closed: bool)
      ensures incoming == stream && outgoing == [] && this.closed == closed
    {
      this.closed := closed;
      incoming := stream;
      outgoing := [];
    }

    /** What select reports: a recv does not block. */
    predicate Readable()
      reads this
    {
      incoming != [] || closed
    }

    /** send. */
    method Send(data: Bytes)
      modifies this`outgoing
      ensures outgoing == old(outgoing) + data
    {
      outgoing := outgoing + data;
    }

    /** recv: any number of bytes, at least one, of those that have arrived and fit; none when the other side closed. */
    method Recv(length: nat) returns (data: Bytes)
      requires Readable()
      modifies this`incoming
      ensures |data| <= length && old(incoming) == data + incoming
      ensures data == [] <==> length == 0 || old(incoming) == []
    {
      var t: nat :| t <= length && t <= |incoming| && (t == 0 <==> length == 0 || incoming == []);
      data := incoming[..t];
      incoming := incoming[t..];
    }
  }

  /** common_receive_data into buf from offset on; the position moves by what was received, or falls back to zero. */
  method CommonReceiveData(buf: array<bv8>, offset: nat, sock: Socket, length: nat, rlen: nat) returns (rlen': nat)
    requires offset + length < buf.Length && sock.Readable()
    modifies buf, sock`incoming
    ensures length == 0 || old(sock.incoming) == [] ==>
      rlen' == 0 && sock.incoming == old(sock.incoming) && buf[..] == old(buf[..])
    ensures length > 0 && old(sock.incoming) != [] ==>
      var t := rlen' - rlen;
      && 1 <= t <= length && old(sock.incoming) == buf[offset..offset + t] + sock.incoming
      && buf[..offset] == old(buf[..offset])
  {
    var data := sock.Recv(length);
    var t := |data|;
    if t == 0 {
      return 0;
    }
    forall i | 0 <= i < t {
      buf[offset + i] := data[i];
    }
    buf[offset + t] := 0;
    assert buf[offset..offset + t] == data;
    return rlen + t;
  }

  // ---------------------------------------------------------------- The machine for one frame

  datatype State =
    | UNSENT
    | SENT
    | RECEIVING_HEADER
    | RECEIVING_HEADER_ONGOING
    | HEADER_RECEIVED
    | RECEIVING_DATA
    | RECEIVING_DATA_ONGOING

  /** How a wait for one frame ends. STUCK: the loop goes round for ever and reads nothing more. */
  datatype Outcome = DATA_RECEIVED | BLOCKED | STUCK | CRASHED

  function OutcomeOf(f: Frame, closed: bool): Outcome {
    match f
    case Waiting => if closed then STUCK else BLOCKED
    case Stuck => STUCK
    case Crashed => CRASHED
    case Received(_, _) => DATA_RECEIVED
  }

  /** What each state means: which part of the stream has been read into the header and the body. */
  ghost predicate Progress(stream: Bytes, first: State, state: State, head: Bytes, length: int, got: Bytes,
                           incoming: Bytes)
  {
    match state
    case UNSENT => first == UNSENT && head == [] && stream == incoming
    case SENT => first == SENT && head == [] && stream == incoming
    case RECEIVING_HEADER => false
    case RECEIVING_HEADER_ONGOING => |head| < HEADER_LENGTH && stream == head + incoming
    case HEADER_RECEIVED => |head| == HEADER_LENGTH && stream == head + incoming && length == LengthOf(head)
    case RECEIVING_DATA => NextFrame(stream) == Stuck
    case RECEIVING_DATA_ONGOING =>
      |head| == HEADER_LENGTH && length == LengthOf(head) && |got| < length && stream == head + got + incoming
  }

  lemma NothingYet(stream: Bytes, first: State, state: State, head: Bytes, length: int, got: Bytes)
    requires Progress(stream, first, state, head, length, got, [])
    requires state != RECEIVING_DATA && (state == RECEIVING_DATA_ONGOING ==> length + 2 < 0x8000_0000)
    ensures NextFrame(stream) == Waiting
  {
    hide LengthOf;
    if |head| == HEADER_LENGTH && |stream| > HEADER_LENGTH {
      assert stream[..HEADER_LENGTH] == head;
    }
  }

  /** With the header read and more bytes there, its length decides. */
  lemma HeaderDecides(stream: Bytes, head: Bytes, incoming: Bytes)
    requires |head| == HEADER_LENGTH && stream == head + incoming && incoming != []
    ensures var n := LengthOf(head);
      && (n < 0 || n + 2 >= 0x8000_0000 ==> NextFrame(stream) == Crashed)
      && (n == 0 ==> NextFrame(stream) == Stuck)
  {
    hide LengthOf;
    assert stream[..HEADER_LENGTH] == head;
  }

  lemma BodyComplete(stream: Bytes, head: Bytes, got: Bytes, incoming: Bytes)
    requires |head| == HEADER_LENGTH && stream == head + got + incoming
    requires 0 < |got| == LengthOf(head) && |got| + 2 < 0x8000_0000
    ensures NextFrame(stream) == Received(got, incoming)
  {
    hide LengthOf;
    assert stream[..HEADER_LENGTH] == head;
    assert stream[HEADER_LENGTH..HEADER_LENGTH + |got|] == got;
    assert stream[HEADER_LENGTH + |got|..] == incoming;
  }

  /** The first or next piece of the header; the machine's state and the length that a full header announces. */
  method ReceiveHeader(sock: Socket, header: array<bv8>, position: nat,
                       ghost head: Bytes, ghost stream: Bytes, ghost first: State)
    returns (headerPosition: nat, state: State, dataLength: int)
    requires header.Length == 29 && position < HEADER_LENGTH && header[..position] == head
    requires sock.incoming != [] && stream == head + sock.incoming
    modifies header, sock`incoming
    ensures |sock.incoming| < |old(sock.incoming)|
    ensures headerPosition <= HEADER_LENGTH && state in {RECEIVING_HEADER_ONGOING, HEADER_RECEIVED}
    ensures Progress(stream, first, state, header[..headerPosition], dataLength, [], sock.incoming)
  {
    hide LengthOf, NextFrame;
    dataLength := 0;
    headerPosition := CommonReceiveData(header, position, sock, HEADER_LENGTH - position, position);
    assert header[..headerPosition] == head + header[position..headerPosition];
    if headerPosition != HEADER_LENGTH {
      return headerPosition, RECEIVING_HEADER_ONGOING, dataLength;
    }
    state := HEADER_RECEIVED;
    dataLength := LengthOf(header[..HEADER_LENGTH]);
  }

  /** The next piece of the body. */
  method ReceiveMore(sock: Socket, body: array<bv8>, position: nat, dataLength: nat,
                     ghost head: Bytes, ghost got: Bytes, ghost stream: Bytes)
    returns (bodyPosition: nat)
    requires position < dataLength < body.Length && body[..position] == got
    requires sock.incoming != [] && stream == head + got + sock.incoming
    modifies body, sock`incoming
    ensures position < bodyPosition <= dataLength && |sock.incoming| < |old(sock.incoming)|
    ensures stream == head + body[..bodyPosition] + sock.incoming
  {
    ghost var before := sock.incoming;
    bodyPosition := CommonReceiveData(body, position, sock, dataLength - position, position);
    assert body[..bodyPosition] == got + body[position..bodyPosition];
    assert head + got + before == head + body[..bodyPosition] + sock.incoming;
  }

  /** One turn of the loop when recv returns zero: common_receive_data sets the position to zero. */
  function EndTurn(state: State, first: State): State {
    if state == first then RECEIVING_HEADER
    else if state == HEADER_RECEIVED then RECEIVING_DATA
    else state
  }

  /** From the second turn on nothing changes, and no turn completes a header or a body. */
  lemma EndTurnRepeats(state: State, first: State)
    requires first in {UNSENT, SENT}
    ensures EndTurn(EndTurn(state, first), first) == EndTurn(state, first)
    ensures EndTurn(state, first) !in {first, HEADER_RECEIVED}
  {
  }

  /**
    * The loop that network_handle_data and connect_monitor share; they start it as UNSENT and as SENT. When the other
    * side has closed, recv keeps returning zero, which leads to a state without a branch or sets a position back to
    * zero.
    */
  method ReceiveFrame(sock: Socket, first: State) returns (outcome: Outcome, body: array<bv8>, dataLength: int)
    requires first in {UNSENT, SENT}
    modifies sock`incoming
    ensures fresh(body)
    ensures var f := NextFrame(old(sock.incoming));
      && (f.Waiting? ==> sock.incoming == [] && outcome == if sock.closed then STUCK else BLOCKED)
      && (f.Stuck? ==> outcome == STUCK) && (f.Crashed? ==> outcome == CRASHED)
      && (f.Received? ==> outcome == DATA_RECEIVED)
      && (f.Received? ==>
            sock.incoming == f.rest && dataLength == |f.body| < body.Length && body[..dataLength] == f.body)
  {
    hide LengthOf, NextFrame;
    ghost var stream, head: Bytes, got: Bytes := sock.incoming, [], [];
    var header := new bv8[29];
    var headerPosition, bodyPosition, state := 0, 0, first;
    dataLength := 0;
    body := new bv8[0];
    while sock.incoming != []
      invariant fresh(header) && header.Length == 29 && fresh(body) && body != header
      invariant headerPosition <= HEADER_LENGTH && header[..headerPosition] == head
      invariant state == RECEIVING_DATA_ONGOING ==>
        && dataLength + 2 < 0x8000_0000 && body.Length == dataLength + 2
        && bodyPosition <= dataLength && body[..bodyPosition] == got
      invariant state == RECEIVING_DATA ==> sock.incoming != []
      invariant Progress(stream, first, state, head, dataLength, got, sock.incoming)
      decreases |sock.incoming|, if state == RECEIVING_DATA then 0 else 1
    {
      ghost var before := sock.incoming;
      if state == first || state == RECEIVING_HEADER_ONGOING {
        headerPosition, state, dataLength := ReceiveHeader(sock, header, headerPosition, head, stream, first);
        head := header[..headerPosition];
        got := [];
      } else if state == HEADER_RECEIVED {
        HeaderDecides(stream, head, before);
        state := RECEIVING_DATA;
        if dataLength < 0 || dataLength + 2 >= 0x8000_0000 {
          return CRASHED, body, dataLength;
        }
        body := new bv8[dataLength + 2];
        bodyPosition := CommonReceiveData(body, 0, sock, dataLength, 0);
        if bodyPosition == 0 {
          continue;
        }
        got := body[..bodyPosition];
        assert stream == head + got + sock.incoming;
        state := RECEIVING_DATA_ONGOING;
        if bodyPosition == dataLength {
          BodyComplete(stream, head, got, sock.incoming);
          return DATA_RECEIVED, body, dataLength;
        }
      } else if state == RECEIVING_DATA_ONGOING {
        bodyPosition := ReceiveMore(sock, body, bodyPosition, dataLength, head, got, stream);
        got := body[..bodyPosition];
        if bodyPosition == dataLength {
          BodyComplete(stream, head, got, sock.incoming);
          return DATA_RECEIVED, body, dataLength;
        }
      } else {
        return STUCK, body, dataLength;
      }
    }
    NothingYet(stream, first, state, head, dataLength, got);
    if !sock.closed {
      return BLOCKED, body, dataLength;
    }
    EndTurnRepeats(state, first);
    return STUCK, body, dataLength;
  }
}
