/**
 What a well-formed server stream turns into: every message, in order, whatever its fragmentation,
 the control frames between its fragments and the chunks it arrives in.
 */
module MessageStreams {
  import opened Common
  import opened WebSocketFrames
  import opened Transport

  // ---------------------------------------------------------------------------------------------
  // Well-formed streams, sections 5.4 and 5.5 of RFC 6455

  /** A frame with the form of length that the server chose for it. */
  datatype Sent = Sent(frame: Frame, form: LengthForm)

  predicate WellFormedFrame(sent: Sent) {
    0 <= sent.frame.opcode < 16 && Fits(|sent.frame.payload|, sent.form)
  }

  predicate IsControl(frame: Frame) {
    frame.opcode == 0x9 || frame.opcode == 0xA
  }

  /**
   The frames of one text message: an initial text frame, then continuations, the last one final,
   with pings and pongs anywhere before that last frame.
   */
  predicate IsMessage(frames: seq<Sent>, started: bool) {
    && frames != []
    && WellFormedFrame(frames[0])
    && var frame := frames[0].frame;
       if IsControl(frame) then IsMessage(frames[1..], started)
       else
         && frame.opcode == (if started then 0x0 else 0x1)
         && (if frame.fin then |frames| == 1 else IsMessage(frames[1..], true))
  }

  /** The text of a message: the payloads of its data frames, in order. */
  function Text(frames: seq<Sent>): Bytes {
    if frames == [] then []
    else (if IsControl(frames[0].frame) then [] else frames[0].frame.payload) + Text(frames[1..])
  }

  function Pings(frames: seq<Sent>): seq<Bytes> {
    if frames == [] then []
    else (if frames[0].frame.opcode == 0x9 then [frames[0].frame.payload] else []) + Pings(frames[1..])
  }

  function Wire(frames: seq<Sent>): Bytes
    requires forall i | 0 <= i < |frames| :: WellFormedFrame(frames[i])
  {
    if frames == [] then []
    else
      assert WellFormedFrame(frames[0]);
      ServerBytes(frames[0].frame, frames[0].form) + Wire(frames[1..])
  }

  lemma {:induction false} MessageFrames(frames: seq<Sent>, started: bool)
    requires IsMessage(frames, started)
    ensures forall i | 0 <= i < |frames| :: WellFormedFrame(frames[i])
  {
    var frame := frames[0].frame;
    if IsControl(frame) {
      MessageFrames(frames[1..], started);
    } else if !frame.fin {
      MessageFrames(frames[1..], true);
    }
  }

  // ---------------------------------------------------------------------------------------------
  // Reassembly

  /** One message off the front of the stream, its pings to be answered, the rest untouched. */
  lemma {:induction false} MessageReceived(frames: seq<Sent>, message: Bytes, started: bool, rest: Bytes)
    requires IsMessage(frames, started)
    requires forall i | 0 <= i < |frames| :: WellFormedFrame(frames[i])
    ensures ReceivedFrom(Wire(frames) + rest, message, started)
         == Message(message + Text(frames), Pings(frames), rest)
  {
    hide ServerBytes, DecodedFrame, Fits;
    var Sent(frame, form) := frames[0];
    var others := frames[1..];
    var after := Wire(others) + rest;
    assert Wire(frames) + rest == ServerBytes(frame, form) + after;
    ServerFrameRoundTrip(frame, form, after);
    if IsControl(frame) {
      MessageReceived(others, message, started, rest);
      assert [] + Text(others) == Text(others);
      if frame.opcode == 0xA {
        assert [] + Pings(others) == Pings(others);
      }
    } else if frame.fin {
      assert others == [] && after == rest;
      assert Text(frames) == frame.payload && Pings(frames) == [];
    } else {
      MessageReceived(others, message + frame.payload, true, rest);
      Associate(message, frame.payload, Text(others));
      assert [] + Pings(others) == Pings(others);
    }
  }

  /** The frames of a message that is not complete yet, and whether it has begun. */
  predicate IsBeginning(frames: seq<Sent>, started: bool) {
    frames != [] ==>
      && WellFormedFrame(frames[0])
      && var frame := frames[0].frame;
         if IsControl(frame) then IsBeginning(frames[1..], started)
         else frame.opcode == (if started then 0x0 else 0x1) && !frame.fin && IsBeginning(frames[1..], true)
  }

  predicate HasStarted(frames: seq<Sent>, started: bool) {
    started || exists i | 0 <= i < |frames| :: !IsControl(frames[i].frame)
  }

  /** The beginning of a message is kept in mind while the rest of the stream is looked at. */
  lemma {:induction false} BeginningReceived(frames: seq<Sent>, message: Bytes, started: bool, rest: Bytes)
    requires IsBeginning(frames, started)
    requires forall i | 0 <= i < |frames| :: WellFormedFrame(frames[i])
    ensures ReceivedFrom(Wire(frames) + rest, message, started)
         == WithPongs(Pings(frames), ReceivedFrom(rest, message + Text(frames), HasStarted(frames, started)))
  {
    hide ServerBytes, DecodedFrame, Fits;
    if frames == [] {
      assert Wire(frames) + rest == rest && message + [] == message;
      NoPongs(ReceivedFrom(rest, message, started));
    } else {
      var Sent(frame, form) := frames[0];
      var others := frames[1..];
      var after := Wire(others) + rest;
      var later := ReceivedFrom(rest, message + Text(frames), HasStarted(frames, started));
      assert Wire(frames) + rest == ServerBytes(frame, form) + after;
      ServerFrameRoundTrip(frame, form, after);
      StartedLater(frames, started);
      if IsControl(frame) {
        BeginningReceived(others, message, started, rest);
        assert [] + Text(others) == Text(others);
        if frame.opcode == 0xA {
          assert [] + Pings(others) == Pings(others);
        } else {
          Associate([frame.payload], Pings(others), later.pongs);
        }
      } else {
        BeginningReceived(others, message + frame.payload, true, rest);
        Associate(message, frame.payload, Text(others));
        assert [] + Pings(others) == Pings(others);
      }
    }
  }

  lemma StartedLater(frames: seq<Sent>, started: bool)
    requires frames != []
    ensures HasStarted(frames, started) <==> HasStarted(frames[1..], started || !IsControl(frames[0].frame))
  {
    if exists i | 0 <= i < |frames| :: !IsControl(frames[i].frame) {
      var i :| 0 <= i < |frames| && !IsControl(frames[i].frame);
      assert i > 0 ==> frames[1..][i - 1] == frames[i];
    }
  }

  /** Why no message can come of the octets that follow, if it is so. */
  predicate Breaks(stream: Bytes, started: bool, code: string) {
    match DecodedFrame(stream)
    case PlainFrame(frame, _) =>
      if frame.opcode == 0x8 then code == "TRANSPORT_CLOSED"
      else code == "TRANSPORT_PROTOCOL_ERROR" && frame.opcode != 0x1 && frame.opcode != 0x9 && frame.opcode != 0xA
                                              && (frame.opcode == 0x0 ==> !started)
    case MaskedFrame(_, _) => code == "TRANSPORT_PROTOCOL_ERROR"
    case Incomplete =>
      code == if |stream| >= 2 && stream[1] as int >= 128 then "TRANSPORT_PROTOCOL_ERROR"
              else "TRANSPORT_RECEIVE_FAILED"
  }

  /**
   After the beginning of a message, a close frame, a frame that has no place there, a masked frame or the
   end of the stream breaks it off; the pings up to there are answered.
   */
  lemma BrokenOff(frames: seq<Sent>, rest: Bytes, code: string)
    requires IsBeginning(frames, false) && forall i | 0 <= i < |frames| :: WellFormedFrame(frames[i])
    requires Breaks(rest, HasStarted(frames, false), code)
    ensures ReceivedFrom(Wire(frames) + rest, [], false) == Broken(code, Pings(frames))
  {
    hide DecodedFrame;
    BeginningReceived(frames, [], false, rest);
    assert Pings(frames) + [] == Pings(frames);
    if !DecodedFrame(rest).Incomplete? {
      var extended, key, data := FrameWasThere(rest);
    }
  }

  /** Data continues a message, or ends it; a text frame does so even where a continuation is due. */
  lemma DataIsTaken(stream: Bytes, message: Bytes, started: bool, fin: bool, opcode: int, data: Bytes, rest: Bytes)
    requires DecodedFrame(stream) == PlainFrame(Frame(fin, opcode, data), rest)
    requires opcode == 0x1 || (opcode == 0x0 && started)
    ensures ReceivedFrom(stream, message, started) ==
            if fin then Message(message + data, [], rest) else ReceivedFrom(rest, message + data, true)
  {
    hide DecodedFrame;
  }

  /** What `count` successive calls return, as long as none fails. */
  function Successive(stream: Bytes, count: nat): seq<Received>
    decreases count
  {
    if count == 0 then []
    else
      var first := ReceivedFrom(stream, [], false);
      if first.Message? then [first] + Successive(first.rest, count - 1) else [first]
  }

  function WireOfAll(messages: seq<seq<Sent>>): Bytes
    requires forall m | m in messages :: IsMessage(m, false)
  {
    if messages == [] then []
    else
      MessageFrames(messages[0], false);
      Wire(messages[0]) + WireOfAll(messages[1..])
  }

  /** One delivery a message, in order, each leaving everything after the message unread. */
  function Deliveries(messages: seq<seq<Sent>>, rest: Bytes): seq<Received>
    requires forall m | m in messages :: IsMessage(m, false)
  {
    if messages == [] then []
    else
      [Message(Text(messages[0]), Pings(messages[0]), WireOfAll(messages[1..]) + rest)]
      + Deliveries(messages[1..], rest)
  }

  /** Successive calls return exactly the messages, in order, each with its pings, and leave the rest. */
  lemma {:induction false} AllMessagesReceived(messages: seq<seq<Sent>>, rest: Bytes)
    requires forall m | m in messages :: IsMessage(m, false)
    ensures Successive(WireOfAll(messages) + rest, |messages|) == Deliveries(messages, rest)
  {
    if messages != [] {
      hide IsMessage, Text, Pings, ReceivedFrom, Wire;
      MessageFrames(messages[0], false);
      var after := WireOfAll(messages[1..]) + rest;
      assert WireOfAll(messages) + rest == Wire(messages[0]) + after;
      MessageReceived(messages[0], [], false, after);
      assert [] + Text(messages[0]) == Text(messages[0]);
      AllMessagesReceived(messages[1..], rest);
    }
  }

  // ---------------------------------------------------------------------------------------------
  // The bytes left over from the handshake

  predicate EmptyLineBefore(bytes: Bytes, position: nat) {
    4 <= position <= |bytes| && bytes[position - 4..position] == [13, 10, 13, 10]
  }

  /** A header block ends behind the first empty line: CR LF CR LF. */
  lemma HeaderEndIff(bytes: Bytes, end: nat)
    ensures HeaderEnd(bytes) == Some(end) <==>
            EmptyLineBefore(bytes, end) && forall i: nat | i < end :: !EmptyLineBefore(bytes, i)
  {
    assert forall i: nat :: EmptyLineBefore(bytes, i) <==> EndsAt(bytes, i);
  }

  lemma EndInPrefix(bytes: Bytes, length: nat)
    requires length <= |bytes|
    ensures forall i: nat | i <= length :: EndsAt(bytes[..length], i) <==> EndsAt(bytes, i)
  {
    forall i: nat | i <= length ensures EndsAt(bytes[..length], i) <==> EndsAt(bytes, i) {
      assert 4 <= i ==> bytes[..length][i - 4..i] == bytes[i - 4..i];
    }
  }

  /** Headers up to one byte over the limit are found in whatever chunks they come. */
  lemma {:induction false} ShortHeadersAreRead(chunks: seq<Bytes>, response: Bytes, end: nat)
    requires HeaderEnd(response + Flattened(chunks)) == Some(end) && |response| < end <= HEADER_LIMIT + 1
    ensures var stream := response + Flattened(chunks);
            var headers := HeadersFrom(chunks, response);
            && headers.Some? && headers.value.block == stream[..end]
            && headers.value.extra + Flattened(headers.value.unread) == stream[end..]
  {
    hide EndsAt;
    var stream := response + Flattened(chunks);
    assert chunks != [] by {
      if chunks == [] {
        assert stream == response;
        EndIsInside(response, end);
      }
    }
    var more, later := response + chunks[0], Flattened(chunks[1..]);
    assert stream == more + later && stream[..|more|] == more;
    EndInPrefix(stream, |more|);
    if end <= |more| {
      assert HeaderEnd(more) == Some(end);
      assert more[end..] + later == stream[end..] && more[..end] == stream[..end];
    } else {
      assert HeaderEnd(more) == None by {
        forall i: nat ensures !EndsAt(more, i) {
          if i > |more| {
            EndIsInside(more, i);
          }
        }
      }
      ShortHeadersAreRead(chunks[1..], more, end);
    }
  }

  lemma EndIsInside(bytes: Bytes, position: nat)
    ensures EndsAt(bytes, position) ==> position <= |bytes|
  {
  }

  function Singles(bytes: Bytes): (chunks: seq<Bytes>)
    ensures ValidChunks(chunks) && Flattened(chunks) == bytes
  {
    if bytes == [] then [] else [bytes[..1]] + Singles(bytes[1..])
  }

  /** Longer headers fail when the bytes before their end happen to arrive first. */
  lemma LongHeadersCanFail(stream: Bytes, end: nat) returns (chunks: seq<Bytes>)
    requires HeaderEnd(stream) == Some(end) && end > HEADER_LIMIT + 1
    ensures ValidChunks(chunks) && Flattened(chunks) == stream && HeadersFrom(chunks, []) == None
  {
    hide EndsAt;
    EndIsInside(stream, end);
    var c := CHUNK_CAPACITY;
    var tail := Singles(stream[4 * c + 1..]);
    var last := [stream[4 * c..4 * c + 1]] + tail;
    var fourth := [stream[3 * c..4 * c]] + last;
    var third := [stream[2 * c..3 * c]] + fourth;
    var second := [stream[c..2 * c]] + third;
    chunks := [stream[..c]] + second;
    NoEndYet(stream, end, 4 * c, 4 * c + 1, last);
    NoEndYet(stream, end, 3 * c, 4 * c, fourth);
    NoEndYet(stream, end, 2 * c, 3 * c, third);
    NoEndYet(stream, end, c, 2 * c, second);
    NoEndYet(stream, end, 0, c, chunks);
    assert stream[..0] == [];
    ChunksCover(stream, 4 * c, 4 * c + 1, tail);
    ChunksCover(stream, 3 * c, 4 * c, last);
    ChunksCover(stream, 2 * c, 3 * c, fourth);
    ChunksCover(stream, c, 2 * c, third);
    ChunksCover(stream, 0, c, second);
    assert stream[0..] == stream;
  }

  lemma NoEndYet(stream: Bytes, end: nat, from: nat, to: nat, chunks: seq<Bytes>)
    requires HeaderEnd(stream) == Some(end) && from < to < end <= |stream|
    requires chunks != [] && chunks[0] == stream[from..to]
    ensures HeadersFrom(chunks, stream[..from]) ==
            if to > HEADER_LIMIT then None else HeadersFrom(chunks[1..], stream[..to])
  {
    hide EndsAt;
    var more := stream[..from] + chunks[0];
    assert more == stream[..to];
    EndInPrefix(stream, to);
    forall i: nat ensures !EndsAt(more, i) {
      if i > to {
        EndIsInside(more, i);
      }
    }
  }

  lemma ChunksCover(stream: Bytes, from: nat, to: nat, rest: seq<Bytes>)
    requires from < to <= |stream| && to - from <= CHUNK_CAPACITY
    requires ValidChunks(rest) && Flattened(rest) == stream[to..]
    ensures var chunks := [stream[from..to]] + rest; ValidChunks(chunks) && Flattened(chunks) == stream[from..]
  {
    var chunks := [stream[from..to]] + rest;
    assert chunks[1..] == rest;
    assert stream[from..to] + stream[to..] == stream[from..];
  }

  /** The handshake survives every way of chunking the response exactly when its headers are short enough. */
  lemma HeadersReadIff(stream: Bytes, end: nat)
    requires HeaderEnd(stream) == Some(end)
    ensures (forall chunks | ValidChunks(chunks) && Flattened(chunks) == stream :: HeadersFrom(chunks, []).Some?)
            <==> end <= 16385
  {
    hide EndsAt, HeadersFrom;
    if end <= HEADER_LIMIT + 1 {
      forall chunks | ValidChunks(chunks) && Flattened(chunks) == stream ensures HeadersFrom(chunks, []).Some? {
        assert [] + Flattened(chunks) == stream;
        EndIsPositive(stream, end);
        ShortHeadersAreRead(chunks, [], end);
      }
    } else {
      var chunks := LongHeadersCanFail(stream, end);
    }
  }

  lemma EndIsPositive(bytes: Bytes, position: nat)
    ensures EndsAt(bytes, position) ==> position > 0
  {
  }

  /** From handshake to messages: those that came with the headers are received like all others. */
  lemma MessagesAfterHandshake(chunks: seq<Bytes>, block: Bytes, messages: seq<seq<Sent>>, rest: Bytes)
    requires forall m | m in messages :: IsMessage(m, false)
    requires HeaderEnd(block) == Some(|block|) && |block| <= HEADER_LIMIT + 1
    requires Flattened(chunks) == block + (WireOfAll(messages) + rest)
    ensures var headers := HeadersFrom(chunks, []);
            && headers.Some? && headers.value.block == block
            && var unread := headers.value.extra + Flattened(headers.value.unread);
               && unread == WireOfAll(messages) + rest
               && Successive(unread, |messages|) == Deliveries(messages, rest)
  {
    hide EndsAt, WireOfAll, HeadersFrom, Successive, Deliveries;
    var later := WireOfAll(messages) + rest;
    var stream := block + later;
    assert stream[..|block|] == block && stream[|block|..] == later;
    EndInPrefix(stream, |block|);
    EndIsPositive(block, |block|);
    assert HeaderEnd(stream) == Some(|block|);
    assert [] + Flattened(chunks) == stream;
    ShortHeadersAreRead(chunks, [], |block|);
    AllMessagesReceived(messages, rest);
  }

  // ---------------------------------------------------------------------------------------------
  // The transport as its caller sees it

  /** The texts that a stream holds, up to the place where it breaks. */
  function Inbox(stream: Bytes): seq<Bytes>
    decreases |stream|
  {
    match ReceivedFrom(stream, [], false)
    case Message(text, _, rest) => [text] + Inbox(rest)
    case Broken(_, _) => []
  }

  /** Message by message, a connection hands out its inbox; nothing but a pong can fail earlier. */
  method NextText(transport: WebSocketTransport) returns (text: Result<Bytes>)
    requires transport.Valid() && transport.connected
    modifies transport
    ensures transport.Valid()
    ensures text.Success? ==>
              var before := Inbox(old(transport.Unread()));
              && transport.connected && before != []
              && text.value == before[0] && Inbox(transport.Unread()) == before[1..]
    ensures text.Failure? ==>
              !transport.connected && (text.code != SEND_FAILED ==> Inbox(old(transport.Unread())) == [])
  {
    hide ReceivedFrom, PongFrames;
    text := transport.ReceiveText();
  }

  // ---------------------------------------------------------------------------------------------
  // A whole conversation

  function Texts(messages: seq<seq<Sent>>): seq<Bytes> {
    if messages == [] then [] else Texts(messages[..|messages| - 1]) + [Text(messages[|messages| - 1])]
  }

  function AllPings(messages: seq<seq<Sent>>): seq<Bytes> {
    if messages == [] then [] else AllPings(messages[..|messages| - 1]) + Pings(messages[|messages| - 1])
  }

  /** The next message of a stream, and the texts and pings up to it. */
  lemma NextMessage(messages: seq<seq<Sent>>, k: nat, rest: Bytes)
    requires forall m | m in messages :: IsMessage(m, false)
    requires k < |messages|
    ensures ReceivedFrom(WireOfAll(messages[k..]) + rest, [], false)
         == Message(Text(messages[k]), Pings(messages[k]), WireOfAll(messages[k + 1..]) + rest)
    ensures Texts(messages[..k + 1]) == Texts(messages[..k]) + [Text(messages[k])]
    ensures AllPings(messages[..k + 1]) == AllPings(messages[..k]) + Pings(messages[k])
  {
    hide IsMessage, Text, Pings, ReceivedFrom, Wire;
    MessageFrames(messages[k], false);
    var after := WireOfAll(messages[k + 1..]) + rest;
    assert messages[k..][1..] == messages[k + 1..] && messages[..k + 1][..k] == messages[..k];
    assert WireOfAll(messages[k..]) + rest == Wire(messages[k]) + after;
    MessageReceived(messages[k], [], false, after);
    assert [] + Text(messages[k]) == Text(messages[k]);
  }

  /** The inbox of a stream of messages is their texts, and then whatever follows them. */
  lemma {:induction false} InboxOfMessages(messages: seq<seq<Sent>>, k: nat, rest: Bytes)
    requires forall m | m in messages :: IsMessage(m, false)
    requires k <= |messages|
    ensures Inbox(WireOfAll(messages) + rest) == Texts(messages[..k]) + Inbox(WireOfAll(messages[k..]) + rest)
  {
    hide IsMessage, ReceivedFrom, WireOfAll, Texts;
    if k == 0 {
      NothingReceived(messages, rest);
      assert [] + Inbox(WireOfAll(messages) + rest) == Inbox(WireOfAll(messages) + rest);
    } else {
      InboxOfMessages(messages, k - 1, rest);
      NextMessage(messages, k - 1, rest);
      Associate(Texts(messages[..k - 1]), [Text(messages[k - 1])], Inbox(WireOfAll(messages[k..]) + rest));
    }
  }

  lemma MorePongs(frames: seq<Bytes>, payloads: seq<Bytes>, more: seq<Bytes>, morePayloads: seq<Bytes>)
    requires PongFrames(frames, payloads) && PongFrames(more, morePayloads)
    ensures PongFrames(frames + more, payloads + morePayloads)
  {
    hide ClientFrame;
  }

  /**
   Connects and receives: however the response and the messages behind it are split into chunks, exactly
   these messages are returned, in order, and each ping is answered once. All that can go wrong is that the
   connection is not made or that a pong cannot be sent.
   */
  method ConnectAndReceive(
      transport: WebSocketTransport, peer: seq<Bytes>, opens: bool, accepted: Bytes -> bool, count: nat,
      ghost block: Bytes, ghost messages: seq<seq<Sent>>, ghost rest: Bytes)
    returns (texts: seq<Bytes>, status: Result<()>, ghost connectedAt: nat)
    requires transport.Valid() && |messages| == count
    requires forall m | m in messages :: IsMessage(m, false)
    requires HeaderEnd(block) == Some(|block|) && |block| <= HEADER_LIMIT + 1
    requires Flattened(peer) == block + (WireOfAll(messages) + rest)
    modifies transport
    ensures transport.Valid() && texts <= Texts(messages)
    ensures status.Success? ==>
              && texts == Texts(messages) && transport.Unread() == rest && transport.connected
              && connectedAt <= |transport.outbound|
              && PongFrames(transport.outbound[connectedAt..], AllPings(messages))
    ensures status.Failure? ==> status.code == CONNECT_FAILED || status.code == SEND_FAILED
    ensures status == Failure(CONNECT_FAILED) ==> !opens || !accepted(block)
  {
    hide IsMessage, WireOfAll, HeadersFrom, Texts, AllPings, Successive, Deliveries, Flattened, PongFrames,
         ReceivedFrom;
    MessagesAfterHandshake(peer, block, messages, rest);
    texts, connectedAt := [], 0;
    NothingReceived(messages, rest);
    status := transport.Connect(peer, opens, accepted);
    if status.Failure? {
      return;
    }
    connectedAt := |transport.outbound|;
    assert transport.outbound[connectedAt..] == [];
    var k := 0;
    while k < count
      invariant 0 <= k <= count && transport.Valid() && transport.connected
      invariant texts == Texts(messages[..k]) && texts <= Texts(messages)
      invariant transport.Unread() == WireOfAll(messages[k..]) + rest
      invariant connectedAt <= |transport.outbound|
      invariant PongFrames(transport.outbound[connectedAt..], AllPings(messages[..k]))
    {
      ghost var before := transport.outbound;
      NextMessage(messages, k, rest);
      var text := transport.ReceiveText();
      ghost var after := transport.outbound;
      if text.Failure? {
        return texts, Failure(text.code), connectedAt;
      }
      assert after[connectedAt..] == before[connectedAt..] + after[|before|..];
      assert Pings(messages[k])[..|Pings(messages[k])|] == Pings(messages[k]);
      MorePongs(before[connectedAt..], AllPings(messages[..k]), after[|before|..], Pings(messages[k]));
      TextsArePrefix(messages, k + 1);
      texts := texts + [text.value];
      k := k + 1;
    }
    assert messages[..k] == messages;
    NothingLeft(messages, rest);
  }

  lemma NothingReceived(messages: seq<seq<Sent>>, rest: Bytes)
    ensures Texts(messages[..0]) == [] && AllPings(messages[..0]) == [] && messages[0..] == messages
    ensures PongFrames([], [])
  {
  }

  lemma NothingLeft(messages: seq<seq<Sent>>, rest: Bytes)
    requires forall m | m in messages :: IsMessage(m, false)
    ensures WireOfAll(messages[|messages|..]) + rest == rest
  {
    hide IsMessage;
  }

  lemma {:induction false} TextsArePrefix(messages: seq<seq<Sent>>, k: nat)
    requires k <= |messages|
    ensures Texts(messages[..k]) <= Texts(messages)
  {
    hide Text;
    if k == |messages| {
      assert messages[..k] == messages;
    } else {
      var fewer := messages[..|messages| - 1];
      assert fewer[..k] == messages[..k];
      TextsArePrefix(fewer, k);
    }
  }
}
