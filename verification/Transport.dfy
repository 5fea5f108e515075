/**
 The WebSocket transport of the proxy runtime: frames written with a mask, and text messages put
 together from a byte stream that arrives in chunks of any size.
 */
module Transport {
  import opened Common
  import opened WebSocketFrames

  const CLOSED := "TRANSPORT_CLOSED"
  const PROTOCOL_ERROR := "TRANSPORT_PROTOCOL_ERROR"

  const CHUNK_CAPACITY := 4096
  const HEADER_LIMIT := 16384
  const END_OF_HEADERS: Bytes := [13, 10, 13, 10]

  function Flattened(chunks: seq<Bytes>): Bytes {
    if chunks == [] then [] else chunks[0] + Flattened(chunks[1..])
  }

  /** What the socket can deliver: never an empty chunk, never more than the buffer holds. */
  predicate ValidChunks(chunks: seq<Bytes>) {
    forall i | 0 <= i < |chunks| :: 0 < |chunks[i]| <= CHUNK_CAPACITY
  }

  // ---------------------------------------------------------------------------------------------
  // Specification of message reassembly, on the byte stream alone

  /** A text message with the payloads of the pings answered on the way, or the error that broke it off. */
  datatype Received =
    | Message(text: Bytes, pongs: seq<Bytes>, rest: Bytes)
    | Broken(code: string, pongs: seq<Bytes>)

  function WithPong(payload: Bytes, received: Received): Received {
    received.(pongs := [payload] + received.pongs)
  }

  function ReceivedFrom(stream: Bytes, message: Bytes, fragmented: bool): (received: Received)
    ensures received.Message? ==> |received.rest| < |stream|
    decreases |stream|
  {
    match DecodedFrame(stream)
    case Incomplete => Broken(ReadError(stream), [])
    case MaskedFrame(_, _) => Broken(ReadError(stream), [])
    case PlainFrame(frame, rest) =>
      if frame.opcode == CLOSE then Broken(CLOSED, [])
      else if frame.opcode == PING then WithPong(frame.payload, ReceivedFrom(rest, message, fragmented))
      else if frame.opcode == PONG then ReceivedFrom(rest, message, fragmented)
      else if frame.opcode == TEXT || (frame.opcode == CONTINUATION && fragmented) then
        if frame.fin then Message(message + frame.payload, [], rest)
        else ReceivedFrom(rest, message + frame.payload, true)
      else Broken(PROTOCOL_ERROR, [])
  }

  // ---------------------------------------------------------------------------------------------
  // The handshake's header block

  /** A header block ends at a position when the four bytes before it are its terminator. */
  predicate EndsAt(bytes: Bytes, position: nat) {
    4 <= position <= |bytes| && bytes[position - 4..position] == END_OF_HEADERS
  }

  /** The first position from `from` on at which a header block ends. */
  function HeaderEnd(bytes: Bytes, from: nat := 0): (end: Option<nat>)
    ensures end.Some? ==> EndsAt(bytes, end.value) && forall i | from <= i < end.value :: !EndsAt(bytes, i)
    ensures end.None? ==> forall i | from <= i :: !EndsAt(bytes, i)
    decreases |bytes| - from
  {
    if from > |bytes| then None
    else if EndsAt(bytes, from) then Some(from)
    else HeaderEnd(bytes, from + 1)
  }

  /** The header block, the bytes read beyond it, and the chunks not read. */
  datatype Headers = Headers(block: Bytes, extra: Bytes, unread: seq<Bytes>)

  function HeadersFrom(chunks: seq<Bytes>, response: Bytes): Option<Headers> {
    if chunks == [] then None
    else
      var more := response + chunks[0];
      match HeaderEnd(more)
      case Some(end) => Some(Headers(more[..end], more[end..], chunks[1..]))
      case None => if |more| > HEADER_LIMIT then None else HeadersFrom(chunks[1..], more)
  }

  // ---------------------------------------------------------------------------------------------
  // The transport

  class WebSocketTransport {
    var connected: bool
    var closeSent: bool
    var socketOpen: bool
    var pending: Bytes

    /** The peer's side: the chunks that the socket has yet to deliver, and the frames written to it. */
    var inbound: seq<Bytes>
    var outbound: seq<Bytes>

    /** A connection has an open socket and no close frame behind it; without a socket nothing is kept. */
    ghost predicate Valid()
      reads this
    {
      && (connected ==> socketOpen && !closeSent)
      && (!socketOpen ==> pending == [])
    }

    /** Every byte received or still to come that no call has consumed yet. */
    ghost function Unread(): Bytes
      reads this
    {
      pending + Flattened(inbound)
    }

    constructor ()
      ensures Valid() && !connected && !socketOpen && outbound == []
    {
      connected, closeSent, socketOpen := false, false, false;
      pending, inbound, outbound := [], [], [];
    }

    predicate IsConnected()
      reads this
    {
      connected
    }

    /** The next chunk, or a failure when the peer has closed or stays silent. */
    method ReadChunk() returns (chunk: Result<Bytes>)
      requires Valid()
      modifies this`inbound
      ensures Valid()
      ensures chunk.Success? <==> old(inbound) != []
      ensures chunk.Success? ==> chunk.value == old(inbound)[0] && inbound == old(inbound)[1..]
      ensures chunk.Failure? ==> chunk.code == RECEIVE_FAILED && inbound == old(inbound)
    {
      if inbound == [] {
        return Failure(RECEIVE_FAILED);
      }
      chunk := Success(inbound[0]);
      inbound := inbound[1..];
    }

    /** Reads up to the end of the header block; what came with it in the same chunk stays pending. */
    method ReadHttpHeaders() returns (block: Result<Bytes>)
      requires Valid() && socketOpen && pending == []
      modifies this`pending, this`inbound
      ensures Valid()
      ensures block.Success? <==> HeadersFrom(old(inbound), []).Some?
      ensures block.Success? ==> HeadersFrom(old(inbound), []) == Some(Headers(block.value, pending, inbound))
      ensures block.Failure? ==> block.code == RECEIVE_FAILED || block.code == CONNECT_FAILED
    {
      var response: Bytes := [];
      while true
        invariant Valid() && pending == []
        invariant HeadersFrom(old(inbound), []) == HeadersFrom(inbound, response)
        decreases |inbound|
      {
        var chunk := ReadChunk();
        if chunk.Failure? {
          return chunk;
        }
        response := response + chunk.value;
        var end := HeaderEnd(response);
        if end.Some? {
          if end.value < |response| {
            pending := pending + response[end.value..];
          }
          assert pending == response[end.value..];
          return Success(response[..end.value]);
        }
        if |response| > HEADER_LIMIT {
          return Failure(CONNECT_FAILED);
        }
      }
    }

    /**
     Opens a socket to a peer that will send `peer`, and performs the handshake. Whether the socket
     opens and whether the response is the right one is decided elsewhere.
     */
    method Connect(peer: seq<Bytes>, opens: bool, accepted: Bytes -> bool) returns (status: Result<()>)
      requires Valid()
      modifies this
      ensures Valid() && (status.Success? <==> connected)
      ensures status.Success? ==>
                var headers := HeadersFrom(peer, []);
                headers.Some? && accepted(headers.value.block)
                && Unread() == headers.value.extra + Flattened(headers.value.unread)
      ensures status.Success? <== opens && HeadersFrom(peer, []).Some? && accepted(HeadersFrom(peer, []).value.block)
      ensures status.Failure? ==> !socketOpen && status.code == CONNECT_FAILED
    {
      Close();
      if !opens {
        return Failure(CONNECT_FAILED);
      }
      socketOpen := true;
      inbound := peer;
      var block := ReadHttpHeaders();
      if block.Failure? || !accepted(block.value) {
        Close();
        return Failure(CONNECT_FAILED);
      }
      connected, closeSent := true, false;
      status := Success(());
    }

    /** Whether the bytes go out is up to the network. */
    method WriteAll(bytes: Bytes) returns (ok: bool)
      modifies this`outbound
      ensures outbound == if ok then old(outbound) + [bytes] else old(outbound)
    {
      ok := *;
      if ok {
        outbound := outbound + [bytes];
      }
    }

    /** Exactly `length` bytes, wherever the chunk boundaries fall; what is left over stays pending. */
    method ReadExact(length: nat) returns (payload: Result<Bytes>)
      requires Valid() && socketOpen
      modifies this`pending, this`inbound
      ensures Valid()
      ensures payload.Success? <==> length <= |old(Unread())|
      ensures payload.Success? ==> payload.value == old(Unread())[..length] && Unread() == old(Unread())[length..]
      ensures payload.Failure? ==> payload.code == RECEIVE_FAILED
    {
      hide Flattened;
      ghost var stream := Unread();
      var bytes: Bytes := [];
      if pending != [] {
        var take := if length < |pending| then length else |pending|;
        bytes := pending[..take];
        pending := pending[take..];
      }
      while |bytes| < length
        invariant Valid() && |bytes| <= length && (|bytes| < length ==> pending == [])
        invariant bytes + Unread() == stream
        decreases |inbound|
      {
        FlattenedOnce(inbound);
        var chunk := ReadChunk();
        if chunk.Failure? {
          return chunk;
        }
        Associate(bytes, chunk.value, Flattened(inbound));
        assert bytes + chunk.value + Flattened(inbound) == stream;
        var remaining := length - |bytes|;
        if |chunk.value| <= remaining {
          bytes := bytes + chunk.value;
        } else {
          ghost var head, tail := chunk.value[..remaining], chunk.value[remaining..];
          assert head + tail == chunk.value;
          Associate(bytes, head, tail);
          bytes := bytes + chunk.value[..remaining];
          pending := pending + chunk.value[remaining..];
          assert pending == tail;
          Associate(bytes, tail, Flattened(inbound));
        }
      }
      payload := Success(bytes);
    }

    /** Writes one frame; every frame written can be read back by the rules of the RFC. */
    method SendFrame(opcode: int, payload: Bytes) returns (ok: bool)
      requires 0 <= opcode < 256 && |payload| < UINT64_LIMIT
      modifies this`outbound
      ensures ok ==> |outbound| == |old(outbound)| + 1 && outbound[..|old(outbound)|] == old(outbound)
      ensures ok ==> ClientFrame(outbound[|old(outbound)|]) == Some(Frame(true, opcode % 16, payload))
      ensures ok ==> |outbound[|old(outbound)|]| == 2 + FormWidth(ShortestForm(|payload|)) + 4 + |payload|
      ensures !ok ==> outbound == old(outbound)
    {
      hide ClientFrame, Masked, BigEndian;
      var bytes: Bytes := [(0x80 + opcode % 16) as byte];
      var length := |payload|;
      if length <= 125 {
        bytes := bytes + [(0x80 + length) as byte];
      } else if length <= 0xFFFF {
        bytes := bytes + [(0x80 + 126) as byte];
        bytes := bytes + [(length / 0x100 % 0x100) as byte, (length % 0x100) as byte];
      } else {
        bytes := bytes + [(0x80 + 127) as byte];
        var lengthBytes := WriteBigEndian(length);
        bytes := bytes + lengthBytes;
      }
      ghost var header := bytes;
      assert header == [FirstByte(true, opcode % 16)] + LengthBytes(length, ShortestForm(length), true) by {
        TwoBytes(length);
        NoBytes(length);
      }
      var random: bool := *;
      if !random {
        return false;
      }
      var k0: byte, k1: byte, k2: byte, k3: byte := *, *, *, *;
      var key := [k0, k1, k2, k3];
      bytes := bytes + key + payload;
      var frame := new byte[|bytes|](i requires 0 <= i < |bytes| => bytes[i]);
      assert frame[..|bytes| - length] == header + key && frame[|bytes| - length..] == payload;
      MaskInPlace(frame, |bytes| - length, key);
      FrameWritten(opcode % 16, payload, key, frame[..]);
      ok := WriteAll(frame[..]);
    }

    /** The eight length bytes, from the highest shift down. */
    method WriteBigEndian(length: nat) returns (bytes: Bytes)
      requires length < UINT64_LIMIT
      ensures bytes == BigEndian(length, 8)
    {
      bytes := [];
      Powers();
      var i := 0;
      while i < 8
        invariant 0 <= i <= 8
        invariant bytes == BigEndian(length / Power256(8 - i), i)
      {
        BigEndianShift(length, 7 - i);
        bytes := bytes + [(length / Power256(7 - i) % 256) as byte];
        i := i + 1;
      }
    }

    /** Exclusive-ors everything from `offset` on with the key, in the frame's own buffer. */
    method MaskInPlace(frame: array<byte>, offset: nat, key: Bytes)
      requires offset <= frame.Length && |key| == 4
      modifies frame
      ensures frame[..] == old(frame[..offset]) + Masked(old(frame[offset..]), key)
    {
      var index := 0;
      while index < frame.Length - offset
        invariant 0 <= index <= frame.Length - offset
        invariant forall i | 0 <= i < offset + index ::
                    frame[i] == if i < offset then old(frame[i]) else Xor(old(frame[i]), key[(i - offset) % 4])
        invariant forall i | offset + index <= i < frame.Length :: frame[i] == old(frame[i])
      {
        frame[offset + index] := Xor(frame[offset + index], key[index % 4]);
        index := index + 1;
      }
    }

    method SendText(payload: Bytes) returns (status: Result<()>)
      requires Valid() && |payload| < UINT64_LIMIT
      modifies this`outbound
      ensures status.Success? ==> connected && |outbound| == |old(outbound)| + 1
      ensures status.Success? ==> outbound[..|old(outbound)|] == old(outbound)
      ensures status.Success? ==> ClientFrame(outbound[|old(outbound)|]) == Some(Frame(true, 0x1, payload))
      ensures status.Failure? ==> outbound == old(outbound) && (status.code == NOT_CONNECTED <==> !connected)
    {
      if !connected || !socketOpen {
        return Failure(NOT_CONNECTED);
      }
      var ok := SendFrame(TEXT, payload);
      status := if ok then Success(()) else Failure(SEND_FAILED);
    }

    method Close()
      requires Valid()
      modifies this
      ensures Valid() && !connected && !socketOpen && inbound == old(inbound)
      ensures !old(connected) ==> outbound == old(outbound)
      ensures old(connected) && outbound != old(outbound) ==>
                && |outbound| == |old(outbound)| + 1 && outbound[..|old(outbound)|] == old(outbound)
                && ClientFrame(outbound[|old(outbound)|]) == Some(Frame(true, 0x8, []))
    {
      hide ClientFrame;
      if socketOpen && connected && !closeSent {
        var _ := SendFrame(CLOSE, []);
      }
      connected, closeSent, socketOpen := false, false, false;
      pending := [];
    }

    /** The next frame, read piece by piece. */
    method ReadFrame() returns (frame: Result<Frame>)
      requires Valid() && socketOpen
      modifies this`pending, this`inbound
      ensures Valid()
      ensures frame.Success? <==> DecodedFrame(old(Unread())).PlainFrame?
      ensures frame.Success? ==> DecodedFrame(old(Unread())) == PlainFrame(frame.value, Unread())
      ensures frame.Success? ==> |frame.value.payload| < UINT64_LIMIT && 0 <= frame.value.opcode < 16
      ensures frame.Failure? ==> frame.code == ReadError(old(Unread()))
    {
      hide Flattened, FromBigEndian, MaskBit, Fin, Masked;
      ghost var stream := Unread();
      var header := ReadExact(2);
      if header.Failure? {
        return Failure(header.code);
      }
      var first, second := header.value[0], header.value[1];
      assert first == stream[0] && second == stream[1];
      if MaskBit(second) {
        return Failure(PROTOCOL_ERROR);
      }
      var length := Length7(second);
      var width := ExtendedWidth(length);
      if width != 0 {
        var extended := ReadExact(width);
        if extended.Failure? {
          return Failure(extended.code);
        }
        assert extended.value == stream[2..2 + width];
        length := FromBigEndian(extended.value);
        Powers();
      }
      assert Unread() == stream[2 + width..];
      var payload := ReadExact(length);
      if payload.Failure? {
        return Failure(payload.code);
      }
      assert payload.value == stream[2 + width..2 + width + length];
      assert Unread() == stream[2 + width + length..];
      frame := Success(Frame(Fin(first), Opcode(first), payload.value));
    }

    /** The loop over frames. The network can make it fail, but not change what it returns. */
    method ReceiveText() returns (text: Result<Bytes>)
      requires Valid()
      modifies this
      ensures Valid()
      ensures !old(connected) ==>
                text == Failure(NOT_CONNECTED) && Unread() == old(Unread()) && outbound == old(outbound)
      ensures old(connected) ==>
                Outcome(ReceivedFrom(old(Unread()), [], false), old(outbound), text)
    {
      hide ReceivedFrom, WithPongs, ClientFrame, DecodedFrame, Flattened, ReadError;
      if !connected || !socketOpen {
        return Failure(NOT_CONNECTED);
      }
      NoPongs(ReceivedFrom(Unread(), [], false));
      var message: Bytes := [];
      var fragmented := false;
      ghost var expected := ReceivedFrom(Unread(), [], false);
      ghost var answered: seq<Bytes> := [];
      while true
        invariant Valid() && connected
        invariant expected == WithPongs(answered, ReceivedFrom(Unread(), message, fragmented))
        invariant old(outbound) <= outbound && PongFrames(outbound[|old(outbound)|..], answered)
        decreases |Unread()|
      {
        ReceivedStep(answered, Unread(), message, fragmented);
        var frame := ReadFrame();
        if frame.Failure? {
          connected := false;
          Close();
          return Failure(frame.code);
        }
        var Frame(fin, opcode, payload) := frame.value;
        if opcode == CLOSE {
          closeSent := true;
          connected := false;
          Close();
          return Failure(CLOSED);
        }
        if opcode == PING {
          var ok := SendFrame(PONG, payload);
          if !ok {
            connected := false;
            Close();
            return Failure(SEND_FAILED);
          }
          answered := answered + [payload];
          continue;
        }
        if opcode == PONG {
          continue;
        }
        if opcode == BINARY {
          connected := false;
          Close();
          return Failure(PROTOCOL_ERROR);
        }
        if opcode == TEXT {
          message := message + payload;
          fragmented := !fin;
          if fin {
            return Success(message);
          }
          continue;
        }
        if opcode == CONTINUATION {
          if !fragmented {
            connected := false;
            Close();
            return Failure(PROTOCOL_ERROR);
          }
          message := message + payload;
          if fin {
            return Success(message);
          }
          continue;
        }
        connected := false;
        Close();
        return Failure(PROTOCOL_ERROR);
      }
    }

    /** What a call may do: everything the byte stream asks for, or less when a pong cannot be sent. */
    ghost predicate Outcome(expected: Received, written: seq<Bytes>, text: Result<Bytes>)
      reads this
    {
      && written <= outbound
      && var sent := outbound[|written|..];
      && |sent| <= |expected.pongs|
      && PongFrames(sent, expected.pongs[..|sent|])
      && match text
         case Success(value) =>
           connected && |sent| == |expected.pongs| && expected == Message(value, expected.pongs, Unread())
         case Failure(code) =>
           && !connected && !socketOpen
           && (code == SEND_FAILED ==> |sent| < |expected.pongs|)
           && (code != SEND_FAILED ==> |sent| == |expected.pongs| && expected == Broken(code, expected.pongs))
    }
  }

  /** The error that a stream without a plain frame at its start ends in. */
  function ReadError(stream: Bytes): (code: string)
    ensures code != SEND_FAILED
  {
    if |stream| >= 2 && MaskBit(stream[1]) then PROTOCOL_ERROR else RECEIVE_FAILED
  }

  function WithPongs(pongs: seq<Bytes>, received: Received): (more: Received)
    ensures pongs <= more.pongs
  {
    received.(pongs := pongs + received.pongs)
  }

  lemma NoPongs(received: Received)
    ensures WithPongs([], received) == received
  {
    assert [] + received.pongs == received.pongs;
  }

  /** One turn of the loop, with the pings answered so far. */
  lemma ReceivedStep(answered: seq<Bytes>, stream: Bytes, message: Bytes, fragmented: bool)
    ensures WithPongs(answered, ReceivedFrom(stream, message, fragmented)) ==
            (var read := DecodedFrame(stream);
             if read.PlainFrame? then AfterFrame(answered, read.frame, read.rest, message, fragmented)
             else Broken(ReadError(stream), answered))
    ensures answered <= WithPongs(answered, ReceivedFrom(stream, message, fragmented)).pongs
  {
    hide DecodedFrame, ReadError;
    assert answered + [] == answered;
    var read := DecodedFrame(stream);
    if read.PlainFrame? {
      Associate(answered, [read.frame.payload], ReceivedFrom(read.rest, message, fragmented).pongs);
    }
  }

  ghost function AfterFrame(
      answered: seq<Bytes>, frame: Frame, rest: Bytes, message: Bytes, fragmented: bool): Received
  {
    if frame.opcode == CLOSE then Broken(CLOSED, answered)
    else if frame.opcode == PING then WithPongs(answered + [frame.payload], ReceivedFrom(rest, message, fragmented))
    else if frame.opcode == PONG then WithPongs(answered, ReceivedFrom(rest, message, fragmented))
    else if frame.opcode == TEXT || (frame.opcode == CONTINUATION && fragmented) then
      if frame.fin then Message(message + frame.payload, answered, rest)
      else WithPongs(answered, ReceivedFrom(rest, message + frame.payload, true))
    else Broken(PROTOCOL_ERROR, answered)
  }

  /** The frames are pongs with these payloads, one for one. */
  ghost predicate PongFrames(frames: seq<Bytes>, payloads: seq<Bytes>) {
    && |frames| == |payloads|
    && forall i | 0 <= i < |frames| :: ClientFrame(frames[i]) == Some(Frame(true, 0xA, payloads[i]))
  }

  /** What SendFrame puts together is one client frame. */
  lemma FrameWritten(opcode: int, payload: Bytes, key: Bytes, bytes: Bytes)
    requires 0 <= opcode < 16 && |key| == 4 && |payload| < UINT64_LIMIT
    requires bytes == [FirstByte(true, opcode)] + LengthBytes(|payload|, ShortestForm(|payload|), true) + key
                      + Masked(payload, key)
    ensures ClientFrame(bytes) == Some(Frame(true, opcode, payload))
    ensures |bytes| == 2 + FormWidth(ShortestForm(|payload|)) + 4 + |payload|
  {
    hide DecodedFrame, Masked;
    ClientFrameRoundTrip(opcode, payload, key, []);
    assert bytes + [] == bytes;
    LengthRoundTrip(|payload|, ShortestForm(|payload|), true);
  }

  lemma FlattenedOnce(chunks: seq<Bytes>)
    ensures Flattened(chunks) == if chunks == [] then [] else chunks[0] + Flattened(chunks[1..])
  {
  }

  lemma NoBytes(n: nat)
    ensures BigEndian(n, 0) == []
  {
  }

  lemma TwoBytes(n: nat)
    ensures BigEndian(n, 2) == [(n / 0x100 % 0x100) as byte, (n % 0x100) as byte]
  {
    assert BigEndian(n / 0x100, 1) == BigEndian(n / 0x100 / 0x100, 0) + [(n / 0x100 % 0x100) as byte];
  }

  lemma BigEndianShift(n: nat, k: nat)
    ensures n / Power256(k) / 256 == n / Power256(k + 1)
  {
    DivDiv(n, Power256(k), 256);
  }
}
