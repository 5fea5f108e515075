/**
 The frame format of sections 5.2 and 5.3 of RFC 6455: how frames are laid out in bytes, and how a
 receiver that obeys the RFC takes them apart.
 */
module WebSocketFrames {
  import opened Common

  type Bytes = seq<byte>

  datatype Frame = Frame(fin: bool, opcode: int, payload: Bytes)

  const CONTINUATION := 0x0
  const TEXT := 0x1
  const BINARY := 0x2
  const CLOSE := 0x8
  const PING := 0x9
  const PONG := 0xA

  const UINT64_LIMIT := 0x1_0000_0000_0000_0000

  // ---------------------------------------------------------------------------------------------
  // Integers in network byte order

  function Power256(k: nat): (p: nat)
    ensures p > 0
  {
    if k == 0 then 1 else 256 * Power256(k - 1)
  }

  /** The low `k` octets of a number, most significant first. */
  function BigEndian(n: nat, k: nat): (bytes: Bytes)
    ensures |bytes| == k
  {
    if k == 0 then [] else BigEndian(n / 256, k - 1) + [(n % 256) as byte]
  }

  function FromBigEndian(bytes: Bytes): (n: nat)
    ensures n < Power256(|bytes|)
  {
    if bytes == [] then 0
    else FromBigEndian(bytes[..|bytes| - 1]) * 256 + bytes[|bytes| - 1] as nat
  }

  lemma {:induction false} BigEndianRoundTrip(n: nat, k: nat)
    requires n < Power256(k)
    ensures FromBigEndian(BigEndian(n, k)) == n
  {
    if k > 0 {
      BigEndianRoundTrip(n / 256, k - 1);
      assert BigEndian(n, k)[..k - 1] == BigEndian(n / 256, k - 1);
    }
  }

  /** An octet counts 256 times for each octet behind it. */
  lemma {:induction false} BigEndianIsPositional(x: Bytes, y: Bytes)
    ensures FromBigEndian(x + y) == FromBigEndian(x) * Power256(|y|) + FromBigEndian(y)
    ensures |y| == 1 ==> FromBigEndian(y) == y[0] as nat
  {
    if y == [] {
      assert x + y == x;
    } else {
      var z, last := y[..|y| - 1], y[|y| - 1];
      BigEndianIsPositional(x, z);
      assert (x + y)[..|x + y| - 1] == x + z && (x + y)[|x + y| - 1] == last;
      assert Power256(|y|) == 256 * Power256(|z|);
      Times256(FromBigEndian(x), Power256(|z|));
    }
  }

  lemma Times256(n: int, power: int)
    ensures n * power * 256 == n * (256 * power)
  {
  }

  lemma Powers()
    ensures Power256(0) == 1 && Power256(1) == 0x100 && Power256(2) == 0x1_0000
    ensures Power256(8) == UINT64_LIMIT
  {
    assert Power256(4) == 0x1_0000_0000;
  }

  // ---------------------------------------------------------------------------------------------
  // Masking, section 5.3

  /** Exclusive or of the low `k` bits. */
  function XorBits(a: nat, b: nat, k: nat): nat {
    if k == 0 then 0 else (a % 2 + b % 2) % 2 + 2 * XorBits(a / 2, b / 2, k - 1)
  }

  function PowerOfTwo(k: nat): nat {
    if k == 0 then 1 else 2 * PowerOfTwo(k - 1)
  }

  lemma {:induction false} XorBitsTwice(a: nat, b: nat, k: nat)
    requires a < PowerOfTwo(k)
    ensures XorBits(a, b, k) < PowerOfTwo(k) && XorBits(XorBits(a, b, k), b, k) == a
  {
    if k > 0 {
      XorBitsTwice(a / 2, b / 2, k - 1);
      var bit, high := (a % 2 + b % 2) % 2, XorBits(a / 2, b / 2, k - 1);
      BitTwice(a % 2, b % 2);
      DivMod(bit + 2 * high, high, 2, bit);
    }
  }

  lemma BitTwice(p: int, q: int)
    requires 0 <= p < 2 && 0 <= q < 2
    ensures ((p + q) % 2 + q) % 2 == p
  {
  }

  function Xor(a: byte, b: byte): byte {
    XorBitsTwice(a as nat, b as nat, 8);
    assert PowerOfTwo(4) == 16;
    XorBits(a as nat, b as nat, 8) as byte
  }

  function Bit(n: nat, k: nat): nat {
    if k == 0 then n % 2 else Bit(n / 2, k - 1)
  }

  /** Each bit of the result is set exactly if the bits there differ. */
  lemma {:induction false} XorByBits(a: nat, b: nat, k: nat, i: nat)
    requires i < k
    ensures Bit(XorBits(a, b, k), i) == if Bit(a, i) != Bit(b, i) then 1 else 0
  {
    var bit, high := (a % 2 + b % 2) % 2, XorBits(a / 2, b / 2, k - 1);
    DivMod(bit + 2 * high, high, 2, bit);
    if i > 0 {
      XorByBits(a / 2, b / 2, k - 1, i - 1);
    }
  }

  lemma XorIsBitwise(a: byte, b: byte, i: nat)
    requires i < 8
    ensures Bit(Xor(a, b) as nat, i) == if Bit(a as nat, i) != Bit(b as nat, i) then 1 else 0
  {
    hide XorBits, Bit;
    XorByBits(a as nat, b as nat, 8, i);
  }

  lemma XorTwice(a: byte, b: byte)
    ensures Xor(Xor(a, b), b) == a
  {
    assert PowerOfTwo(4) == 16;
    XorBitsTwice(a as nat, b as nat, 8);
  }

  /** Octet i of the payload is combined with octet i modulo 4 of the key; the operation is its own inverse. */
  function Masked(payload: Bytes, key: Bytes): (masked: Bytes)
    requires |key| == 4
    ensures |masked| == |payload|
  {
    seq(|payload|, i requires 0 <= i < |payload| => Xor(payload[i], key[i % 4]))
  }

  lemma MaskedTwice(payload: Bytes, key: Bytes)
    requires |key| == 4
    ensures Masked(Masked(payload, key), key) == payload
  {
    forall i | 0 <= i < |payload| ensures Masked(Masked(payload, key), key)[i] == payload[i] {
      XorTwice(payload[i], key[i % 4]);
    }
  }

  // ---------------------------------------------------------------------------------------------
  // Layout of a frame, section 5.2

  /** How many octets the extended payload length takes: none, two or eight. */
  datatype LengthForm = Short | Extended16 | Extended64

  function FormWidth(form: LengthForm): nat {
    match form case Short => 0 case Extended16 => 2 case Extended64 => 8
  }

  predicate Fits(length: nat, form: LengthForm) {
    match form
    case Short => length <= 125
    case Extended16 => length < 0x1_0000
    case Extended64 => length < UINT64_LIMIT
  }

  function ShortestForm(length: nat): (form: LengthForm)
    ensures length < UINT64_LIMIT ==> Fits(length, form)
    ensures forall other | Fits(length, other) :: FormWidth(form) <= FormWidth(other)
  {
    if length <= 125 then Short else if length < 0x1_0000 then Extended16 else Extended64
  }

  function FirstByte(fin: bool, opcode: int): byte
    requires 0 <= opcode < 16
  {
    ((if fin then 0x80 else 0) + opcode) as byte
  }

  /** The mask bit, the 7-bit length and the extended length. */
  function LengthBytes(length: nat, form: LengthForm, mask: bool): Bytes
    requires Fits(length, form)
  {
    var bit := if mask then 0x80 else 0;
    [match form
     case Short => (bit + length) as byte
     case Extended16 => (bit + 126) as byte
     case Extended64 => (bit + 127) as byte]
    + BigEndian(length, FormWidth(form))
  }

  /** A frame as a server sends it, unmasked; any form of length that fits is allowed here. */
  function ServerBytes(frame: Frame, form: LengthForm): Bytes
    requires 0 <= frame.opcode < 16 && Fits(|frame.payload|, form)
  {
    [FirstByte(frame.fin, frame.opcode)] + LengthBytes(|frame.payload|, form, false) + frame.payload
  }

  // ---------------------------------------------------------------------------------------------
  // Taking frames apart

  /** The next frame of a byte stream: not all there, masked, or a frame and the bytes after it. */
  datatype FrameRead = Incomplete | MaskedFrame(frame: Frame, rest: Bytes) | PlainFrame(frame: Frame, rest: Bytes)

  function Fin(first: byte): bool { first as int / 0x80 == 1 }
  function Opcode(first: byte): int { first as int % 0x10 }
  function MaskBit(second: byte): bool { second as int / 0x80 == 1 }
  function Length7(second: byte): nat { second as int % 0x80 }

  function ExtendedWidth(length7: nat): nat {
    if length7 == 126 then 2 else if length7 == 127 then 8 else 0
  }

  /** Decodes one frame by sections 5.2 and 5.3, unmasking the payload when the mask bit is set. */
  function DecodedFrame(stream: Bytes): (read: FrameRead)
    ensures !read.Incomplete? ==> |read.rest| < |stream|
  {
    if |stream| < 2 then Incomplete
    else
      var width, mask := ExtendedWidth(Length7(stream[1])), MaskBit(stream[1]);
      var start := 2 + width + if mask then 4 else 0;
      if |stream| < start then Incomplete
      else
        var length := if width == 0 then Length7(stream[1]) else FromBigEndian(stream[2..2 + width]);
        if |stream| < start + length then Incomplete
        else
          var data, rest := stream[start..start + length], stream[start + length..];
          var fin, opcode := Fin(stream[0]), Opcode(stream[0]);
          if mask then MaskedFrame(Frame(fin, opcode, Masked(data, stream[start - 4..start])), rest)
          else PlainFrame(Frame(fin, opcode, data), rest)
  }

  lemma HeaderBits(fin: bool, opcode: int, mask: bool, length7: nat)
    requires 0 <= opcode < 16 && length7 < 128
    ensures Fin(FirstByte(fin, opcode)) == fin && Opcode(FirstByte(fin, opcode)) == opcode
    ensures MaskBit(((if mask then 0x80 else 0) + length7) as byte) == mask
    ensures Length7(((if mask then 0x80 else 0) + length7) as byte) == length7
  {
  }

  /** The header of any frame reads back as the length it was written for. */
  lemma LengthRoundTrip(length: nat, form: LengthForm, mask: bool)
    requires Fits(length, form)
    ensures var bytes := LengthBytes(length, form, mask);
            && |bytes| == 1 + FormWidth(form)
            && MaskBit(bytes[0]) == mask && ExtendedWidth(Length7(bytes[0])) == FormWidth(form)
            && (form == Short ==> Length7(bytes[0]) == length)
            && (form != Short ==> FromBigEndian(bytes[1..]) == length)
  {
    Powers();
    var length7 := match form case Short => length case Extended16 => 126 case Extended64 => 127;
    HeaderBits(true, 0, mask, length7);
    if form != Short {
      BigEndianRoundTrip(length, FormWidth(form));
    }
  }

  lemma ServerFrameRoundTrip(frame: Frame, form: LengthForm, rest: Bytes)
    requires 0 <= frame.opcode < 16 && Fits(|frame.payload|, form)
    ensures DecodedFrame(ServerBytes(frame, form) + rest) == PlainFrame(frame, rest)
  {
    hide LengthBytes, FromBigEndian, Fin, Opcode, MaskBit, Length7, FirstByte, Fits;
    var length, width := |frame.payload|, FormWidth(form);
    var lengthBytes := LengthBytes(length, form, false);
    LengthRoundTrip(length, form, false);
    HeaderBits(frame.fin, frame.opcode, false, 0);
    var stream := ServerBytes(frame, form) + rest;
    assert stream[0] == FirstByte(frame.fin, frame.opcode) && stream[1] == lengthBytes[0];
    assert stream[2..2 + width] == lengthBytes[1..];
    assert stream[2 + width..2 + width + length] == frame.payload;
    assert stream[2 + width + length..] == rest;
  }

  /** A frame as a client sends it: final, masked, with the shortest length. */
  function ClientBytes(opcode: int, payload: Bytes, key: Bytes): Bytes
    requires 0 <= opcode < 16 && |key| == 4 && |payload| < UINT64_LIMIT
  {
    [FirstByte(true, opcode)] + LengthBytes(|payload|, ShortestForm(|payload|), true) + key + Masked(payload, key)
  }

  /** A receiver that obeys the RFC recovers what a client frame was made from, whatever the key. */
  lemma ClientFrameRoundTrip(opcode: int, payload: Bytes, key: Bytes, rest: Bytes)
    requires 0 <= opcode < 16 && |key| == 4 && |payload| < UINT64_LIMIT
    ensures DecodedFrame(ClientBytes(opcode, payload, key) + rest) == MaskedFrame(Frame(true, opcode, payload), rest)
  {
    hide LengthBytes, FromBigEndian, Fin, Opcode, MaskBit, Length7, FirstByte, Fits, Masked;
    var form := ShortestForm(|payload|);
    var length, width := |payload|, FormWidth(form);
    var lengthBytes := LengthBytes(length, form, true);
    LengthRoundTrip(length, form, true);
    HeaderBits(true, opcode, true, 0);
    MaskedTwice(payload, key);
    var stream := ClientBytes(opcode, payload, key) + rest;
    var start := 6 + width;
    assert stream[0] == FirstByte(true, opcode) && stream[1] == lengthBytes[0];
    assert stream[2..2 + width] == lengthBytes[1..];
    assert stream[start - 4..start] == key;
    assert stream[start..start + length] == Masked(payload, key);
    assert stream[start + length..] == rest;
  }

  /** The single frame that a run of bytes holds, if it is exactly one masked frame. */
  function ClientFrame(bytes: Bytes): Option<Frame> {
    match DecodedFrame(bytes)
    case MaskedFrame(frame, rest) => if rest == [] then Some(frame) else None
    case _ => None
  }

  // ---------------------------------------------------------------------------------------------
  // The bytes of a frame, one by one

  /** A length in 7 bits and what extends it: two octets behind 126, eight behind 127, none otherwise. */
  predicate IsLength(length7: int, extended: Bytes, length: nat) {
    if length7 == 126 then |extended| == 2 && length == FromBigEndian(extended)
    else if length7 == 127 then |extended| == 8 && length == FromBigEndian(extended)
    else extended == [] && length == length7
  }

  /** The payload is the data, unmasked if there is a key. */
  predicate IsUnmasked(data: Bytes, key: Bytes, payload: Bytes) {
    if key == [] then payload == data
    else
      && |key| == 4 && |payload| == |data|
      && forall i | 0 <= i < |data| :: payload[i] == Xor(data[i], key[i % 4])
  }

  /**
   A frame by its octets: 128 in the first is the FIN bit and the rest the opcode; 128 in the second says
   that a key of four octets comes before the data.
   */
  ghost predicate IsFrame(
      first: byte, second: byte, extended: Bytes, key: Bytes, data: Bytes, frame: Frame)
  {
    && IsLength(second as int % 128, extended, |data|)
    && |key| == (if second as int >= 128 then 4 else 0)
    && frame.fin == (first as int >= 128) && frame.opcode == first as int % 16
    && IsUnmasked(data, key, frame.payload)
  }

  /** Whatever octets make up a frame, that frame is read from them, and what follows is left. */
  lemma FrameIsRead(
      first: byte, second: byte, extended: Bytes, key: Bytes, data: Bytes, frame: Frame, rest: Bytes)
    requires IsFrame(first, second, extended, key, data, frame)
    ensures DecodedFrame([first, second] + extended + key + data + rest) ==
            if second as int >= 128 then MaskedFrame(frame, rest) else PlainFrame(frame, rest)
  {
    hide FromBigEndian, Masked, Xor;
    var stream := [first, second] + extended + key + data + rest;
    var width, start := |extended|, 2 + |extended| + |key|;
    assert stream[0] == first && stream[1] == second;
    assert stream[2..2 + width] == extended;
    assert stream[start - |key|..start] == key;
    assert stream[start..start + |data|] == data && stream[start + |data|..] == rest;
    if second as int >= 128 {
      UnmaskedIs(data, key, frame.payload);
    }
  }

  lemma UnmaskedIs(data: Bytes, key: Bytes, payload: Bytes)
    requires |key| == 4
    ensures IsUnmasked(data, key, payload) <==> payload == Masked(data, key)
  {
    hide Xor;
  }

  /** And whenever a frame is read, its octets are at the beginning of the stream. */
  lemma FrameWasThere(stream: Bytes) returns (extended: Bytes, key: Bytes, data: Bytes)
    requires !DecodedFrame(stream).Incomplete?
    ensures |stream| >= 2
    ensures var read := DecodedFrame(stream);
            && IsFrame(stream[0], stream[1], extended, key, data, read.frame)
            && stream == [stream[0], stream[1]] + extended + key + data + read.rest
            && (read.MaskedFrame? <==> stream[1] as int >= 128)
  {
    hide FromBigEndian, Masked, Xor, IsUnmasked;
    var width := ExtendedWidth(Length7(stream[1]));
    var start := 2 + width + if MaskBit(stream[1]) then 4 else 0;
    var read := DecodedFrame(stream);
    var end := |stream| - |read.rest|;
    extended, key, data := stream[2..2 + width], stream[2 + width..start], stream[start..end];
    assert IsUnmasked(data, key, read.frame.payload) by {
      if MaskBit(stream[1]) {
        UnmaskedIs(data, key, read.frame.payload);
      } else {
        PlainIs(data);
      }
    }
    hide DecodedFrame;
    InFive(stream, 2 + width, start, end);
  }

  lemma PlainIs(data: Bytes)
    ensures IsUnmasked(data, [], data)
  {
  }

  lemma InFive(stream: Bytes, a: nat, b: nat, c: nat)
    requires 2 <= a <= b <= c <= |stream|
    ensures stream == [stream[0], stream[1]] + stream[2..a] + stream[a..b] + stream[b..c] + stream[c..]
  {
  }
}
