/**
 The Base64 codec of the proxy runtime: the encoder of the gateway client and the two decoders
 (the strict one of the runtime and the whitespace-stripping one of the model description).
 */
module Base64 {
  import opened Common

  /** The character of one 6-bit digit, table 1 of RFC 4648. */
  function Digit(n: int): char
    requires 0 <= n < 64
  {
    if n < 26 then 'A' + n as char
    else if n < 52 then 'a' + (n - 26) as char
    else if n < 62 then '0' + (n - 52) as char
    else if n == 62 then '+' else '/'
  }

  const NOT_A_DIGIT := -1
  const PAD := -2

  /** The decoders' lookup table: a 6-bit digit, PAD for '=', NOT_A_DIGIT for anything else. */
  function Lookup(c: char): (digit: int)
    ensures -2 <= digit < 64
    ensures digit == PAD <==> c == '='
  {
    if 'A' <= c <= 'Z' then c as int - 'A' as int
    else if 'a' <= c <= 'z' then c as int - 'a' as int + 26
    else if '0' <= c <= '9' then c as int - '0' as int + 52
    else if c == '+' then 62
    else if c == '/' then 63
    else if c == '=' then PAD
    else NOT_A_DIGIT
  }

  lemma LookupInvertsDigit(n: int)
    requires 0 <= n < 64
    ensures Lookup(Digit(n)) == n && Digit(n) != '=' && !IsSpace(Digit(n))
  {
  }

  // ---------------------------------------------------------------------------------------------
  // Specification, section 4 of RFC 4648

  /** The four digits of a group of three octets, most significant first. */
  function Quad(a: int, b: int, c: int): (group: string)
    requires 0 <= a < 256 && 0 <= b < 256 && 0 <= c < 256
    ensures |group| == 4
  {
    [Digit(a / 4), Digit(a % 4 * 16 + b / 16), Digit(b % 16 * 4 + c / 64), Digit(c % 64)]
  }

  /** Three octets become four digits; a final group of one or two octets is padded with '='. */
  function Encoded(data: seq<byte>): string {
    if |data| == 0 then ""
    else if |data| == 1 then Quad(data[0] as int, 0, 0)[..2] + "=="
    else if |data| == 2 then Quad(data[0] as int, data[1] as int, 0)[..3] + "="
    else Quad(data[0] as int, data[1] as int, data[2] as int) + Encoded(data[3..])
  }

  /** The octets of one group of four characters; a padding character yields no octet. */
  function DecodedGroup(group: string): Option<seq<byte>>
    requires |group| == 4
  {
    var a, b, c, d := Lookup(group[0]), Lookup(group[1]), Lookup(group[2]), Lookup(group[3]);
    if a < 0 || b < 0 || c == NOT_A_DIGIT || d == NOT_A_DIGIT then None else Some(GroupOctets(a, b, c, d))
  }

  function GroupOctets(a: int, b: int, c: int, d: int): seq<byte>
    requires 0 <= a < 64 && 0 <= b < 64 && (0 <= c < 64 || c == PAD) && (0 <= d < 64 || d == PAD)
  {
    var c6, d6 := if c < 0 then 0 else c, if d < 0 then 0 else d;
    [(a * 4 + b / 16) as byte]
    + (if c == PAD then [] else [(b % 16 * 16 + c6 / 4) as byte])
    + (if d == PAD then [] else [(c6 % 4 * 64 + d6) as byte])
  }

  function Decoded(text: string): Option<seq<byte>> {
    if text == "" then Some([])
    else if |text| < 4 then None
    else
      var head, tail := DecodedGroup(text[..4]), Decoded(text[4..]);
      if head.None? || tail.None? then None else Some(head.value + tail.value)
  }

  function WithoutSpaces(text: string): string {
    if text == "" then ""
    else (if IsSpace(text[0]) then "" else [text[0]]) + WithoutSpaces(text[1..])
  }

  // ---------------------------------------------------------------------------------------------
  // The loops of the source

  /** Shifting and masking a 24-bit chunk picks out its four 6-bit digits. */
  lemma ChunkDigits(a: int, b: int, c: int)
    requires 0 <= a < 256 && 0 <= b < 256 && 0 <= c < 256
    ensures var chunk := a * 0x10000 + b * 0x100 + c;
            [Digit(chunk / 0x40000 % 64), Digit(chunk / 0x1000 % 64), Digit(chunk / 0x40 % 64), Digit(chunk % 64)]
            == Quad(a, b, c)
  {
    var chunk := a * 0x10000 + b * 0x100 + c;
    var w, x, y, z := a / 4, a % 4 * 16 + b / 16, b % 16 * 4 + c / 64, c % 64;
    assert chunk == w * 0x40000 + x * 0x1000 + y * 0x40 + z;
    DivMod(chunk, w, 0x40000, x * 0x1000 + y * 0x40 + z);
    DivMod(chunk, w * 64 + x, 0x1000, y * 0x40 + z);
    DivMod(chunk, w * 0x1000 + x * 64 + y, 0x40, z);
    DivMod(w, 0, 64, w);
    DivMod(w * 64 + x, w, 64, x);
    DivMod(w * 0x1000 + x * 64 + y, w * 64 + x, 64, y);
  }

  /** ... and a 24-bit triple into its three octets. */
  lemma TripleOctets(a: int, b: int, c: int, d: int)
    requires 0 <= a < 64 && 0 <= b < 64 && 0 <= c < 64 && 0 <= d < 64
    ensures var triple := a * 0x40000 + b * 0x1000 + c * 0x40 + d;
            && triple / 0x10000 == a * 4 + b / 16
            && triple / 0x100 % 0x100 == b % 16 * 16 + c / 4
            && triple % 0x100 == c % 4 * 64 + d
  {
    var triple := a * 0x40000 + b * 0x1000 + c * 0x40 + d;
    var x, y, z := a * 4 + b / 16, b % 16 * 16 + c / 4, c % 4 * 64 + d;
    assert triple == x * 0x10000 + y * 0x100 + z;
    DivMod(triple, x, 0x10000, y * 0x100 + z);
    DivMod(triple, x * 0x100 + y, 0x100, z);
    DivMod(x * 0x100 + y, x, 0x100, y);
  }

  method Encode(data: seq<byte>) returns (encoded: string)
    ensures encoded == Encoded(data)
  {
    hide Digit, Quad;
    encoded := "";
    var index := 0;
    assert data[0..] == data;
    while index + 3 <= |data|
      invariant 0 <= index <= |data|
      invariant encoded + Encoded(data[index..]) == Encoded(data)
    {
      var chunk := data[index] as int * 0x10000 + data[index + 1] as int * 0x100 + data[index + 2] as int;
      var quad := [Digit(chunk / 0x40000 % 64), Digit(chunk / 0x1000 % 64),
                   Digit(chunk / 0x40 % 64), Digit(chunk % 64)];
      assert Encoded(data[index..]) == quad + Encoded(data[index + 3..]) by {
        assert data[index..][3..] == data[index + 3..];
        ChunkDigits(data[index] as int, data[index + 1] as int, data[index + 2] as int);
      }
      Associate(encoded, quad, Encoded(data[index + 3..]));
      encoded := encoded + quad;
      index := index + 3;
    }
    var remaining := |data| - index;
    var tail := "";
    if remaining == 1 {
      var chunk := data[index] as int * 0x10000;
      tail := [Digit(chunk / 0x40000 % 64), Digit(chunk / 0x1000 % 64), '=', '='];
      assert tail == Quad(data[index] as int, 0, 0)[..2] + "==" by {
        ChunkDigits(data[index] as int, 0, 0);
      }
    } else if remaining == 2 {
      var chunk := data[index] as int * 0x10000 + data[index + 1] as int * 0x100;
      tail := [Digit(chunk / 0x40000 % 64), Digit(chunk / 0x1000 % 64), Digit(chunk / 0x40 % 64), '='];
      assert tail == Quad(data[index] as int, data[index + 1] as int, 0)[..3] + "=" by {
        ChunkDigits(data[index] as int, data[index + 1] as int, 0);
      }
    }
    assert tail == Encoded(data[index..]);
    encoded := encoded + tail;
  }

  /** The runtime's decoder. */
  method Decode(text: string) returns (result: Option<seq<byte>>)
    ensures result == Decoded(text)
  {
    hide Lookup, Decoded, Prepend, GroupOctets;
    if |text| % 4 != 0 {
      DecodedNeedsWholeGroups(text);
      return None;
    }
    var output: seq<byte> := [];
    var index := 0;
    assert text[0..] == text;
    PrependEnds(output, Decoded(text));
    while index < |text|
      invariant 0 <= index <= |text| && (|text| - index) % 4 == 0
      invariant Decoded(text) == Prepend(output, Decoded(text[index..]))
    {
      DecodedStep(output, text, index);
      var a := Lookup(text[index]);
      var b := Lookup(text[index + 1]);
      var c := if text[index + 2] == '=' then PAD else Lookup(text[index + 2]);
      var d := if text[index + 3] == '=' then PAD else Lookup(text[index + 3]);
      if a < 0 || b < 0 || c == NOT_A_DIGIT || d == NOT_A_DIGIT {
        return None;
      }
      var octets := PushOctets(a, b, c, d);
      output := output + octets;
      index := index + 4;
    }
    assert text[index..] == "";
    PrependEnds(output, Decoded(text));
    return Some(output);
  }

  /** The octets that one group of digits pushes. */
  method PushOctets(a: int, b: int, c: int, d: int) returns (octets: seq<byte>)
    requires 0 <= a < 64 && 0 <= b < 64 && (0 <= c < 64 || c == PAD) && (0 <= d < 64 || d == PAD)
    ensures octets == GroupOctets(a, b, c, d)
  {
    var c6, d6 := if c < 0 then 0 else c, if d < 0 then 0 else d;
    TripleOctets(a, b, c6, d6);
    var triple := a * 0x40000 + b * 0x1000 + c6 * 0x40 + d6;
    octets := [(triple / 0x10000) as byte];
    if c != PAD {
      octets := octets + [(triple / 0x100 % 0x100) as byte];
    }
    if d != PAD {
      octets := octets + [(triple % 0x100) as byte];
    }
  }

  function Prepend(head: seq<byte>, tail: Option<seq<byte>>): Option<seq<byte>> {
    if tail.None? then None else Some(head + tail.value)
  }

  lemma PrependEnds(output: seq<byte>, tail: Option<seq<byte>>)
    ensures Prepend([], tail) == tail && Prepend(output, Decoded("")) == Some(output)
  {
    assert tail.Some? ==> [] + tail.value == tail.value;
    assert output + [] == output;
  }

  lemma DecodedStep(output: seq<byte>, text: string, index: nat)
    requires index + 4 <= |text|
    ensures var a, b, c, d := Lookup(text[index]), Lookup(text[index + 1]), Lookup(text[index + 2]),
            Lookup(text[index + 3]);
            Prepend(output, Decoded(text[index..])) ==
            if a < 0 || b < 0 || c == NOT_A_DIGIT || d == NOT_A_DIGIT then None
            else Prepend(output + GroupOctets(a, b, c, d), Decoded(text[index + 4..]))
  {
    hide Lookup, GroupOctets;
    var group, rest := text[index..][..4], Decoded(text[index + 4..]);
    assert text[index..][4..] == text[index + 4..];
    var octets := DecodedGroup(group);
    if octets.Some? && rest.Some? {
      Associate(output, octets.value, rest.value);
    }
  }

  /** The model description's decoder: drops white space first. */
  method DecodeCompacting(text: string) returns (result: Option<seq<byte>>)
    ensures result == Decoded(WithoutSpaces(text))
  {
    hide WithoutSpaces;
    var compact := "";
    CompactEnds(compact, text);
    for i := 0 to |text|
      invariant compact + WithoutSpaces(text[i..]) == WithoutSpaces(text)
    {
      CompactStep(compact, text, i);
      if !IsSpace(text[i]) {
        compact := compact + [text[i]];
      }
    }
    CompactEnds(compact, text);
    result := Decode(compact);
  }

  lemma CompactEnds(compact: string, text: string)
    ensures "" + WithoutSpaces(text[0..]) == WithoutSpaces(text)
    ensures compact + WithoutSpaces(text[|text|..]) == compact
  {
    assert text[0..] == text;
  }

  lemma CompactStep(compact: string, text: string, i: nat)
    requires i < |text|
    ensures compact + WithoutSpaces(text[i..])
         == (if IsSpace(text[i]) then compact else compact + [text[i]]) + WithoutSpaces(text[i + 1..])
  {
    assert text[i..][1..] == text[i + 1..];
    if !IsSpace(text[i]) {
      Associate(compact, [text[i]], WithoutSpaces(text[i + 1..]));
    }
  }

  // ---------------------------------------------------------------------------------------------
  // Properties

  lemma {:induction false} DecodedNeedsWholeGroups(text: string)
    requires |text| % 4 != 0
    ensures Decoded(text) == None
  {
    if |text| >= 4 {
      DecodedNeedsWholeGroups(text[4..]);
    }
  }

  lemma QuadLookup(a: int, b: int, c: int)
    requires 0 <= a < 256 && 0 <= b < 256 && 0 <= c < 256
    ensures Lookup(Quad(a, b, c)[0]) == a / 4 && Lookup(Quad(a, b, c)[1]) == a % 4 * 16 + b / 16
    ensures Lookup(Quad(a, b, c)[2]) == b % 16 * 4 + c / 64 && Lookup(Quad(a, b, c)[3]) == c % 64
    ensures forall i | 0 <= i < 4 :: PlainOrPad(Quad(a, b, c)[i], false)
  {
    LookupInvertsDigit(a / 4);
    LookupInvertsDigit(a % 4 * 16 + b / 16);
    LookupInvertsDigit(b % 16 * 4 + c / 64);
    LookupInvertsDigit(c % 64);
  }

  lemma GroupRoundTrip(data: seq<byte>)
    requires 0 < |data| <= 3
    ensures |Encoded(data)| == 4 && DecodedGroup(Encoded(data)) == Some(data)
  {
    hide Digit, Quad, Lookup;
    var a := data[0] as int;
    var b := if |data| < 2 then 0 else data[1] as int;
    var c := if |data| < 3 then 0 else data[2] as int;
    QuadLookup(a, b, c);
    DivMod(a % 4 * 16 + b / 16, a % 4, 16, b / 16);
    DivMod(b % 16 * 4 + c / 64, b % 16, 4, c / 64);
    var group := Encoded(data);
    assert data[0] as int == a && (|data| > 1 ==> data[1] as int == b) && (|data| > 2 ==> data[2] as int == c);
    if |data| == 1 {
      assert group == Quad(a, b, c)[..2] + "==";
    } else if |data| == 2 {
      assert group == Quad(a, b, c)[..3] + "=";
    } else {
      assert group == Quad(a, b, c) + Encoded(data[3..]);
      assert group == Quad(a, b, c);
    }
    assert DecodedGroup(group).value == data;
  }

  /** Decoding inverts encoding on every byte sequence. */
  lemma {:induction false} RoundTrip(data: seq<byte>)
    ensures Decoded(Encoded(data)) == Some(data)
    decreases |data|
  {
    if |data| != 0 {
      var head, tail := data[..if |data| < 3 then |data| else 3], if |data| < 3 then [] else data[3..];
      GroupRoundTrip(head);
      RoundTrip(tail);
      assert data == head + tail;
      assert Encoded(data) == Encoded(head) + Encoded(tail);
      assert Encoded(data)[..4] == Encoded(head) && Encoded(data)[4..] == Encoded(tail);
    }
  }

  /** Hence no two byte sequences share an encoding. */
  lemma EncodingIsInjective(x: seq<byte>, y: seq<byte>)
    requires Encoded(x) == Encoded(y)
    ensures x == y
  {
    RoundTrip(x);
    RoundTrip(y);
  }

  /** The shape that section 4 of RFC 4648 prescribes: whole groups, and padding at the end only. */
  lemma {:induction false} EncodedShape(data: seq<byte>)
    ensures |Encoded(data)| == (|data| + 2) / 3 * 4
    ensures forall i | 0 <= i < |Encoded(data)| :: PlainOrPad(Encoded(data)[i], i >= |Encoded(data)| - Padding(data))
  {
    hide Quad, PlainOrPad, Encoded, Padding;
    if |data| >= 3 {
      var tail := data[3..];
      EncodedShape(tail);
      QuadLookup(data[0] as int, data[1] as int, data[2] as int);
      EncodedStep(data);
      LengthStep(data);
      ShapeOfConcat(Quad(data[0] as int, data[1] as int, data[2] as int), Encoded(tail), Padding(tail));
    } else if |data| > 0 {
      ShapeOfEnd(data);
    } else {
      NothingEncoded();
    }
  }

  lemma NothingEncoded()
    ensures Encoded([]) == ""
  {
  }

  lemma EncodedStep(data: seq<byte>)
    requires |data| >= 3
    ensures Encoded(data) == Quad(data[0] as int, data[1] as int, data[2] as int) + Encoded(data[3..])
  {
    hide Quad;
  }

  /** Three octets more make one group more, and the same padding. */
  lemma LengthStep(data: seq<byte>)
    requires |data| >= 3
    ensures Padding(data) == Padding(data[3..]) && (|data| + 2) / 3 == (|data[3..]| + 2) / 3 + 1
    ensures Padding(data[3..]) <= (|data[3..]| + 2) / 3 * 4
  {
    hide Encoded;
    assert |data[3..]| == |data| - 3;
  }

  lemma ShapeOfEnd(data: seq<byte>)
    requires 0 < |data| < 3
    ensures |Encoded(data)| == 4
    ensures forall i | 0 <= i < 4 :: PlainOrPad(Encoded(data)[i], i >= 4 - Padding(data))
  {
    hide Quad, Lookup;
    var second := if |data| == 1 then 0 else data[1] as int;
    QuadLookup(data[0] as int, second, 0);
    var quad, pads := Quad(data[0] as int, second, 0), if |data| == 1 then "==" else "=";
    assert Encoded(data) == quad[..1 + |data|] + pads;
    assert Lookup('=') == PAD;
  }

  lemma ShapeOfConcat(head: string, tail: string, padding: nat)
    requires padding <= |tail|
    requires forall i | 0 <= i < |head| :: PlainOrPad(head[i], false)
    requires forall i | 0 <= i < |tail| :: PlainOrPad(tail[i], i >= |tail| - padding)
    ensures forall i | 0 <= i < |head + tail| :: PlainOrPad((head + tail)[i], i >= |head + tail| - padding)
  {
    hide *;
  }

  /** The number of '=' characters at the end of an encoding. */
  function Padding(data: seq<byte>): nat {
    (3 - |data| % 3) % 3
  }

  predicate PlainOrPad(c: char, pad: bool) {
    (c == '=' <==> pad) && Lookup(c) != NOT_A_DIGIT && !IsSpace(c)
  }

  lemma {:induction false} NothingToStrip(text: string)
    requires forall i | 0 <= i < |text| :: !IsSpace(text[i])
    ensures WithoutSpaces(text) == text
  {
    if text != "" {
      NothingToStrip(text[1..]);
    }
  }

  lemma {:induction false} StrippedApart(x: string, y: string)
    ensures WithoutSpaces(x + y) == WithoutSpaces(x) + WithoutSpaces(y)
  {
    if x == "" {
      assert x + y == y;
    } else {
      assert (x + y)[1..] == x[1..] + y;
      StrippedApart(x[1..], y);
      Associate(if IsSpace(x[0]) then "" else [x[0]], WithoutSpaces(x[1..]), WithoutSpaces(y));
    }
  }

  /** White space, wherever it stands, makes no difference to the model description's decoder. */
  lemma SpaceDoesNotMatter(x: string, space: char, y: string)
    requires space in [' ', '\t', '\n', 11 as char, 12 as char, '\r']
    ensures WithoutSpaces(x + [space] + y) == WithoutSpaces(x + y)
  {
    StrippedApart(x + [space], y);
    StrippedApart(x, [space]);
    StrippedApart(x, y);
    assert [space][1..] == "";
    assert WithoutSpaces([space]) == "";
    assert WithoutSpaces(x) + "" == WithoutSpaces(x);
  }

  /** The two decoders agree wherever the text has no white space, in particular on encoder output. */
  lemma DecodersAgree(text: string)
    ensures (forall i | 0 <= i < |text| :: !IsSpace(text[i])) ==> Decoded(WithoutSpaces(text)) == Decoded(text)
  {
    if forall i | 0 <= i < |text| :: !IsSpace(text[i]) {
      NothingToStrip(text);
    }
  }

  // ---------------------------------------------------------------------------------------------
  // What digits and octets mean: the alphabet and the bits of section 4 of RFC 4648

  const UPPER := "ABCDEFGHIJKLMNOPQRSTUVWXYZ"
  const LOWER := "abcdefghijklmnopqrstuvwxyz"
  const ALPHABET := UPPER + LOWER + "0123456789+/"

  lemma UpperIs(n: int)
    requires 0 <= n < 26
    ensures UPPER[n] == 'A' + n as char
  {
  }

  lemma LowerIs(n: int)
    requires 0 <= n < 26
    ensures LOWER[n] == 'a' + n as char
  {
  }

  lemma AlphabetSize()
    ensures |UPPER| == 26 && |LOWER| == 26 && |ALPHABET| == 64
  {
  }

  lemma DigitIs(n: int)
    requires 0 <= n < 64
    ensures |ALPHABET| == 64 && Digit(n) == ALPHABET[n]
  {
    hide UPPER, LOWER;
    AlphabetSize();
    if n < 26 {
      UpperIs(n);
    } else if n < 52 {
      LowerIs(n - 26);
    }
  }

  /** The table of the decoders is the alphabet, backwards. */
  lemma LookupIff(c: char, n: int)
    requires 0 <= n < 64
    ensures |ALPHABET| == 64 && (Lookup(c) == n <==> ALPHABET[n] == c)
  {
    hide ALPHABET;
    DigitIs(n);
    LookupInvertsDigit(n);
    if Lookup(c) == n {
      assert Digit(n) == c;
    }
  }

  /** Four digits or three octets as one number of 24 bits. */
  function Bits(x: int, y: int, z: int, base: int): int {
    (x * base + y) * base + z
  }

  /** The characters say the octets: 24 bits in four digits, of which the last ones are left out for missing octets. */
  ghost predicate GroupSays(group: string, octets: seq<byte>) {
    exists a, b, c, d :: IsGroup(group, octets, a, b, c, d)
  }

  ghost predicate IsGroup(group: string, octets: seq<byte>, a: int, b: int, c: int, d: int) {
    && |ALPHABET| == 64 && 1 <= |octets| <= 3
    && 0 <= a < 64 && 0 <= b < 64 && 0 <= c < 64 && 0 <= d < 64
    && group == [ALPHABET[a], ALPHABET[b], if |octets| > 1 then ALPHABET[c] else '=',
                 if |octets| > 2 then ALPHABET[d] else '=']
    && (|octets| == 1 ==> c == 0) && (|octets| <= 2 ==> d == 0)
    && Bits(a * 64 + b, c, d, 64)
       == Bits(octets[0] as int, if |octets| > 1 then octets[1] as int else 0,
               if |octets| > 2 then octets[2] as int else 0, 256)
  }

  /** The four digits of three octets. */
  function Sextets(x: int, y: int, z: int): (digits: seq<int>)
    requires 0 <= x < 256 && 0 <= y < 256 && 0 <= z < 256
    ensures |digits| == 4 && forall i | 0 <= i < 4 :: 0 <= digits[i] < 64
    ensures z == 0 ==> digits[3] == 0
    ensures y == 0 && z == 0 ==> digits[2] == 0
  {
    [x / 4, x % 4 * 16 + y / 16, y % 16 * 4 + z / 64, z % 64]
  }

  lemma SextetBits(x: int, y: int, z: int)
    requires 0 <= x < 256 && 0 <= y < 256 && 0 <= z < 256
    ensures var digits := Sextets(x, y, z);
            Bits(digits[0] * 64 + digits[1], digits[2], digits[3], 64) == Bits(x, y, z, 256)
  {
  }

  lemma QuadIs(x: int, y: int, z: int)
    requires 0 <= x < 256 && 0 <= y < 256 && 0 <= z < 256
    ensures |ALPHABET| == 64
    ensures var digits := Sextets(x, y, z);
            Quad(x, y, z) == [ALPHABET[digits[0]], ALPHABET[digits[1]], ALPHABET[digits[2]], ALPHABET[digits[3]]]
  {
    hide ALPHABET, Digit;
    var digits := Sextets(x, y, z);
    DigitIs(digits[0]);
    DigitIs(digits[1]);
    DigitIs(digits[2]);
    DigitIs(digits[3]);
  }

  lemma GroupIs(octets: seq<byte>)
    requires 1 <= |octets| <= 3
    ensures GroupSays(Encoded(octets), octets)
  {
    hide ALPHABET, Bits, Sextets, Quad;
    var x := octets[0] as int;
    var y, z := if |octets| > 1 then octets[1] as int else 0, if |octets| > 2 then octets[2] as int else 0;
    var digits := Sextets(x, y, z);
    SextetBits(x, y, z);
    QuadIs(x, y, z);
    OneGroup(octets, x, y, z);
    hide Encoded;
    assert IsGroup(Encoded(octets), octets, digits[0], digits[1], digits[2], digits[3]);
  }

  lemma OneGroup(octets: seq<byte>, x: int, y: int, z: int)
    requires 1 <= |octets| <= 3 && x == octets[0] as int
    requires y == (if |octets| > 1 then octets[1] as int else 0) && z == if |octets| > 2 then octets[2] as int else 0
    ensures var quad := Quad(x, y, z);
            Encoded(octets) == [quad[0], quad[1], if |octets| > 1 then quad[2] else '=',
                                if |octets| > 2 then quad[3] else '=']
  {
    hide Quad;
    var quad := Quad(x, y, z);
    if |octets| == 1 {
      assert Encoded(octets) == quad[..2] + "==";
    } else if |octets| == 2 {
      assert Encoded(octets) == quad[..3] + "=";
    } else {
      assert octets[3..] == [];
      assert Encoded(octets) == quad + "";
    }
  }

  /** An encoding says its octets, three by three. */
  lemma {:induction false} EncodingSays(data: seq<byte>, g: nat)
    requires 3 * g < |data|
    ensures |Encoded(data)| >= 4 * g + 4
    ensures GroupSays(Encoded(data)[4 * g..4 * g + 4], data[3 * g..if 3 * g + 3 <= |data| then 3 * g + 3 else |data|])
    decreases |data|
  {
    hide GroupSays, Quad;
    var head := data[..if |data| < 3 then |data| else 3];
    GroupIs(head);
    EncodedShape(data);
    EncodedShape(head);
    if |data| > 3 {
      var tail := data[3..];
      assert data == head + tail;
      FirstGroup(data);
      if g > 0 {
        EncodingSays(tail, g - 1);
        var end := if 3 * g + 3 <= |data| then 3 * g + 3 else |data|;
        assert tail[3 * (g - 1)..end - 3] == data[3 * g..end];
        assert Encoded(tail)[4 * (g - 1)..4 * g] == Encoded(data)[4 * g..4 * g + 4];
      }
    } else {
      assert head == data && Encoded(data)[0..4] == Encoded(data);
    }
  }

  lemma FirstGroup(data: seq<byte>)
    requires |data| > 3
    ensures Encoded(data) == Encoded(data[..3]) + Encoded(data[3..])
    ensures |Encoded(data[..3])| == 4
  {
    hide Quad;
    assert data[..3][3..] == [];
    assert Encoded(data[..3]) == Quad(data[0] as int, data[1] as int, data[2] as int) + "";
  }

  // ---------------------------------------------------------------------------------------------
  // What the decoders make of any text

  /** Groups are decoded on their own. */
  lemma {:induction false} GroupsApart(x: string, y: string)
    requires |x| % 4 == 0
    ensures Decoded(x + y) ==
            if Decoded(x).None? || Decoded(y).None? then None else Some(Decoded(x).value + Decoded(y).value)
  {
    hide DecodedGroup;
    if x == "" {
      assert x + y == y;
      if Decoded(y).Some? {
        assert [] + Decoded(y).value == Decoded(y).value;
      }
    } else {
      assert (x + y)[..4] == x[..4] && (x + y)[4..] == x[4..] + y;
      GroupsApart(x[4..], y);
      if DecodedGroup(x[..4]).Some? && Decoded(x[4..]).Some? && Decoded(y).Some? {
        Associate(DecodedGroup(x[..4]).value, Decoded(x[4..]).value, Decoded(y).value);
      }
    }
  }

  /** The value of a digit; an equals sign counts as zero where it is allowed. */
  ghost predicate StandsFor(c: char, n: int, padding: bool) {
    || (|ALPHABET| == 64 && 0 <= n < 64 && ALPHABET[n] == c)
    || (padding && c == '=' && n == 0)
  }

  /**
   A group is decoded exactly if it has two digits and then two digits or equals signs: to the three octets
   of its 24 bits, without those that an equals sign stands for.
   */
  lemma GroupIsDecodedIff(group: string, octets: seq<byte>)
    requires |group| == 4
    ensures Decoded(group) == Some(octets) <==> GroupMeans(group, octets)
  {
    hide ALPHABET, Lookup, StandsFor, GroupOctets;
    var a, b, c, d := Lookup(group[0]), Lookup(group[1]), Lookup(group[2]), Lookup(group[3]);
    assert group[..4] == group && group[4..] == "";
    var decoded := DecodedGroup(group);
    assert Decoded("") == Some([]);
    assert decoded.Some? ==> decoded.value + [] == decoded.value;
    assert Decoded(group) == decoded;
    StandsForIff(group[0]);
    StandsForIff(group[1]);
    StandsForIff(group[2]);
    StandsForIff(group[3]);
    if decoded.Some? {
      var c6, d6 := if c < 0 then 0 else c, if d < 0 then 0 else d;
      var x, y, z := OctetsOf(a, b, c6, d6);
      assert (c == PAD <==> group[2] == '=') && (d == PAD <==> group[3] == '=');
      assert decoded.value == Kept(group, x, y, z) by {
        KeptOctets(group, a, b, c, d, x, y, z);
      }
      assert GroupMeansWith(group, decoded.value, a, b, c6, d6, x, y, z);
      if GroupMeans(group, octets) {
        var a', b', c', d', x', y', z' :| GroupMeansWith(group, octets, a', b', c', d', x', y', z');
        SameOctets(x, y, z, x', y', z');
      }
    }
  }

  /** The octets without those that an equals sign stands for. */
  function Kept(group: string, x: byte, y: byte, z: byte): seq<byte>
    requires |group| == 4
  {
    [x] + (if group[2] == '=' then [] else [y]) + (if group[3] == '=' then [] else [z])
  }

  lemma OctetsOf(a: int, b: int, c: int, d: int) returns (x: byte, y: byte, z: byte)
    requires 0 <= a < 64 && 0 <= b < 64 && 0 <= c < 64 && 0 <= d < 64
    ensures x as int == a * 4 + b / 16 && y as int == b % 16 * 16 + c / 4 && z as int == c % 4 * 64 + d
    ensures Bits(a * 64 + b, c, d, 64) == Bits(x as int, y as int, z as int, 256)
  {
    x, y, z := (a * 4 + b / 16) as byte, (b % 16 * 16 + c / 4) as byte, (c % 4 * 64 + d) as byte;
  }

  lemma KeptOctets(group: string, a: int, b: int, c: int, d: int, x: byte, y: byte, z: byte)
    requires |group| == 4
    requires 0 <= a < 64 && 0 <= b < 64 && (0 <= c < 64 || c == PAD) && (0 <= d < 64 || d == PAD)
    requires (c == PAD <==> group[2] == '=') && (d == PAD <==> group[3] == '=')
    requires var c6, d6 := if c < 0 then 0 else c, if d < 0 then 0 else d;
             x as int == a * 4 + b / 16 && y as int == b % 16 * 16 + c6 / 4 && z as int == c6 % 4 * 64 + d6
    ensures GroupOctets(a, b, c, d) == Kept(group, x, y, z)
  {
  }

  /** Three octets are determined by their 24 bits. */
  lemma SameOctets(x: byte, y: byte, z: byte, x': byte, y': byte, z': byte)
    requires Bits(x as int, y as int, z as int, 256) == Bits(x' as int, y' as int, z' as int, 256)
    ensures x == x' && y == y' && z == z'
  {
    DivMod(Bits(x as int, y as int, z as int, 256), x as int * 256 + y as int, 256, z as int);
    DivMod(Bits(x as int, y as int, z as int, 256), x' as int * 256 + y' as int, 256, z' as int);
    DivMod(x as int * 256 + y as int, x as int, 256, y as int);
    DivMod(x as int * 256 + y as int, x' as int, 256, y' as int);
  }

  lemma StandsForIff(c: char)
    ensures forall n :: StandsFor(c, n, false) <==> 0 <= n && Lookup(c) == n
    ensures forall n :: StandsFor(c, n, true) <==> (0 <= n && Lookup(c) == n) || (Lookup(c) == PAD && n == 0)
  {
    hide ALPHABET;
    AlphabetSize();
    forall n ensures StandsFor(c, n, false) <==> 0 <= n && Lookup(c) == n {
      if 0 <= n < 64 {
        LookupIff(c, n);
      }
    }
    forall n ensures StandsFor(c, n, true) <==> (0 <= n && Lookup(c) == n) || (Lookup(c) == PAD && n == 0) {
      assert StandsFor(c, n, true) <==> StandsFor(c, n, false) || (c == '=' && n == 0);
    }
  }

  ghost predicate GroupMeans(group: string, octets: seq<byte>)
    requires |group| == 4
  {
    exists a, b, c, d, x, y, z :: GroupMeansWith(group, octets, a, b, c, d, x, y, z)
  }

  ghost predicate GroupMeansWith(
      group: string, octets: seq<byte>, a: int, b: int, c: int, d: int, x: byte, y: byte, z: byte)
    requires |group| == 4
  {
    && StandsFor(group[0], a, false) && StandsFor(group[1], b, false)
    && StandsFor(group[2], c, true) && StandsFor(group[3], d, true)
    && Bits(a * 64 + b, c, d, 64) == Bits(x as int, y as int, z as int, 256)
    && octets == Kept(group, x, y, z)
  }
}
