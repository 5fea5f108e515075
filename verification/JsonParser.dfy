/**
 The recursive-descent JSON parser: first as functions from the remaining text to a value and the
 text after it, then as the cursor class of the source, proved to compute those functions.
 */
module JsonParser {
  import opened Common
  import opened Json
  import Decimal

  /** A parsed value and the text that follows it. */
  datatype Parsed<T> = Parsed(value: T, rest: string)

  // ---------------------------------------------------------------------------------------------
  // Specification

  /** Skips white space, then consumes the expected character. */
  function Consumed(text: string, expected: char): (rest: Option<string>)
    ensures rest.Some? ==> |rest.value| < |text|
  {
    var t := Decimal.SkipSpaces(text);
    if t != "" && t[0] == expected then Some(t[1..]) else None
  }

  /** The character that a one-letter escape stands for. */
  function Unescaped(escape: char): Option<char> {
    if escape == '\"' || escape == '\\' || escape == '/' then Some(escape)
    else if escape == 'b' then Some(BACKSPACE)
    else if escape == 'f' then Some(FORM_FEED)
    else if escape == 'n' then Some('\n')
    else if escape == 'r' then Some('\r')
    else if escape == 't' then Some('\t')
    else None
  }

  /** The characters up to the closing quote; a unicode escape becomes '?', whatever its digits. */
  function StringBody(text: string): (body: Option<Parsed<string>>)
    ensures body.Some? ==> |body.value.rest| < |text|
  {
    if text == "" then None
    else if text[0] == '\"' then Some(Parsed("", text[1..]))
    else if text[0] != '\\' then Prefixed(text[0], StringBody(text[1..]))
    else if |text| == 1 then None
    else if text[1] == 'u' then if |text| < 6 then None else Prefixed('?', StringBody(text[6..]))
    else if Unescaped(text[1]).None? then None
    else Prefixed(Unescaped(text[1]).value, StringBody(text[2..]))
  }

  function Prefixed(c: char, body: Option<Parsed<string>>): Option<Parsed<string>> {
    if body.None? then None else Some(Parsed([c] + body.value.value, body.value.rest))
  }

  function StringAt(text: string): (parsed: Option<Parsed<string>>)
    ensures parsed.Some? ==> |parsed.value.rest| < |text|
  {
    var start := Consumed(text, '\"');
    if start.None? then None else StringBody(start.value)
  }

  /** The parts of a number token. */
  datatype NumberToken = NumberToken(
    negative: bool, whole: string, fraction: string, hasExponent: bool, exponentSign: string, exponent: string)

  function FractionAt(text: string): Parsed<string> {
    if text != "" && text[0] == '.' then
      var digits := Decimal.DigitRun(text[1..]);
      Parsed(digits, text[1..][|digits|..])
    else Parsed("", text)
  }

  /** Whether there is an exponent, its sign and its digits. */
  function ExponentAt(text: string): Parsed<(bool, string, string)> {
    if text != "" && (text[0] == 'e' || text[0] == 'E') then
      var sign := if |text| > 1 && (text[1] == '+' || text[1] == '-') then [text[1]] else "";
      var afterSign := text[1 + |sign|..];
      var digits := Decimal.DigitRun(afterSign);
      Parsed((true, sign, digits), afterSign[|digits|..])
    else Parsed((false, "", ""), text)
  }

  function NumberTokenAt(text: string): Parsed<NumberToken> {
    var negative := text != "" && text[0] == '-';
    var unsigned := if negative then text[1..] else text;
    var whole := Decimal.DigitRun(unsigned);
    var Parsed(fraction, afterFraction) := FractionAt(unsigned[|whole|..]);
    var Parsed((hasExponent, sign, exponent), rest) := ExponentAt(afterFraction);
    Parsed(NumberToken(negative, whole, fraction, hasExponent, sign, exponent), rest)
  }

  function PowerOfTen(n: int): real
    decreases if n < 0 then -n else n
  {
    if n == 0 then 1.0 else if n > 0 then 10.0 * PowerOfTen(n - 1) else PowerOfTen(n + 1) / 10.0
  }

  /** The number with these digits before and after its point. */
  function Mixed(whole: string, fraction: string): real
    requires forall i | 0 <= i < |whole| :: IsDigit(whole[i])
    requires forall i | 0 <= i < |fraction| :: IsDigit(fraction[i])
  {
    Decimal.Number(whole) as real + Decimal.Number(fraction) as real * PowerOfTen(-|fraction|)
  }

  function Shifted(magnitude: real, exponent: int): real {
    magnitude * PowerOfTen(exponent)
  }

  /** `std::strtod` on a whole token: None when it stops before the end of the token. */
  function TokenValue(token: NumberToken): Option<real>
    requires forall i | 0 <= i < |token.whole| :: IsDigit(token.whole[i])
    requires forall i | 0 <= i < |token.fraction| :: IsDigit(token.fraction[i])
    requires forall i | 0 <= i < |token.exponent| :: IsDigit(token.exponent[i])
  {
    if token.whole + token.fraction == "" || (token.hasExponent && token.exponent == "") then None
    else
      var exponent := Decimal.Number(token.exponent);
      var shift := if token.exponentSign == "-" then -exponent else exponent;
      var scaled := Shifted(Mixed(token.whole, token.fraction), shift);
      Some(if token.negative then -scaled else scaled)
  }

  function NumberAt(text: string): (parsed: Option<Parsed<Json>>)
    requires text != "" && (text[0] == '-' || IsDigit(text[0]))
    ensures parsed.Some? ==> |parsed.value.rest| < |text|
  {
    var Parsed(token, rest) := NumberTokenAt(text);
    var value := TokenValue(token);
    if value.None? then None else Some(Parsed(Json.Number(value.value), rest))
  }

  function BooleanAt(text: string): (parsed: Option<Parsed<Json>>)
    ensures parsed.Some? ==> |parsed.value.rest| < |text|
  {
    if "true" <= text then Some(Parsed(Json.Bool(true), text[4..]))
    else if "false" <= text then Some(Parsed(Json.Bool(false), text[5..]))
    else None
  }

  function NullAt(text: string): (parsed: Option<Parsed<Json>>)
    ensures parsed.Some? ==> |parsed.value.rest| < |text|
  {
    if "null" <= text then Some(Parsed(Json.Null, text[4..])) else None
  }

  /** Every successful parse consumes at least one character. */
  function ValueAt(text: string): (parsed: Option<Parsed<Json>>)
    ensures parsed.Some? ==> |parsed.value.rest| < |text|
    decreases |text|, 3
  {
    TokenAt(Decimal.SkipSpaces(text))
  }

  /** A value that no white space precedes. */
  function TokenAt(t: string): (parsed: Option<Parsed<Json>>)
    ensures parsed.Some? ==> |parsed.value.rest| < |t|
    decreases |t|, 2
  {
    if t == "" then None
    else if t[0] == '{' then ObjectAt(t)
    else if t[0] == '[' then ArrayAt(t)
    else if t[0] == '\"' then
      match StringAt(t)
      case None => None
      case Some(Parsed(body, rest)) => Some(Parsed(Json.String(body), rest))
    else if t[0] == 't' || t[0] == 'f' then BooleanAt(t)
    else if t[0] == 'n' then NullAt(t)
    else if t[0] == '-' || IsDigit(t[0]) then NumberAt(t)
    else None
  }

  function ObjectAt(text: string): (parsed: Option<Parsed<Json>>)
    requires text != ""
    ensures parsed.Some? ==> |parsed.value.rest| < |text|
    decreases |text|, 1
  {
    if Consumed(text[1..], '}').Some? then Some(Parsed(Json.Object([]), Consumed(text[1..], '}').value))
    else
      match MembersAt(text[1..], [])
      case None => None
      case Some(Parsed(members, rest)) => Some(Parsed(Json.Object(members), rest))
  }

  function ArrayAt(text: string): (parsed: Option<Parsed<Json>>)
    requires text != ""
    ensures parsed.Some? ==> |parsed.value.rest| < |text|
    decreases |text|, 1
  {
    if Consumed(text[1..], ']').Some? then Some(Parsed(Json.Array([]), Consumed(text[1..], ']').value))
    else
      match ItemsAt(text[1..], [])
      case None => None
      case Some(Parsed(items, rest)) => Some(Parsed(Json.Array(items), rest))
  }

  function MemberAt(text: string): (parsed: Option<Parsed<Member>>)
    ensures parsed.Some? ==> |parsed.value.rest| < |text|
    decreases |text|, 4
  {
    match StringAt(text)
    case None => None
    case Some(Parsed(key, afterKey)) =>
      var colon := Consumed(afterKey, ':');
      if colon.None? then None
      else
        match ValueAt(colon.value)
        case None => None
        case Some(Parsed(value, rest)) => Some(Parsed(Member(key, value), rest))
  }

  /** The members of an object up to its closing brace, added to those already read. */
  function MembersAt(text: string, members: seq<Member>): (parsed: Option<Parsed<seq<Member>>>)
    ensures parsed.Some? ==> |parsed.value.rest| < |text|
    decreases |text|, 5
  {
    match MemberAt(text)
    case None => None
    case Some(Parsed(member, rest)) => MembersAfterMember(member, rest, members)
  }

  function MembersAfterMember(member: Member, text: string, members: seq<Member>): (parsed: Option<Parsed<seq<Member>>>)
    ensures parsed.Some? ==> |parsed.value.rest| < |text|
    decreases |text|, 4
  {
    var more := Emplaced(members, member.key, member.value);
    var closed, comma := Consumed(text, '}'), Consumed(text, ',');
    if closed.Some? then Some(Parsed(more, closed.value))
    else if comma.Some? then MembersAt(comma.value, more)
    else None
  }

  function ItemsAt(text: string, items: seq<Json>): (parsed: Option<Parsed<seq<Json>>>)
    ensures parsed.Some? ==> |parsed.value.rest| < |text|
    decreases |text|, 5
  {
    match ValueAt(text)
    case None => None
    case Some(Parsed(value, rest)) => ItemsAfterItem(value, rest, items)
  }

  function ItemsAfterItem(item: Json, text: string, items: seq<Json>): (parsed: Option<Parsed<seq<Json>>>)
    ensures parsed.Some? ==> |parsed.value.rest| < |text|
    decreases |text|, 4
  {
    var closed, comma := Consumed(text, ']'), Consumed(text, ',');
    if closed.Some? then Some(Parsed(items + [item], closed.value))
    else if comma.Some? then ItemsAt(comma.value, items + [item])
    else None
  }

  const PARSE_ERROR := "JSON_PARSE_ERROR"

  function ParsedJson(text: string): Result<Json> {
    var value := ValueAt(text);
    if value.None? || Decimal.SkipSpaces(value.value.rest) != "" then Failure(PARSE_ERROR)
    else Success(value.value.value)
  }

  /** A method's result agrees with the specification: same value, same text left to read. */
  ghost predicate Agrees<T(!new)>(r: Result<T>, rest: string, expected: Option<Parsed<T>>) {
    match r
    case Success(value) => expected == Some(Parsed(value, rest))
    case Failure(code) => expected == None && code == PARSE_ERROR
  }

  lemma MembersAfterSkip(text: string, members: seq<Member>)
    ensures MembersAt(Decimal.SkipSpaces(text), members) == MembersAt(text, members)
  {
    hide MembersAfterMember, StringBody, ValueAt, Decimal.SkipSpaces;
    ConsumedAfterSkip(text, '\"');
  }

  lemma ItemsAfterSkip(text: string, items: seq<Json>)
    ensures ItemsAt(Decimal.SkipSpaces(text), items) == ItemsAt(text, items)
  {
    hide ItemsAfterItem, TokenAt, Decimal.SkipSpaces;
    SkipTwice(text);
  }

  lemma SkipTwice(text: string)
    ensures Decimal.SkipSpaces(Decimal.SkipSpaces(text)) == Decimal.SkipSpaces(text)
  {
  }

  lemma ConsumedAfterSkip(text: string, expected: char)
    ensures Consumed(Decimal.SkipSpaces(text), expected) == Consumed(text, expected)
  {
  }

  // ---------------------------------------------------------------------------------------------
  // The parser of the source

  class Parser {
    const input: string
    var offset: nat

    constructor (input: string)
      ensures this.input == input && offset == 0
    {
      this.input := input;
      offset := 0;
    }

    ghost predicate Valid()
      reads this
    {
      offset <= |input|
    }

    /** The text that is still to be read. */
    ghost function Rest(): string
      reads this
      requires Valid()
    {
      input[offset..]
    }

    method Parse() returns (r: Result<Json>)
      requires Valid()
      modifies this
      ensures Valid() && r == ParsedJson(old(Rest()))
    {
      r := ParseValue();
      if r.Failure? {
        return;
      }
      SkipWhitespace();
      if offset != |input| {
        r := Failure(PARSE_ERROR);
      }
    }

    method ParseValue() returns (r: Result<Json>)
      requires Valid()
      modifies this
      ensures Valid() && Agrees(r, Rest(), old(ValueAt(Rest()))) && (r.Success? ==> offset > old(offset))
      decreases |input| - offset, 1
    {
      hide StringAt, ObjectAt, ArrayAt, NumberAt, BooleanAt, NullAt, Decimal.SkipSpaces;
      SkipWhitespace();
      if offset >= |input| {
        return Failure(PARSE_ERROR);
      }
      var c := input[offset];
      assert Rest() == Decimal.SkipSpaces(old(Rest())) && Rest()[0] == c;
      match c {
        case '{' => r := ParseObject();
        case '[' => r := ParseArray();
        case '\"' =>
          var text := ParseString();
          r := if text.Success? then Success(Json.String(text.value)) else Failure(text.code);
        case 't' => r := ParseBoolean();
        case 'f' => r := ParseBoolean();
        case 'n' => r := ParseNull();
        case _ =>
          if c == '-' || IsDigit(c) {
            r := ParseNumber();
          } else {
            r := Failure(PARSE_ERROR);
          }
      }
    }

    method ParseObject() returns (r: Result<Json>)
      requires Valid() && Rest() != "" && Rest()[0] == '{'
      modifies this
      ensures Valid() && Agrees(r, Rest(), old(ObjectAt(Rest()))) && (r.Success? ==> offset > old(offset))
      decreases |input| - offset, 0
    {
      hide MemberAt, Emplaced, Consumed, Decimal.SkipSpaces;
      ghost var text := Rest();
      var members: seq<Member> := [];
      offset := offset + 1;
      assert Rest() == text[1..];
      SkipWhitespace();
      ConsumedAfterSkip(text[1..], '}');
      var closed := TryConsume('}');
      if closed {
        return Success(Json.Object(members));
      }
      ghost var all := MembersAt(text[1..], []);
      MembersAfterSkip(text[1..], members);
      MembersAfterSkip(Decimal.SkipSpaces(text[1..]), members);
      while true
        invariant Valid() && offset > old(offset)
        invariant all == MembersAt(Rest(), members)
        decreases |input| - offset
      {
        var member := ParseMember();
        if member.Failure? {
          return Failure(member.code);
        }
        members := Emplaced(members, member.value.key, member.value.value);
        ghost var after := Rest();
        ConsumedAfterSkip(after, '}');
        SkipWhitespace();
        closed := TryConsume('}');
        if closed {
          assert all == Some(Parsed(members, Rest()));
          break;
        }
        ConsumedAfterSkip(after, ',');
        ConsumedAfterSkip(Decimal.SkipSpaces(after), ',');
        var comma := TryConsume(',');
        if !comma {
          return Failure(PARSE_ERROR);
        }
      }
      r := Success(Json.Object(members));
    }

    method ParseMember() returns (r: Result<Member>)
      requires Valid()
      modifies this
      ensures Valid() && Agrees(r, Rest(), old(MemberAt(Rest()))) && (r.Success? ==> offset > old(offset))
      decreases |input| - offset, 2
    {
      hide StringAt, ValueAt, Consumed, Decimal.SkipSpaces;
      var key := ParseString();
      if key.Failure? {
        return Failure(key.code);
      }
      ConsumedAfterSkip(Rest(), ':');
      SkipWhitespace();
      var colon := TryConsume(':');
      if !colon {
        return Failure(PARSE_ERROR);
      }
      var value := ParseValue();
      if value.Failure? {
        return Failure(value.code);
      }
      r := Success(Member(key.value, value.value));
    }

    method ParseArray() returns (r: Result<Json>)
      requires Valid() && Rest() != "" && Rest()[0] == '['
      modifies this
      ensures Valid() && Agrees(r, Rest(), old(ArrayAt(Rest()))) && (r.Success? ==> offset > old(offset))
      decreases |input| - offset, 0
    {
      hide ValueAt, Consumed, Decimal.SkipSpaces;
      ghost var text := Rest();
      var items: seq<Json> := [];
      offset := offset + 1;
      assert Rest() == text[1..];
      SkipWhitespace();
      ConsumedAfterSkip(text[1..], ']');
      var closed := TryConsume(']');
      if closed {
        return Success(Json.Array(items));
      }
      ghost var all := ItemsAt(text[1..], []);
      ItemsAfterSkip(text[1..], items);
      ItemsAfterSkip(Decimal.SkipSpaces(text[1..]), items);
      while true
        invariant Valid() && offset > old(offset)
        invariant all == ItemsAt(Rest(), items)
        decreases |input| - offset
      {
        var value := ParseValue();
        if value.Failure? {
          return value;
        }
        items := items + [value.value];
        ghost var after := Rest();
        ConsumedAfterSkip(after, ']');
        SkipWhitespace();
        closed := TryConsume(']');
        if closed {
          assert all == Some(Parsed(items, Rest()));
          break;
        }
        ConsumedAfterSkip(after, ',');
        ConsumedAfterSkip(Decimal.SkipSpaces(after), ',');
        var comma := TryConsume(',');
        if !comma {
          return Failure(PARSE_ERROR);
        }
      }
      r := Success(Json.Array(items));
    }

    method ParseString() returns (r: Result<string>)
      requires Valid()
      modifies this
      ensures Valid() && Agrees(r, Rest(), old(StringAt(Rest()))) && (r.Success? ==> offset > old(offset))
    {
      hide StringBody, WithPrefix, Unescaped, Decimal.SkipSpaces;
      var quoted := TryConsume('\"');
      if !quoted {
        return Failure(PARSE_ERROR);
      }
      var out := "";
      ghost var start := Rest();
      EmptyPrefix(StringBody(start));
      while offset < |input|
        invariant Valid() && offset > old(offset)
        invariant StringBody(start) == WithPrefix(out, StringBody(Rest()))
        decreases |input| - offset
      {
        ghost var rest := Rest();
        StringStep(out, rest);
        var c := input[offset];
        offset := offset + 1;
        assert rest[0] == c && rest[1..] == Rest();
        if c == '\"' {
          return Success(out);
        }
        if c != '\\' {
          out := out + [c];
          continue;
        }
        if offset >= |input| {
          return Failure(PARSE_ERROR);
        }
        var escape := input[offset];
        offset := offset + 1;
        assert rest[1] == escape && rest[2..] == Rest();
        if escape == 'u' {
          if offset + 4 > |input| {
            return Failure(PARSE_ERROR);
          }
          out := out + ['?'];
          offset := offset + 4;
          assert rest[6..] == Rest();
        } else {
          var plain := Unescaped(escape);
          if plain.None? {
            return Failure(PARSE_ERROR);
          }
          out := out + [plain.value];
        }
      }
      NoBodyInNothing(out);
      r := Failure(PARSE_ERROR);
    }

    method ParseBoolean() returns (r: Result<Json>)
      requires Valid()
      modifies this
      ensures Valid() && Agrees(r, Rest(), old(BooleanAt(Rest()))) && (r.Success? ==> offset > old(offset))
    {
      if "true" <= input[offset..] {
        offset := offset + 4;
        return Success(Json.Bool(true));
      }
      if "false" <= input[offset..] {
        offset := offset + 5;
        return Success(Json.Bool(false));
      }
      r := Failure(PARSE_ERROR);
    }

    method ParseNull() returns (r: Result<Json>)
      requires Valid()
      modifies this
      ensures Valid() && Agrees(r, Rest(), old(NullAt(Rest()))) && (r.Success? ==> offset > old(offset))
    {
      if "null" <= input[offset..] {
        offset := offset + 4;
        return Success(Json.Null);
      }
      r := Failure(PARSE_ERROR);
    }

    method ParseNumber() returns (r: Result<Json>)
      requires Valid() && Rest() != "" && (Rest()[0] == '-' || IsDigit(Rest()[0]))
      modifies this
      ensures Valid() && Agrees(r, Rest(), old(NumberAt(Rest()))) && (r.Success? ==> offset > old(offset))
    {
      hide TokenValue, FractionAt, ExponentAt, Decimal.DigitRun;
      ghost var text := Rest();
      var negative := input[offset] == '-';
      if negative {
        offset := offset + 1;
      }
      var whole := ReadDigits();
      var fraction := ReadFraction();
      var hasExponent, sign, exponent := ReadExponent();
      var token := NumberToken(negative, whole, fraction, hasExponent, sign, exponent);
      assert Parsed(token, Rest()) == NumberTokenAt(text);
      var value := TokenValue(token);
      r := if value.None? then Failure(PARSE_ERROR) else Success(Json.Number(value.value));
    }

    method ReadFraction() returns (fraction: string)
      requires Valid()
      modifies this
      ensures Valid() && offset >= old(offset) && Parsed(fraction, Rest()) == FractionAt(old(Rest()))
      ensures forall i | 0 <= i < |fraction| :: IsDigit(fraction[i])
    {
      fraction := "";
      if offset < |input| && input[offset] == '.' {
        assert input[offset..][1..] == input[offset + 1..];
        offset := offset + 1;
        fraction := ReadDigits();
      }
    }

    method ReadExponent() returns (hasExponent: bool, sign: string, exponent: string)
      requires Valid()
      modifies this
      ensures Valid() && offset >= old(offset)
      ensures Parsed((hasExponent, sign, exponent), Rest()) == ExponentAt(old(Rest()))
      ensures forall i | 0 <= i < |exponent| :: IsDigit(exponent[i])
    {
      ghost var text := Rest();
      hasExponent, sign, exponent := false, "", "";
      if offset < |input| && (input[offset] == 'e' || input[offset] == 'E') {
        hasExponent := true;
        offset := offset + 1;
        assert Rest() == text[1..];
        if offset < |input| && (input[offset] == '+' || input[offset] == '-') {
          sign := [input[offset]];
          offset := offset + 1;
          assert Rest() == text[2..];
        }
        exponent := ReadDigits();
      }
    }

    /** The loop `while (isdigit(...)) ++offset_`; returns the digits passed over. */
    method ReadDigits() returns (digits: string)
      requires Valid()
      modifies this
      ensures Valid() && digits == Decimal.DigitRun(old(Rest()))
      ensures offset == old(offset) + |digits| && Rest() == old(Rest())[|digits|..]
    {
      hide Decimal.DigitRun, IsDigit, InRun;
      var start := offset;
      RunBegins(input, start);
      while offset < |input| && IsDigit(input[offset])
        invariant start <= offset <= |input| && InRun(input, start, offset)
      {
        DigitRunStep(input, start, offset);
        offset := offset + 1;
      }
      DigitRunEnds(input, start, offset);
      digits := input[start..offset];
    }

    method SkipWhitespace()
      requires Valid()
      modifies this
      ensures Valid() && Rest() == Decimal.SkipSpaces(old(Rest())) && offset >= old(offset)
    {
      hide Decimal.SkipSpaces, IsSpace;
      ghost var start := Rest();
      while offset < |input| && IsSpace(input[offset])
        invariant Valid() && offset >= old(offset)
        invariant Decimal.SkipSpaces(start) == Decimal.SkipSpaces(Rest())
      {
        SkipStep(input, offset);
        offset := offset + 1;
      }
      NothingToSkip(Rest());
    }

    method TryConsume(expected: char) returns (consumed: bool)
      requires Valid()
      modifies this
      ensures Valid() && (consumed <==> Consumed(old(Rest()), expected).Some?)
      ensures consumed ==> Rest() == Consumed(old(Rest()), expected).value && offset > old(offset)
      ensures !consumed ==> Rest() == Decimal.SkipSpaces(old(Rest())) && offset >= old(offset)
    {
      SkipWhitespace();
      if offset < |input| && input[offset] == expected {
        assert input[offset..][1..] == input[offset + 1..];
        offset := offset + 1;
        return true;
      }
      consumed := false;
    }
  }

  ghost function WithPrefix(prefix: string, body: Option<Parsed<string>>): Option<Parsed<string>> {
    if body.None? then None else Some(Parsed(prefix + body.value.value, body.value.rest))
  }

  lemma SkipStep(text: string, i: nat)
    requires i < |text| && IsSpace(text[i])
    ensures Decimal.SkipSpaces(text[i..]) == Decimal.SkipSpaces(text[i + 1..])
  {
    assert text[i..][1..] == text[i + 1..];
  }

  lemma NothingToSkip(text: string)
    requires text == "" || !IsSpace(text[0])
    ensures Decimal.SkipSpaces(text) == text
  {
  }

  /** The characters between the two places are the first digits of a run. */
  ghost predicate InRun(text: string, from: nat, i: nat)
    requires from <= i <= |text|
  {
    Decimal.DigitRun(text[from..]) == text[from..i] + Decimal.DigitRun(text[i..])
  }

  lemma RunBegins(text: string, from: nat)
    requires from <= |text|
    ensures InRun(text, from, from)
  {
  }

  lemma DigitRunStep(text: string, from: nat, i: nat)
    requires from <= i < |text| && IsDigit(text[i]) && InRun(text, from, i)
    ensures InRun(text, from, i + 1)
  {
    assert text[i..][1..] == text[i + 1..] && text[from..i + 1] == text[from..i] + [text[i]];
    Associate(text[from..i], [text[i]], Decimal.DigitRun(text[i + 1..]));
  }

  lemma DigitRunEnds(text: string, from: nat, i: nat)
    requires from <= i <= |text| && InRun(text, from, i) && (i == |text| || !IsDigit(text[i]))
    ensures Decimal.DigitRun(text[from..]) == text[from..i]
    ensures text[from..][i - from..] == text[i..]
  {
    assert text[from..i] + "" == text[from..i];
  }

  lemma NoBodyInNothing(out: string)
    ensures WithPrefix(out, StringBody("")) == None
  {
  }

  lemma EmptyPrefix(body: Option<Parsed<string>>)
    ensures WithPrefix("", body) == body
  {
    assert body.Some? ==> "" + body.value.value == body.value.value;
  }

  /** One character or escape of a string body, after the text `out`. */
  lemma StringStep(out: string, text: string)
    requires text != ""
    ensures WithPrefix(out, StringBody(text)) ==
            if text[0] == '\"' then Some(Parsed(out, text[1..]))
            else if text[0] != '\\' then WithPrefix(out + [text[0]], StringBody(text[1..]))
            else if |text| == 1 then None
            else if text[1] == 'u' then if |text| < 6 then None else WithPrefix(out + ['?'], StringBody(text[6..]))
            else if Unescaped(text[1]).None? then None
            else WithPrefix(out + [Unescaped(text[1]).value], StringBody(text[2..]))
  {
    hide Unescaped;
    if text[0] == '\"' {
      assert out + "" == out;
    } else if text[0] != '\\' {
      PrefixTwice(out, text[0], StringBody(text[1..]));
    } else if |text| == 1 {
    } else if text[1] == 'u' {
      if |text| >= 6 {
        PrefixTwice(out, '?', StringBody(text[6..]));
      }
    } else if Unescaped(text[1]).Some? {
      PrefixTwice(out, Unescaped(text[1]).value, StringBody(text[2..]));
    }
  }

  lemma PrefixTwice(out: string, c: char, body: Option<Parsed<string>>)
    ensures WithPrefix(out, Prefixed(c, body)) == WithPrefix(out + [c], body)
  {
    if body.Some? {
      Associate(out, [c], body.value.value);
    }
  }

  method ParseJson(text: string) returns (r: Result<Json>)
    ensures r == ParsedJson(text)
  {
    var parser := new Parser(text);
    assert parser.Rest() == text;
    r := parser.Parse();
  }
}
