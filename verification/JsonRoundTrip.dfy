/**
 Printing and parsing back. The printer writes every control character without a short escape as a
 unicode escape, and the parser reads every unicode escape as '?': the round trip is exact up to
 that replacement, and exact altogether for precisely the values that hold no such character.
 */
module JsonRoundTrip {
  import opened Common
  import opened Json
  import opened JsonParser
  import Decimal

  // ---------------------------------------------------------------------------------------------
  // What survives

  predicate PlainChar(c: char) {
    c >= ' ' || c == BACKSPACE || c == FORM_FEED || c == '\n' || c == '\r' || c == '\t'
  }

  predicate PlainText(text: string) {
    text != "" ==> PlainChar(text[0]) && PlainText(text[1..])
  }

  /** No string and no key in the value holds a control character outside \b \f \n \r \t. */
  predicate Plain(value: Json) {
    match value
    case String(text) => PlainText(text)
    case Object(members) =>
      forall i | 0 <= i < |members| :: PlainText(members[i].key) && Plain(members[i].value)
    case Array(items) => forall i | 0 <= i < |items| :: Plain(items[i])
    case _ => true
  }

  function MaskedChar(c: char): char {
    if PlainChar(c) then c else '?'
  }

  function Masked(text: string): string {
    if text == "" then "" else [MaskedChar(text[0])] + Masked(text[1..])
  }

  /** The value with the lost characters replaced; keys that become equal keep the first value. */
  function Sanitized(value: Json): Json
    decreases value, 1
  {
    match value
    case String(text) => Json.String(Masked(text))
    case Object(members) => Json.Object(SanitizedMembers(members, []))
    case Array(items) => Json.Array(SanitizedItems(items))
    case _ => value
  }

  function SanitizedMembers(members: seq<Member>, done: seq<Member>): seq<Member>
    decreases members, 0
  {
    if members == [] then done
    else SanitizedMembers(members[1..], Emplaced(done, Masked(members[0].key), Sanitized(members[0].value)))
  }

  function SanitizedItems(items: seq<Json>): seq<Json>
    decreases items, 0
  {
    if items == [] then [] else [Sanitized(items[0])] + SanitizedItems(items[1..])
  }

  // ---------------------------------------------------------------------------------------------
  // Strings

  lemma EscapedCharBody(c: char, text: string)
    ensures StringBody(EscapedChar(c) + text) == Prefixed(MaskedChar(c), StringBody(text))
  {
    hide StringBody;
    if PlainChar(c) && |EscapedChar(c)| == 1 {
      OneCharBody(c, text);
    } else if PlainChar(c) {
      EscapePairBody(EscapedChar(c)[1], text);
      assert EscapedChar(c) == ['\\', EscapedChar(c)[1]];
    } else {
      UnicodeBody(HexDigit(c as int / 16), HexDigit(c as int % 16), text);
    }
  }

  lemma OneCharBody(c: char, text: string)
    requires c != '\"' && c != '\\'
    ensures StringBody([c] + text) == Prefixed(c, StringBody(text))
  {
    assert ([c] + text)[1..] == text;
  }

  lemma EscapePairBody(escape: char, text: string)
    requires escape != 'u' && Unescaped(escape).Some?
    ensures StringBody(['\\', escape] + text) == Prefixed(Unescaped(escape).value, StringBody(text))
  {
    hide Unescaped;
    var whole := ['\\', escape] + text;
    assert whole[0] == '\\' && whole[1] == escape && whole[2..] == text;
  }

  lemma UnicodeBody(x: char, y: char, text: string)
    ensures StringBody("\\u00" + [x, y] + text) == Prefixed('?', StringBody(text))
  {
    var whole := "\\u00" + [x, y] + text;
    assert whole[0] == '\\' && whole[1] == 'u' && whole[6..] == text;
  }

  lemma {:induction false} EscapedBody(text: string, rest: string)
    ensures StringBody(Escaped(text) + "\"" + rest) == Some(Parsed(Masked(text), rest))
  {
    hide EscapedChar, MaskedChar;
    if text == "" {
      assert (Escaped(text) + "\"" + rest)[1..] == rest;
    } else {
      hide StringBody;
      EscapedBody(text[1..], rest);
      EscapedCharBody(text[0], Escaped(text[1..]) + "\"" + rest);
      assert Escaped(text) + "\"" + rest == EscapedChar(text[0]) + (Escaped(text[1..]) + "\"" + rest);
    }
  }

  lemma QuotedString(text: string, rest: string)
    ensures StringAt(Quoted(text) + rest) == Some(Parsed(Masked(text), rest))
  {
    hide StringBody, Escaped, Masked;
    EscapedBody(text, rest);
    var whole := Quoted(text) + rest;
    assert whole[0] == '\"' && whole[1..] == Escaped(text) + "\"" + rest;
    assert Decimal.SkipSpaces(whole) == whole;
  }

  // ---------------------------------------------------------------------------------------------
  // Numbers

  /** The text cannot continue a number token. */
  predicate EndsNumber(text: string) {
    text != "" ==> !IsDigit(text[0]) && text[0] != '.' && text[0] != 'e' && text[0] != 'E'
  }

  lemma TokenOfInteger(sign: string, digits: string, rest: string)
    requires sign == "" || sign == "-"
    requires digits != "" && forall i | 0 <= i < |digits| :: IsDigit(digits[i])
    requires EndsNumber(rest)
    ensures NumberTokenAt(sign + digits + rest) ==
            Parsed(NumberToken(sign == "-", digits, "", false, "", ""), rest)
  {
    hide Decimal.DigitRun;
    var text, unsigned := sign + digits + rest, digits + rest;
    assert Decimal.DigitRun(unsigned) == digits by {
      Decimal.DigitRunOfDigits(digits, rest);
    }
    assert unsigned[|digits|..] == rest;
    assert unsigned[0] == digits[0] && IsDigit(digits[0]);
    if sign == "" {
      assert text == unsigned;
    } else {
      assert text[0] == '-' && text[1..] == unsigned;
    }
  }

  lemma PrintedNumber(value: real, rest: string)
    requires PrintableNumber(value) && EndsNumber(rest)
    ensures var text := Decimal.ToString(value.Floor) + rest;
            text != "" && (text[0] == '-' || IsDigit(text[0]))
                && NumberAt(text) == Some(Parsed(Json.Number(value), rest))
  {
    hide NumberTokenAt, Decimal.Digits, Decimal.Number;
    var n := value.Floor;
    var sign, digits := if n < 0 then "-" else "", Decimal.Digits(if n < 0 then -n else n);
    assert Decimal.ToString(n) + rest == sign + digits + rest;
    TokenOfInteger(sign, digits, rest);
    Decimal.NumberOfDigits(if n < 0 then -n else n);
    assert Decimal.Number("") == 0 by {
      Decimal.NumberOfDigits(0);
      NothingIsZero();
    }
    assert PowerOfTen(0) == 1.0;
    assert digits + "" == digits;
  }

  lemma NothingIsZero()
    ensures Decimal.Number("") == 0
  {
  }

  // ---------------------------------------------------------------------------------------------
  // Values

  /** A printed value starts with a character that is neither white space nor a closing bracket. */
  lemma FirstChar(value: Json)
    requires Printable(value)
    ensures var text := Serialized(value);
            text != "" && !IsSpace(text[0]) && text[0] != ']' && text[0] != '}'
  {
    hide SerializedMembers, SerializedItems, Escaped;
  }

  lemma NoSpace(text: string)
    requires text != "" && !IsSpace(text[0])
    ensures Decimal.SkipSpaces(text) == text
  {
  }

  lemma ConsumedHere(c: char, expected: char, rest: string)
    requires !IsSpace(c)
    ensures Consumed([c] + rest, expected) == if c == expected then Some(rest) else None
  {
    NoSpace([c] + rest);
    assert ([c] + rest)[1..] == rest;
  }

  /** Parsing what the printer wrote, followed by anything that ends a number, gives the value back. */
  lemma {:induction false} PrintedValue(value: Json, rest: string)
    requires Printable(value) && EndsNumber(rest)
    ensures ValueAt(Serialized(value) + rest) == Some(Parsed(Sanitized(value), rest))
    decreases value, 1
  {
    hide Decimal.SkipSpaces, Decimal.ToString, Masked, Escaped, NumberAt, StringAt, ObjectAt, ArrayAt,
         BooleanAt, NullAt, PrintableNumber, SerializedMembers, SerializedItems, SanitizedMembers, SanitizedItems;
    var text := Serialized(value) + rest;
    assert ValueAt(text) == TokenAt(text) by {
      FirstChar(value);
      NoSpace(text);
    }
    match value {
      case Null =>
        PrintedLiterals(rest);
      case Bool(flag) =>
        PrintedLiterals(rest);
      case Number(number) =>
        PrintedNumber(number, rest);
      case String(body) =>
        QuotedString(body, rest);
      case Object(members) =>
        PrintedObject(members, rest);
      case Array(items) =>
        PrintedArray(items, rest);
    }
  }

  lemma PrintedLiterals(rest: string)
    ensures NullAt("null" + rest) == Some(Parsed(Json.Null, rest))
    ensures BooleanAt("true" + rest) == Some(Parsed(Json.Bool(true), rest))
    ensures BooleanAt("false" + rest) == Some(Parsed(Json.Bool(false), rest))
  {
    assert ("null" + rest)[4..] == rest && ("true" + rest)[4..] == rest && ("false" + rest)[5..] == rest;
    assert ("false" + rest)[0] == 'f';
  }

  lemma {:induction false} PrintedObject(members: seq<Member>, rest: string)
    requires PrintableMembers(members)
    ensures var text := "{" + SerializedMembers(members) + "}" + rest;
            ObjectAt(text) == Some(Parsed(Json.Object(SanitizedMembers(members, [])), rest))
    decreases members, 1
  {
    hide SerializedMembers, MembersAt, Decimal.SkipSpaces;
    var text := "{" + SerializedMembers(members) + "}" + rest;
    var inner := SerializedMembers(members) + "}" + rest;
    assert text[1..] == inner;
    if members == [] {
      NothingPrinted();
      assert inner == ['}'] + rest;
      ConsumedHere('}', '}', rest);
    } else {
      PrintedMembers(members, [], rest);
      MembersStartWithQuote(members);
      assert inner == ['\"'] + inner[1..];
      ConsumedHere('\"', '}', inner[1..]);
    }
  }

  lemma NothingPrinted()
    ensures SerializedMembers([]) == "" && SerializedItems([]) == ""
  {
  }

  lemma MembersStartWithQuote(members: seq<Member>)
    requires members != [] && PrintableMembers(members)
    ensures SerializedMembers(members) != "" && SerializedMembers(members)[0] == '\"'
  {
    hide Serialized, Escaped;
  }

  /** One member, printed and read back. */
  lemma {:induction false} PrintedMember(member: Member, rest: string)
    requires Printable(member.value) && EndsNumber(rest)
    ensures MemberAt(Quoted(member.key) + ":" + Serialized(member.value) + rest)
         == Some(Parsed(Member(Masked(member.key), Sanitized(member.value)), rest))
    decreases member, 0
  {
    hide Quoted, Serialized, StringAt, ValueAt, Masked, Sanitized, Decimal.SkipSpaces;
    var afterColon := Serialized(member.value) + rest;
    var afterKey := [':'] + afterColon;
    assert Quoted(member.key) + ":" + Serialized(member.value) + rest == Quoted(member.key) + afterKey;
    QuotedString(member.key, afterKey);
    ConsumedHere(':', ':', afterColon);
    PrintedValue(member.value, rest);
  }

  lemma {:induction false} PrintedMembers(members: seq<Member>, done: seq<Member>, rest: string)
    requires members != [] && PrintableMembers(members)
    ensures MembersAt(SerializedMembers(members) + "}" + rest, done) ==
            Some(Parsed(SanitizedMembers(members, done), rest))
    decreases members, 0
  {
    hide Quoted, Serialized, MemberAt, Masked, Sanitized, Emplaced, Decimal.SkipSpaces;
    var member, others := members[0], members[1..];
    var head := Quoted(member.key) + ":" + Serialized(member.value);
    var more := Emplaced(done, Masked(member.key), Sanitized(member.value));
    if |members| == 1 {
      var tail := ['}'] + rest;
      assert SerializedMembers(members) + "}" + rest == head + tail;
      PrintedMember(member, tail);
      ConsumedHere('}', '}', rest);
      assert others == [];
    } else {
      var afterComma := SerializedMembers(others) + "}" + rest;
      var tail := [','] + afterComma;
      assert SerializedMembers(members) + "}" + rest == head + tail;
      PrintedMember(member, tail);
      ConsumedHere(',', '}', afterComma);
      ConsumedHere(',', ',', afterComma);
      PrintedMembers(others, more, rest);
    }
  }

  lemma {:induction false} PrintedArray(items: seq<Json>, rest: string)
    requires PrintableItems(items)
    ensures var text := "[" + SerializedItems(items) + "]" + rest;
            ArrayAt(text) == Some(Parsed(Json.Array(SanitizedItems(items)), rest))
    decreases items, 1
  {
    hide SerializedItems, ItemsAt, Decimal.SkipSpaces;
    var text := "[" + SerializedItems(items) + "]" + rest;
    var inner := SerializedItems(items) + "]" + rest;
    assert text[1..] == inner;
    if items == [] {
      NothingPrinted();
      assert inner == [']'] + rest;
      ConsumedHere(']', ']', rest);
    } else {
      PrintedItems(items, [], rest);
      ItemsStartPlainly(items);
      assert inner == [inner[0]] + inner[1..];
      ConsumedHere(inner[0], ']', inner[1..]);
      assert [] + SanitizedItems(items) == SanitizedItems(items);
    }
  }

  lemma ItemsStartPlainly(items: seq<Json>)
    requires items != [] && PrintableItems(items)
    ensures SerializedItems(items) != ""
    ensures var c := SerializedItems(items)[0]; !IsSpace(c) && c != ']'
  {
    hide Serialized;
    FirstChar(items[0]);
  }

  lemma {:induction false} PrintedItems(items: seq<Json>, done: seq<Json>, rest: string)
    requires items != [] && PrintableItems(items)
    ensures ItemsAt(SerializedItems(items) + "]" + rest, done) == Some(Parsed(done + SanitizedItems(items), rest))
    decreases items, 0
  {
    hide Serialized, ValueAt, Sanitized, Decimal.SkipSpaces;
    var head, others := Serialized(items[0]), items[1..];
    var more := done + [Sanitized(items[0])];
    Associate(done, [Sanitized(items[0])], SanitizedItems(others));
    if |items| == 1 {
      var tail := [']'] + rest;
      assert SerializedItems(items) + "]" + rest == head + tail;
      PrintedValue(items[0], tail);
      ConsumedHere(']', ']', rest);
      assert others == [] && more + [] == more;
    } else {
      var afterComma := SerializedItems(others) + "]" + rest;
      var tail := [','] + afterComma;
      assert SerializedItems(items) + "]" + rest == head + tail;
      PrintedValue(items[0], tail);
      ConsumedHere(',', ']', afterComma);
      ConsumedHere(',', ',', afterComma);
      PrintedItems(others, more, rest);
    }
  }

  /** For every value: parsing its printed form succeeds and gives the sanitized value. */
  lemma ParsePrinted(value: Json)
    requires Printable(value)
    ensures ParsedJson(Serialized(value)) == Success(Sanitized(value))
  {
    PrintedValue(value, "");
    assert Serialized(value) + "" == Serialized(value);
  }

  // ---------------------------------------------------------------------------------------------
  // When the round trip is exact

  lemma {:induction false} MaskedIff(text: string)
    ensures PlainText(Masked(text)) && |Masked(text)| == |text|
    ensures Masked(text) == text <==> PlainText(text)
  {
    if text != "" {
      MaskedIff(text[1..]);
      assert Masked(text)[0] == MaskedChar(text[0]) && Masked(text)[1..] == Masked(text[1..]);
      assert text == [text[0]] + text[1..];
    }
  }

  lemma {:induction false} SanitizedItem(items: seq<Json>)
    ensures |SanitizedItems(items)| == |items|
    ensures forall i | 0 <= i < |items| :: SanitizedItems(items)[i] == Sanitized(items[i])
  {
    if items != [] {
      SanitizedItem(items[1..]);
    }
  }

  lemma {:induction false} BeforeIsStrict(x: string, y: string)
    ensures !(Before(x, y) && Before(y, x)) && !Before(x, x)
    ensures Before(x, y) || Before(y, x) || x == y
  {
    if x != "" {
      BeforeIsStrict(x[1..], if y != "" then y[1..] else "");
      if y != "" && x[0] == y[0] && x[1..] == y[1..] {
        assert x == [x[0]] + x[1..] && y == [y[0]] + y[1..];
      }
    }
  }

  lemma {:induction false} BeforeIsTransitive(x: string, y: string, z: string)
    requires Before(x, y) && Before(y, z)
    ensures Before(x, z)
  {
    if x != "" && x[0] == y[0] == z[0] {
      BeforeIsTransitive(x[1..], y[1..], z[1..]);
    }
  }

  /** A key that comes after all others is emplaced at the end. */
  lemma {:induction false} EmplacedLast(members: seq<Member>, key: string, value: Json)
    requires forall i | 0 <= i < |members| :: Before(members[i].key, key)
    ensures Emplaced(members, key, value) == members + [Member(key, value)]
  {
    if members != [] {
      BeforeIsStrict(members[0].key, key);
      EmplacedLast(members[1..], key, value);
      assert members == [members[0]] + members[1..];
    }
  }

  /** With plain keys in order, sanitizing an object keeps its members where they are. */
  lemma {:induction false} SanitizedInOrder(members: seq<Member>, done: seq<Member>)
    requires Sorted(done + members)
    requires forall i | 0 <= i < |members| :: PlainText(members[i].key)
    ensures var result := SanitizedMembers(members, done);
            && |result| == |done| + |members| && done <= result
            && forall i | 0 <= i < |members| ::
                 result[|done| + i] == Member(members[i].key, Sanitized(members[i].value))
  {
    if members != [] {
      hide PlainText, Masked, Sanitized;
      var member := members[0];
      var more := done + [Member(member.key, Sanitized(member.value))];
      assert Emplaced(done, Masked(member.key), Sanitized(member.value)) == more by {
        MaskedIff(member.key);
        forall i | 0 <= i < |done| ensures Before(done[i].key, member.key) {
          assert (done + members)[i] == done[i] && (done + members)[|done|] == member;
        }
        EmplacedLast(done, member.key, Sanitized(member.value));
      }
      assert Sorted(more + members[1..]) by {
        forall i, j | 0 <= i < j < |more + members[1..]|
          ensures Before((more + members[1..])[i].key, (more + members[1..])[j].key)
        {
          assert (more + members[1..])[i].key == (done + members)[i].key;
          assert (more + members[1..])[j].key == (done + members)[j].key;
        }
      }
      SanitizedInOrder(members[1..], more);
      var result := SanitizedMembers(members, done);
      forall i | 0 <= i < |members|
        ensures result[|done| + i] == Member(members[i].key, Sanitized(members[i].value))
      {
        if i == 0 {
          assert result[|done|] == more[|done|];
        } else {
          assert result[|more| + (i - 1)] == Member(members[1..][i - 1].key, Sanitized(members[1..][i - 1].value));
        }
      }
    }
  }

  lemma {:induction false} EmplacedKeys(members: seq<Member>, key: string, value: Json)
    ensures forall m | m in Emplaced(members, key, value) :: m in members || m.key == key
  {
    if members != [] {
      EmplacedKeys(members[1..], key, value);
    }
  }

  lemma {:induction false} SanitizedKeysArePlain(members: seq<Member>, done: seq<Member>)
    requires forall m | m in done :: PlainText(m.key)
    ensures forall m | m in SanitizedMembers(members, done) :: PlainText(m.key)
  {
    if members != [] {
      MaskedIff(members[0].key);
      EmplacedKeys(done, Masked(members[0].key), Sanitized(members[0].value));
      SanitizedKeysArePlain(members[1..], Emplaced(done, Masked(members[0].key), Sanitized(members[0].value)));
    }
  }

  lemma SanitizedMembersIff(members: seq<Member>)
    requires Sorted(members)
    ensures SanitizedMembers(members, []) == members <==>
            forall i | 0 <= i < |members| ::
              PlainText(members[i].key) && Sanitized(members[i].value) == members[i].value
  {
    hide PlainText, Sanitized, SanitizedMembers, Before;
    var result := SanitizedMembers(members, []);
    SanitizedKeysArePlain(members, []);
    if forall i | 0 <= i < |members| :: PlainText(members[i].key) {
      assert [] + members == members;
      SanitizedInOrder(members, []);
      forall i | 0 <= i < |members|
        ensures result[i] == members[i] <==> Sanitized(members[i].value) == members[i].value
      {
        assert result[0 + i] == Member(members[i].key, Sanitized(members[i].value));
      }
      assert result == members <==> forall i | 0 <= i < |members| :: result[i] == members[i];
    } else {
      var i :| 0 <= i < |members| && !PlainText(members[i].key);
      assert members[i] in members;
    }
  }

  lemma SanitizedItemsIff(items: seq<Json>)
    ensures SanitizedItems(items) == items <==> forall i | 0 <= i < |items| :: Sanitized(items[i]) == items[i]
  {
    hide Sanitized, SanitizedItems;
    SanitizedItem(items);
    assert SanitizedItems(items) == items <==> forall i | 0 <= i < |items| :: SanitizedItems(items)[i] == items[i];
  }

  /** A value without lost characters is its own sanitized form, and no other value is. */
  lemma {:induction false} SanitizedIff(value: Json)
    requires WellFormed(value)
    ensures Sanitized(value) == value <==> Plain(value)
  {
    hide PlainText, SanitizedMembers, SanitizedItems, Sorted;
    match value {
      case String(text) =>
        MaskedIff(text);
      case Object(members) =>
        forall i | 0 <= i < |members|
          ensures Sanitized(members[i].value) == members[i].value <==> Plain(members[i].value)
        {
          SanitizedIff(members[i].value);
        }
        SanitizedMembersIff(members);
      case Array(items) =>
        forall i | 0 <= i < |items| ensures Sanitized(items[i]) == items[i] <==> Plain(items[i]) {
          SanitizedIff(items[i]);
        }
        SanitizedItemsIff(items);
      case _ =>
    }
  }

  /** The round trip is exact for precisely the plain values. */
  lemma RoundTripIff(value: Json)
    requires WellFormed(value) && Printable(value)
    ensures ParsedJson(Serialized(value)) == Success(value) <==> Plain(value)
  {
    ParsePrinted(value);
    SanitizedIff(value);
  }

  // ---------------------------------------------------------------------------------------------
  // What the parser returns

  lemma {:induction false} EmplacedStaysSorted(members: seq<Member>, key: string, value: Json)
    requires Sorted(members)
    ensures Sorted(Emplaced(members, key, value))
  {
    if members != [] {
      var head, tail := members[0], members[1..];
      BeforeIsStrict(key, head.key);
      if Before(key, head.key) {
        forall j | 0 <= j < |members| ensures Before(key, members[j].key) {
          if j > 0 {
            BeforeIsTransitive(key, head.key, members[j].key);
          }
        }
      } else if head.key != key {
        EmplacedStaysSorted(tail, key, value);
        EmplacedKeys(tail, key, value);
        var more := Emplaced(tail, key, value);
        forall j | 0 <= j < |more| ensures Before(head.key, more[j].key) {
          assert more[j] in more;
        }
      }
    }
  }

  lemma {:induction false} EmplacedValues(members: seq<Member>, key: string, value: Json)
    ensures forall m | m in Emplaced(members, key, value) :: m in members || m.value == value
  {
    if members != [] {
      EmplacedValues(members[1..], key, value);
    }
  }

  /** Whatever text is parsed, every object in the result is a map. */
  lemma {:induction false} ParsedIsWellFormed(text: string)
    ensures ValueAt(text).Some? ==> WellFormed(ValueAt(text).value.value)
    decreases |text|, 2
  {
    hide NumberAt, BooleanAt, NullAt, StringAt, Sorted, MembersAt, ItemsAt, ObjectAt, ArrayAt, Decimal.SkipSpaces;
    var t := Decimal.SkipSpaces(text);
    ScalarsAreWellFormed(t);
    NothingIsSorted();
    if t != "" && t[0] == '{' {
      ParsedMembersAreWellFormed(t[1..], []);
      ParsedObjectIsWellFormed(t);
    } else if t != "" && t[0] == '[' {
      ParsedItemsAreWellFormed(t[1..], []);
      ParsedArrayIsWellFormed(t);
    }
  }

  lemma ParsedArrayIsWellFormed(t: string)
    requires t != ""
    requires ItemsAt(t[1..], []).Some? ==>
               forall i | 0 <= i < |ItemsAt(t[1..], []).value.value| :: WellFormed(ItemsAt(t[1..], []).value.value[i])
    ensures ArrayAt(t).Some? ==> WellFormed(ArrayAt(t).value.value)
  {
    hide ItemsAt, Consumed;
  }

  lemma ParsedObjectIsWellFormed(t: string)
    requires t != ""
    requires MembersAt(t[1..], []).Some? ==>
               var members := MembersAt(t[1..], []).value.value;
               Sorted(members) && forall m | m in members :: WellFormed(m.value)
    ensures ObjectAt(t).Some? ==> WellFormed(ObjectAt(t).value.value)
  {
    hide Sorted, MembersAt, Consumed;
    NothingIsSorted();
    if ObjectAt(t).Some? {
      var members := ObjectAt(t).value.value.members;
      forall i | 0 <= i < |members| ensures WellFormed(members[i].value) {
        assert members[i] in members;
      }
    }
  }

  lemma NothingIsSorted()
    ensures Sorted([])
  {
  }

  lemma ScalarsAreWellFormed(t: string)
    ensures forall text :: WellFormed(Json.String(text))
    ensures t != "" && (t[0] == '-' || IsDigit(t[0])) && NumberAt(t).Some? ==> WellFormed(NumberAt(t).value.value)
    ensures BooleanAt(t).Some? ==> WellFormed(BooleanAt(t).value.value)
    ensures NullAt(t).Some? ==> WellFormed(NullAt(t).value.value)
  {
    hide NumberTokenAt, TokenValue;
  }

  lemma {:induction false} ParsedMembersAreWellFormed(text: string, members: seq<Member>)
    requires Sorted(members) && forall m | m in members :: WellFormed(m.value)
    ensures MembersAt(text, members).Some? ==>
              var more := MembersAt(text, members).value.value;
              Sorted(more) && forall m | m in more :: WellFormed(m.value)
    decreases |text|, 3
  {
    hide StringAt, Sorted, WellFormed, Decimal.SkipSpaces;
    if MemberAt(text).Some? {
      var Parsed(member, rest) := MemberAt(text).value;
      var Parsed(key, afterKey) := StringAt(text).value;
      ParsedIsWellFormed(Consumed(afterKey, ':').value);
      var more := Emplaced(members, member.key, member.value);
      EmplacedStaysSorted(members, member.key, member.value);
      EmplacedValues(members, member.key, member.value);
      if Consumed(rest, '}').None? && Consumed(rest, ',').Some? {
        ParsedMembersAreWellFormed(Consumed(rest, ',').value, more);
      }
    }
  }

  lemma {:induction false} ParsedItemsAreWellFormed(text: string, items: seq<Json>)
    requires forall i | 0 <= i < |items| :: WellFormed(items[i])
    ensures ItemsAt(text, items).Some? ==>
              forall i | 0 <= i < |ItemsAt(text, items).value.value| :: WellFormed(ItemsAt(text, items).value.value[i])
    decreases |text|, 3
  {
    hide TokenAt, Decimal.SkipSpaces;
    ParsedIsWellFormed(text);
    if ValueAt(text).Some? {
      var Parsed(item, rest) := ValueAt(text).value;
      if Consumed(rest, ']').None? && Consumed(rest, ',').Some? {
        ParsedItemsAreWellFormed(Consumed(rest, ',').value, items + [item]);
      }
    }
  }
}
