/** Whatever is read was a valid document: the parser accepts precisely their spellings. */
module JsonAcceptance {
  import opened Common
  import opened Json
  import opened JsonParser
  import opened JsonRoundTrip
  import opened JsonGrammar
  import opened JsonNumerals
  import opened JsonReading
  import Decimal

  // ---------------------------------------------------------------------------------------------
  // Whatever is read was a valid document

  lemma BlanksWereSkipped(text: string) returns (blanks: string)
    ensures Blank(blanks) && text == blanks + Decimal.SkipSpaces(text)
  {
    hide Blank, Decimal.SkipSpaces;
    var n := |text| - |Decimal.SkipSpaces(text)|;
    blanks := text[..n];
    SkippedAreBlank(text);
    assert text == text[..n] + text[n..];
  }

  lemma {:induction false} SkippedAreBlank(text: string)
    ensures Blank(text[..|text| - |Decimal.SkipSpaces(text)|])
  {
    hide BLANKS, IsSpace, Blank;
    if text != "" && IsSpace(text[0]) {
      SkippedAreBlank(text[1..]);
      var n := |text| - |Decimal.SkipSpaces(text)|;
      OneMoreBlank(text[0], text[1..][..n - 1]);
      assert text[..n] == [text[0]] + text[1..][..n - 1];
    } else {
      NothingIsBlank();
    }
  }

  lemma OneMoreBlank(c: char, blanks: string)
    requires IsSpace(c) && Blank(blanks)
    ensures Blank([c] + blanks)
  {
    hide BLANKS;
    SpaceIsBlank(c);
  }

  lemma SpaceIsBlank(c: char)
    ensures IsSpace(c) <==> c in BLANKS
  {
    assert BLANKS[0] == ' ' && BLANKS[1] == '\t' && BLANKS[2] == '\n' && BLANKS[3] == 11 as char;
    assert BLANKS[4] == 12 as char && BLANKS[5] == '\r';
  }

  lemma ConsumedWasThere(text: string, expected: char) returns (blanks: string)
    requires Consumed(text, expected).Some?
    ensures Blank(blanks) && text == blanks + [expected] + Consumed(text, expected).value
  {
    hide Decimal.SkipSpaces, Blank;
    blanks := BlanksWereSkipped(text);
    var t := Decimal.SkipSpaces(text);
    assert t == [expected] + t[1..];
  }

  lemma {:induction false} BodyWasWritten(text: string) returns (pieces: seq<Piece>)
    requires StringBody(text).Some?
    ensures ValidPieces(pieces) && text == PiecesText(pieces) + "\"" + StringBody(text).value.rest
    ensures PiecesMeaning(pieces) == StringBody(text).value.value
  {
    if text[0] == '\"' {
      pieces := [];
    } else {
      var piece, later := PieceWasWritten(text);
      var others := BodyWasWritten(later);
      hide StringBody, PiecesText, PiecesMeaning;
      pieces := [piece] + others;
      PiecesPrepended(piece, others);
      Associate(PieceText(piece), PiecesText(others), "\"");
      Associate(PieceText(piece), PiecesText(others) + "\"", StringBody(text).value.rest);
    }
  }

  lemma PiecesPrepended(piece: Piece, others: seq<Piece>)
    requires ValidPiece(piece) && ValidPieces(others)
    ensures ValidPieces([piece] + others) && PiecesText([piece] + others) == PieceText(piece) + PiecesText(others)
    ensures PiecesMeaning([piece] + others) == [PieceMeaning(piece)] + PiecesMeaning(others)
  {
    hide ValidPiece, PieceText, PieceMeaning;
    assert ([piece] + others)[1..] == others;
  }

  lemma PieceWasWritten(text: string) returns (piece: Piece, later: string)
    requires StringBody(text).Some? && text[0] != '\"'
    ensures ValidPiece(piece) && text == PieceText(piece) + later && |later| < |text|
    ensures StringBody(text) == Prefixed(PieceMeaning(piece), StringBody(later)) && StringBody(later).Some?
  {
    hide LETTERS, Unescaped;
    if text[0] != '\\' {
      piece, later := Raw(text[0]), text[1..];
    } else if text[1] == 'u' {
      piece, later := Unicode(text[2..6]), text[6..];
    } else {
      piece, later := Escape(text[1]), text[2..];
      UnescapedIsLetter(text[1]);
      LettersAreMeant(text[1]);
    }
  }

  lemma UnescapedIsLetter(escape: char)
    requires Unescaped(escape).Some?
    ensures escape in LETTERS
  {
    assert LETTERS[0] == '\"' && LETTERS[1] == '\\' && LETTERS[2] == '/' && LETTERS[3] == 'b';
    assert LETTERS[4] == 'f' && LETTERS[5] == 'n' && LETTERS[6] == 'r' && LETTERS[7] == 't';
  }

  lemma StringWasWritten(text: string) returns (before: string, pieces: seq<Piece>)
    requires StringAt(text).Some?
    ensures Blank(before) && ValidPieces(pieces) && PiecesMeaning(pieces) == StringAt(text).value.value
    ensures text == before + "\"" + PiecesText(pieces) + "\"" + StringAt(text).value.rest
  {
    hide StringBody, Consumed, PiecesText, PiecesMeaning, ValidPieces, Blank;
    before := ConsumedWasThere(text, '\"');
    pieces := BodyWasWritten(Consumed(text, '\"').value);
  }

  lemma FractionWasWritten(text: string) returns (point: bool)
    ensures !point ==> FractionAt(text).value == ""
    ensures text == (if point then "." + FractionAt(text).value else "") + FractionAt(text).rest
    ensures AllDigits(FractionAt(text).value)
  {
    hide Decimal.DigitRun;
    point := text != "" && text[0] == '.';
  }

  lemma ExponentWasWritten(text: string) returns (exponent: Option<Exponent>)
    ensures var Parsed((has, sign, digits), rest) := ExponentAt(text);
            && (exponent.Some? <==> has)
            && (has ==> exponent.value.sign == sign && exponent.value.digits == digits)
            && (has && digits != "" ==> ValidExponent(exponent.value))
            && (!has ==> sign == "" && digits == "") && AllDigits(digits)
            && text == ExponentText(exponent) + rest
  {
    hide Decimal.DigitRun, IsDigit;
    var Parsed((has, sign, digits), rest) := ExponentAt(text);
    if has {
      exponent := Some(Exponent(text[0], sign, digits));
      var afterSign := text[1 + |sign|..];
      assert afterSign == digits + rest;
      assert text == [text[0]] + sign + afterSign;
      Associate([text[0]] + sign, digits, rest);
    } else {
      exponent := None;
      assert "" + rest == rest;
    }
  }

  lemma NumberWasWritten(text: string) returns (numeral: Numeral)
    requires text != "" && (text[0] == '-' || IsDigit(text[0])) && NumberAt(text).Some?
    ensures ValidNumeral(numeral) && text == NumeralText(numeral) + NumberAt(text).value.rest
    ensures NumberAt(text).value.value == Json.Number(NumeralValue(numeral))
  {
    hide NumberTokenAt, TokenValue, NumeralValue, NumeralText;
    numeral := TokenWasWritten(text);
    assert AllDigits("");
    TokenHasDigits(TokenOf(numeral));
    if text[0] != '-' {
      RunOfFirst(text);
    }
    TokenMeaning(numeral);
  }

  lemma TokenWasWritten(text: string) returns (numeral: Numeral)
    requires text != "" && (text[0] == '-' || IsDigit(text[0]))
    ensures var Parsed(token, rest) := NumberTokenAt(text);
            token == TokenOf(numeral) && text == NumeralText(numeral) + rest
    ensures numeral.minus <==> text[0] == '-'
    ensures !numeral.minus ==> numeral.whole == Decimal.DigitRun(text)
    ensures !numeral.point ==> numeral.fraction == ""
    ensures AllDigits(numeral.whole) && AllDigits(numeral.fraction)
    ensures numeral.exponent.Some? ==>
              var exponent := numeral.exponent.value;
              AllDigits(exponent.digits) && (exponent.digits != "" ==> ValidExponent(exponent))
  {
    hide Decimal.DigitRun, FractionAt, ExponentAt, ValidExponent, ExponentText, IsDigit, NumeralText, FractionText,
         AllDigits, NumberTokenAt;
    var minus, unsigned := SignWasWritten(text);
    var whole := Decimal.DigitRun(unsigned);
    var afterWhole := unsigned[|whole|..];
    var point := FractionWasWritten(afterWhole);
    var Parsed(fraction, afterFraction) := FractionAt(afterWhole);
    var exponent := ExponentWasWritten(afterFraction);
    numeral := Numeral(minus, whole, point, fraction, exponent);
    RunIsDigits(unsigned);
    FractionTextOf(numeral);
    NumeralJoined(numeral, ExponentAt(afterFraction).rest);
    TokenBehindSign(minus, unsigned);
  }

  lemma SignWasWritten(text: string) returns (minus: bool, unsigned: string)
    requires text != ""
    ensures (minus <==> text[0] == '-') && (!minus ==> unsigned == text)
    ensures text == (if minus then "-" else "") + unsigned
  {
    minus := text[0] == '-';
    unsigned := if minus then text[1..] else text;
  }

  lemma FractionTextOf(numeral: Numeral)
    ensures FractionText(numeral) == if numeral.point then "." + numeral.fraction else ""
  {
  }

  lemma RunIsDigits(text: string)
    ensures AllDigits(Decimal.DigitRun(text))
    ensures text == Decimal.DigitRun(text) + text[|Decimal.DigitRun(text)|..]
  {
  }

  lemma RunOfFirst(text: string)
    requires text != "" && IsDigit(text[0])
    ensures Decimal.DigitRun(text) != ""
  {
  }

  lemma TokenHasDigits(token: NumberToken)
    requires AllDigits(token.whole) && AllDigits(token.fraction) && AllDigits(token.exponent)
    requires TokenValue(token).Some?
    ensures token.whole != "" || token.fraction != ""
    ensures token.hasExponent ==> token.exponent != ""
  {
    hide Decimal.Number, PowerOfTen;
  }

  lemma {:induction false} TokenWasDocument(t: string) returns (document: Document)
    requires TokenAt(t).Some?
    ensures Valid(document) && t == Written(document) + TokenAt(t).value.rest
    ensures Meaning(document) == TokenAt(t).value.value
    decreases |t|, 2
  {
    hide StringAt, NumberAt, ObjectAt, ArrayAt, PiecesText, PiecesMeaning, NumeralText, NumeralValue, ValidNumeral,
         ValidPieces, ItemsText, FieldsText, ItemsMeaning, FieldsMeaning;
    if t[0] == '{' {
      document := ObjectWasRecord(t);
    } else if t[0] == '[' {
      document := ArrayWasList(t);
    } else if t[0] == '\"' {
      var before, pieces := StringWasWritten(t);
      QuoteIsFirst(t, before);
      document := Text(pieces);
    } else if t[0] == 't' || t[0] == 'f' {
      document := if "true" <= t then TrueWord else FalseWord;
    } else if t[0] == 'n' {
      document := NullWord;
    } else {
      var numeral := NumberWasWritten(t);
      document := Figure(numeral);
    }
  }

  lemma QuoteIsFirst(t: string, before: string)
    requires t != "" && t[0] == '\"' && Blank(before) && before <= t
    ensures before == ""
  {
    if before != "" {
      assert before[0] == t[0] && before[0] in BLANKS;
      SpaceIsBlank(before[0]);
    }
  }

  lemma {:induction false} ArrayWasList(t: string) returns (document: Document)
    requires t != "" && t[0] == '[' && ArrayAt(t).Some?
    ensures Valid(document) && t == Written(document) + ArrayAt(t).value.rest
    ensures Meaning(document) == ArrayAt(t).value.value
    decreases |t|, 1
  {
    hide Consumed, Blank, ItemsAt, ItemsText, ItemsMeaning, ValidItem;
    var rest := ArrayAt(t).value.rest;
    assert t == "[" + t[1..];
    if Consumed(t[1..], ']').Some? {
      var gap := ConsumedWasThere(t[1..], ']');
      document := List(gap, []);
      NothingMeant();
    } else {
      var items := ItemsWereWritten(t[1..], []);
      NothingIsBlank();
      document := List("", items);
      assert [] + ItemsMeaning(items) == ItemsMeaning(items);
      assert t[1..] == ItemsText(items) + "]" + rest;
    }
  }

  lemma NothingIsBlank()
    ensures Blank("")
  {
  }

  lemma {:induction false} ItemWasWritten(text: string) returns (item: Item)
    requires ValueAt(text).Some?
    ensures ValidItem(item) && item.after == ""
    ensures text == ItemText(item) + ValueAt(text).value.rest
    ensures Meaning(item.document) == ValueAt(text).value.value
    decreases |text|, 3
  {
    hide TokenAt, Decimal.SkipSpaces, Written, Meaning, Valid, Blank;
    var before := BlanksWereSkipped(text);
    SkippedIsShorter(text);
    var document := TokenWasDocument(Decimal.SkipSpaces(text));
    NothingIsBlank();
    item := Item(before, document, "");
    assert ItemText(item) == before + Written(document);
  }

  lemma SkippedIsShorter(text: string)
    ensures |Decimal.SkipSpaces(text)| <= |text|
  {
  }

  lemma {:induction false} ItemsWereWritten(text: string, done: seq<Json>) returns (items: seq<Item>)
    requires ItemsAt(text, done).Some?
    ensures items != [] && forall i | 0 <= i < |items| :: ValidItem(items[i])
    ensures text == ItemsText(items) + "]" + ItemsAt(text, done).value.rest
    ensures ItemsAt(text, done).value.value == done + ItemsMeaning(items)
    decreases |text|, 5
  {
    hide Consumed, ValueAt, ItemsText, ItemsMeaning, ItemText, Blank, Valid, Meaning;
    var rest := ValueAt(text).value.rest;
    if Consumed(rest, ']').Some? {
      var item := ItemUpTo(text, ']');
      items := [item];
      OneItem(item);
    } else {
      var item := ItemUpTo(text, ',');
      var later, value := Consumed(rest, ',').value, Meaning(item.document);
      var others := ItemsWereWritten(later, done + [value]);
      items := [item] + others;
      ItemsPrepended(item, others);
      Associate(done, [value], ItemsMeaning(others));
      var end := ItemsAt(text, done).value.rest;
      Joined(ItemText(item), ",", ItemsText(others), "]", end);
    }
  }

  lemma OneItem(item: Item)
    requires ValidItem(item)
    ensures ItemsText([item]) == ItemText(item) && ItemsMeaning([item]) == [Meaning(item.document)]
  {
    hide ItemText, Meaning, ValidItem;
    assert ItemText(item) + "" == ItemText(item);
  }

  /** A value and what is consumed behind it. */
  lemma {:induction false} ItemUpTo(text: string, expected: char) returns (item: Item)
    requires ValueAt(text).Some? && Consumed(ValueAt(text).value.rest, expected).Some?
    ensures ValidItem(item) && Meaning(item.document) == ValueAt(text).value.value
    ensures text == ItemText(item) + [expected] + Consumed(ValueAt(text).value.rest, expected).value
    decreases |text|, 4
  {
    hide Consumed, ValueAt, Blank, Written, Meaning, ItemText, Valid;
    var bare := ItemWasWritten(text);
    var after := ConsumedWasThere(ValueAt(text).value.rest, expected);
    item := bare.(after := after);
    AfterIsLast(bare, after);
  }

  lemma ItemsPrepended(item: Item, others: seq<Item>)
    requires ValidItem(item) && others != [] && forall i | 0 <= i < |others| :: ValidItem(others[i])
    ensures ItemsText([item] + others) == ItemText(item) + ("," + ItemsText(others))
    ensures ItemsMeaning([item] + others) == [Meaning(item.document)] + ItemsMeaning(others)
  {
    hide ItemText, Meaning, ValidItem;
    assert ([item] + others)[1..] == others;
  }

  lemma {:induction false} ObjectWasRecord(t: string) returns (document: Document)
    requires t != "" && t[0] == '{' && ObjectAt(t).Some?
    ensures Valid(document) && t == Written(document) + ObjectAt(t).value.rest
    ensures Meaning(document) == ObjectAt(t).value.value
    decreases |t|, 1
  {
    hide Consumed, Blank, MembersAt, FieldsText, FieldsMeaning, ValidField;
    var rest := ObjectAt(t).value.rest;
    assert t == "{" + t[1..];
    if Consumed(t[1..], '}').Some? {
      var gap := ConsumedWasThere(t[1..], '}');
      document := Record(gap, []);
      NothingMeant();
    } else {
      var fields := FieldsWereWritten(t[1..], []);
      NothingIsBlank();
      document := Record("", fields);
      assert t[1..] == FieldsText(fields) + "}" + rest;
    }
  }

  lemma NothingMeant()
    ensures ItemsMeaning([]) == [] && FieldsMeaning([], []) == []
  {
  }

  lemma {:induction false} FieldWasWritten(text: string) returns (field: Field)
    requires MemberAt(text).Some?
    ensures ValidField(field) && ValidItem(field.item) && field.item.after == ""
    ensures text == FieldText(field) + MemberAt(text).value.rest
    ensures MemberAt(text).value.value == Member(PiecesMeaning(field.key), Meaning(field.item.document))
    decreases |text|, 4
  {
    hide StringAt, Consumed, ValueAt, ItemText, Blank, PiecesText, PiecesMeaning, ValidPieces, Meaning, Valid;
    var Parsed(key, afterKey) := StringAt(text).value;
    var before, pieces := StringWasWritten(text);
    var between := ConsumedWasThere(afterKey, ':');
    var item := ItemWasWritten(Consumed(afterKey, ':').value);
    field := Field(before, pieces, between, item);
    var quoted := before + "\"" + PiecesText(pieces) + "\"";
    assert text == quoted + (between + [':'] + (ItemText(item) + MemberAt(text).value.rest));
    assert FieldText(field) == quoted + between + ":" + ItemText(item);
  }

  lemma {:induction false} FieldsWereWritten(text: string, done: seq<Member>) returns (fields: seq<Field>)
    requires MembersAt(text, done).Some?
    ensures fields != [] && forall i | 0 <= i < |fields| :: ValidField(fields[i])
    ensures text == FieldsText(fields) + "}" + MembersAt(text, done).value.rest
    ensures MembersAt(text, done).value.value == FieldsMeaning(fields, done)
    decreases |text|, 5
  {
    hide Consumed, MemberAt, Blank, ItemText, Emplaced, PiecesText, PiecesMeaning, ValidPieces, Valid, Meaning;
    var Parsed(member, rest) := MemberAt(text).value;
    var bare := FieldWasWritten(text);
    if Consumed(rest, '}').Some? {
      var after := ConsumedWasThere(rest, '}');
      var field := Trailed(bare, after);
      fields := [field];
    } else {
      var after := ConsumedWasThere(rest, ',');
      var field := Trailed(bare, after);
      var later := Consumed(rest, ',').value;
      var others := FieldsWereWritten(later, Emplaced(done, member.key, member.value));
      fields := [field] + others;
      assert fields[1..] == others;
      assert text == FieldText(field) + [','] + later;
      assert FieldsText(fields) == FieldText(field) + ("," + FieldsText(others));
    }
  }

  lemma Trailed(bare: Field, after: string) returns (field: Field)
    requires ValidField(bare) && ValidItem(bare.item) && bare.item.after == "" && Blank(after)
    ensures field == bare.(item := bare.item.(after := after))
    ensures ValidField(field) && ValidItem(field.item) && FieldText(field) == FieldText(bare) + after
  {
    hide Blank, Written, PiecesText, ValidPieces, Valid;
    field := bare.(item := bare.item.(after := after));
    assert ItemText(field.item) == ItemText(bare.item) + after;
    var head := bare.before + "\"" + PiecesText(bare.key) + "\"" + bare.between + ":";
    Associate(head, ItemText(bare.item), after);
  }

  // ---------------------------------------------------------------------------------------------
  // The parser accepts precisely the valid documents

  /** The text spells this value. */
  ghost predicate Spells(text: string, value: Json) {
    exists item :: ValidItem(item) && ItemText(item) == text && Meaning(item.document) == value
  }

  lemma AfterIsLast(bare: Item, after: string)
    requires bare.after == ""
    ensures ItemText(bare.(after := after)) == ItemText(bare) + after
  {
    hide Written;
    assert ItemText(bare) == bare.before + Written(bare.document);
  }

  /** A parse succeeds with a value exactly if the text spells it; else it is an error. */
  lemma ParsesIff(text: string, value: Json)
    ensures ParsedJson(text) == Success(value) <==> Spells(text, value)
    ensures ParsedJson(text).Failure? ==> ParsedJson(text).code == "JSON_PARSE_ERROR"
  {
    hide ValueAt, Decimal.SkipSpaces, ItemText, Valid, Meaning, Blank;
    if ParsedJson(text) == Success(value) {
      var bare := ItemWasWritten(text);
      var rest := ValueAt(text).value.rest;
      var blanks := BlanksWereSkipped(rest);
      assert blanks + "" == blanks;
      var item := bare.(after := rest);
      assert ItemText(item) == text by {
        AfterIsLast(bare, rest);
      }
      assert ValidItem(item);
    }
    if Spells(text, value) {
      var item :| ValidItem(item) && ItemText(item) == text && Meaning(item.document) == value;
      ItemIsRead(item, "");
      assert text + "" == text && item.after + "" == item.after;
      BlanksAreSkipped(item.after, "");
    }
  }

  // ---------------------------------------------------------------------------------------------
  // Objects: of equal keys the first counts

  /** The field is the first with its key, and means this member. */
  ghost predicate FirstMeans(fields: seq<Field>, i: nat, member: Member) {
    && i < |fields| && ValidField(fields[i]) && ValidItem(fields[i].item)
    && Member(PiecesMeaning(fields[i].key), Meaning(fields[i].item.document)) == member
    && forall j | 0 <= j < i && ValidPieces(fields[j].key) :: PiecesMeaning(fields[j].key) != member.key
  }

  /** An object has a member exactly if the first of its fields with that key means it. */
  lemma ObjectHolds(gap: string, fields: seq<Field>, member: Member)
    requires Valid(Record(gap, fields))
    ensures Meaning(Record(gap, fields)).Object?
    ensures var members := Meaning(Record(gap, fields)).members;
            Sorted(members) && (member in members <==> exists i: nat :: FirstMeans(fields, i, member))
  {
    NothingIsSorted();
    FieldsHold(fields, [], member);
  }

  lemma {:induction false} FieldsHold(fields: seq<Field>, done: seq<Member>, member: Member)
    requires Sorted(done) && forall i | 0 <= i < |fields| :: ValidField(fields[i])
    ensures Sorted(FieldsMeaning(fields, done))
    ensures member in FieldsMeaning(fields, done) <==>
            || member in done
            || (NoneHas(done, member.key) && exists i: nat :: FirstMeans(fields, i, member))
  {
    if fields != [] {
      hide Emplaced, Sorted, PiecesMeaning, Meaning, ValidPieces, Valid;
      var first := fields[0];
      assert ValidField(first) && ValidItem(first.item);
      var key, value := PiecesMeaning(first.key), Meaning(first.item.document);
      var more := Emplaced(done, key, value);
      EmplacedStaysSorted(done, key, value);
      EmplacedHolds(done, key, value, member);
      FieldsHold(fields[1..], more, member);
      NoneHasMore(done, key, value, member.key);
      FirstOfRest(fields, member);
    }
  }

  /** No member has the key. */
  ghost predicate NoneHas(members: seq<Member>, key: string) {
    forall m | m in members :: m.key != key
  }

  lemma NoneHasMore(done: seq<Member>, key: string, value: Json, other: string)
    requires Sorted(done)
    ensures NoneHas(Emplaced(done, key, value), other) <==> NoneHas(done, other) && key != other
  {
    hide Emplaced, Sorted;
    forall m: Member ensures m in Emplaced(done, key, value) <==>
                             m in done || (m == Member(key, value) && NoneHas(done, key))
    {
      EmplacedHolds(done, key, value, m);
    }
    if !NoneHas(done, key) {
      var m :| m in done && m.key == key;
      assert m in Emplaced(done, key, value);
    } else {
      assert Member(key, value) in Emplaced(done, key, value);
    }
  }

  lemma FirstOfRest(fields: seq<Field>, member: Member)
    requires fields != [] && ValidField(fields[0]) && ValidItem(fields[0].item)
    ensures (exists i: nat :: FirstMeans(fields, i, member)) <==>
            var key := PiecesMeaning(fields[0].key);
            if key == member.key then Meaning(fields[0].item.document) == member.value
            else exists i: nat :: FirstMeans(fields[1..], i, member)
  {
    hide PiecesMeaning, Meaning, ValidPieces, Valid;
    var key := PiecesMeaning(fields[0].key);
    if key == member.key {
      if Meaning(fields[0].item.document) == member.value {
        assert FirstMeans(fields, 0, member);
      }
    } else {
      forall i: nat ensures FirstMeans(fields[1..], i, member) <==> FirstMeans(fields, i + 1, member) {
        if i < |fields[1..]| {
          assert fields[1..][i] == fields[i + 1];
          LaterFields(fields, i, member.key);
        }
      }
      if exists i: nat :: FirstMeans(fields, i, member) {
        var i: nat :| FirstMeans(fields, i, member);
        assert FirstMeans(fields[1..], i - 1, member);
      }
    }
  }

  lemma LaterFields(fields: seq<Field>, i: nat, key: string)
    requires i < |fields| - 1 && ValidPieces(fields[0].key) && PiecesMeaning(fields[0].key) != key
    ensures (forall j | 0 <= j < i && ValidPieces(fields[1..][j].key) :: PiecesMeaning(fields[1..][j].key) != key) <==>
            (forall j | 0 <= j < i + 1 && ValidPieces(fields[j].key) :: PiecesMeaning(fields[j].key) != key)
  {
    hide PiecesMeaning, ValidPieces;
    if forall j | 0 <= j < i && ValidPieces(fields[1..][j].key) :: PiecesMeaning(fields[1..][j].key) != key {
      forall j | 0 <= j < i + 1 && ValidPieces(fields[j].key) ensures PiecesMeaning(fields[j].key) != key {
        if j > 0 {
          assert fields[1..][j - 1] == fields[j];
        }
      }
    }
  }

  /** Emplacing adds its member exactly if the key is new, and takes none away. */
  lemma {:induction false} EmplacedHolds(members: seq<Member>, key: string, value: Json, member: Member)
    requires Sorted(members)
    ensures member in Emplaced(members, key, value) <==>
            member in members || (member == Member(key, value) && NoneHas(members, key))
  {
    if members != [] {
      var head, tail := members[0], members[1..];
      assert members == [head] + tail;
      BeforeIsStrict(key, head.key);
      if Before(key, head.key) {
        forall m | m in members ensures m.key != key {
          var j :| 0 <= j < |members| && members[j] == m;
          if j > 0 {
            BeforeIsTransitive(key, head.key, m.key);
          }
          BeforeIsStrict(key, key);
        }
      } else if head.key != key {
        EmplacedHolds(tail, key, value, member);
      }
    }
  }

  /** The order of keys is that of a dictionary: by the first character that differs, shorter ones first. */
  lemma {:induction false} BeforeIff(x: string, y: string)
    ensures Before(x, y) <==> exists i: nat :: DiffersFrom(x, y, i)
  {
    if x == "" {
      assert y != "" ==> DiffersFrom(x, y, 0);
    } else if y != "" {
      BeforeIff(x[1..], y[1..]);
      if x[0] < y[0] {
        assert DiffersFrom(x, y, 0);
      } else if x[0] == y[0] {
        forall i: nat ensures DiffersFrom(x[1..], y[1..], i) <==> DiffersFrom(x, y, i + 1) {
          if i <= |x[1..]| && i < |y[1..]| {
            assert x[..i + 1] == [x[0]] + x[1..][..i] && y[..i + 1] == [y[0]] + y[1..][..i];
          }
        }
        if exists i: nat :: DiffersFrom(x, y, i) {
          var i: nat :| DiffersFrom(x, y, i);
          assert i > 0;
          assert DiffersFrom(x[1..], y[1..], i - 1);
        }
      } else {
        forall i: nat ensures !DiffersFrom(x, y, i) {
          assert 0 < i <= |x| && i < |y| ==> x[..i][0] == x[0] && y[..i][0] == y[0];
        }
      }
    }
  }

  /** The two agree up to the place `i`, where the first one ends or has the lesser character. */
  ghost predicate DiffersFrom(x: string, y: string, i: nat) {
    i <= |x| && i < |y| && x[..i] == y[..i] && (i == |x| || x[i] < y[i])
  }

  // ---------------------------------------------------------------------------------------------
  // Numbers, in plain text

  lemma NumeralIsParsed(numeral: Numeral)
    requires ValidNumeral(numeral)
    ensures ParsedJson(NumeralText(numeral)) == Success(Json.Number(NumeralValue(numeral)))
  {
    hide ParsedJson, NumeralText, NumeralValue, ValidNumeral;
    var document := Figure(numeral);
    var item := Item("", document, "");
    NothingIsBlank();
    assert Valid(document) && Written(document) == NumeralText(numeral);
    assert Meaning(document) == Json.Number(NumeralValue(numeral));
    assert ItemText(item) == NumeralText(numeral);
    assert Spells(NumeralText(numeral), Json.Number(NumeralValue(numeral)));
    ParsesIff(NumeralText(numeral), Json.Number(NumeralValue(numeral)));
  }

  /** With a point, ten to the number of places times the value is the number of all digits. */
  lemma FractionIsExact(whole: string, fraction: string) returns (r: real)
    requires AllDigits(whole) && AllDigits(fraction) && whole != "" && fraction != ""
    ensures AllDigits(whole + fraction)
    ensures r * Decimal.TenTo(|fraction|) as real == Decimal.Number(whole + fraction) as real
    ensures ParsedJson(whole + "." + fraction) == Success(Json.Number(r))
    ensures ParsedJson("-" + whole + "." + fraction) == Success(Json.Number(-r))
  {
    hide ParsedJson, Decimal.Number, Decimal.TenTo;
    Decimal.NumberIsPositional(whole, fraction);
    var plain, negated := Numeral(false, whole, true, fraction, None), Numeral(true, whole, true, fraction, None);
    r := NumeralValue(plain);
    NumeralIsParsed(plain);
    NumeralIsParsed(negated);
    assert NumeralText(plain) == whole + "." + fraction && NumeralText(negated) == "-" + whole + "." + fraction;
  }

  /** An exponent multiplies or divides whatever stands before it by a power of ten. */
  lemma ExponentShifts(numeral: Numeral, letter: char, sign: string, digits: string)
    requires ValidNumeral(numeral) && numeral.exponent.None? && ValidExponent(Exponent(letter, sign, digits))
    ensures var base := ParsedJson(NumeralText(numeral));
            var shifted := ParsedJson(NumeralText(numeral) + [letter] + sign + digits);
            var power := Decimal.TenTo(Decimal.Number(digits)) as real;
            && base.Success? && base.value.Number? && shifted.Success? && shifted.value.Number?
            && (sign != "-" ==> shifted.value.value == base.value.value * power)
            && (sign == "-" ==> shifted.value.value * power == base.value.value)
  {
    hide ParsedJson, Decimal.Number, Decimal.TenTo;
    var more := numeral.(exponent := Some(Exponent(letter, sign, digits)));
    NumeralIsParsed(numeral);
    NumeralIsParsed(more);
    assert NumeralText(more) == NumeralText(numeral) + [letter] + sign + digits by {
      var head := (if numeral.minus then "-" else "") + numeral.whole + FractionText(numeral);
      assert NumeralText(numeral) == head;
      Associate(head, [letter] + sign, digits);
      Associate(head, [letter], sign);
    }
    var all := Decimal.Number(numeral.whole + numeral.fraction) as real;
    assert AllDigits(digits);
    Rescaled(all, Decimal.TenTo(|numeral.fraction|) as real, Decimal.TenTo(Decimal.Number(digits)) as real);
  }

  lemma Rescaled(digits: real, places: real, shift: real)
    requires places > 0.0 && shift > 0.0
    ensures digits * shift / places == (digits * 1.0 / places) * shift
    ensures digits / (places * shift) * shift == digits * 1.0 / places
  {
    Reordered(digits, places, shift);
  }

  // ---------------------------------------------------------------------------------------------
  // What the printer writes

  const HEX := "0123456789abcdef"

  /** The number that four hexadecimal digits stand for. */
  predicate HexStandsFor(digits: string, n: int) {
    && |digits| == 4
    && exists a, b, c, d | 0 <= a < 16 && 0 <= b < 16 && 0 <= c < 16 && 0 <= d < 16 ::
         digits == [HEX[a], HEX[b], HEX[c], HEX[d]] && n == a * 0x1000 + b * 0x100 + c * 0x10 + d
  }

  /** What section 7 of RFC 8259 takes the piece for, and allows to be written for it. */
  predicate StandsFor(piece: Piece, c: char) {
    match piece
    case Raw(d) => d == c && c >= ' ' && c != '\"' && c != '\\'
    case Escape(letter) => letter in LETTERS && MeantBy(letter) == c
    case Unicode(digits) => HexStandsFor(digits, c as int)
  }

  /** The printer's text says the string by the rules of the RFC, one piece for each character, none lost. */
  lemma {:induction false} PrintedStandsFor(text: string) returns (pieces: seq<Piece>)
    ensures PiecesText(pieces) == Escaped(text) && |pieces| == |text|
    ensures forall i | 0 <= i < |text| :: StandsFor(pieces[i], text[i])
  {
    if text == "" {
      pieces := [];
    } else {
      hide StandsFor, EscapedChar;
      var piece := PrintedChar(text[0]);
      var others := PrintedStandsFor(text[1..]);
      pieces := [piece] + others;
      assert pieces[1..] == others;
    }
  }

  lemma PrintedChar(c: char) returns (piece: Piece)
    ensures PieceText(piece) == EscapedChar(c) && StandsFor(piece, c)
  {
    hide MeantBy;
    if PlainChar(c) && |EscapedChar(c)| == 1 {
      piece := Raw(c);
    } else if PlainChar(c) {
      var letter := EscapedChar(c)[1];
      LetterMeans(letter);
      piece := Escape(letter);
    } else {
      var n := c as int;
      HexDigits(n / 16);
      HexDigits(n % 16);
      assert HEX[0] == '0';
      var digits := ['0', '0', HexDigit(n / 16), HexDigit(n % 16)];
      assert digits == [HEX[0], HEX[0], HEX[n / 16], HEX[n % 16]];
      piece := Unicode(digits);
      assert "\\u00" + [HexDigit(n / 16), HexDigit(n % 16)] == "\\u" + digits;
    }
  }

  lemma HexDigits(n: int)
    requires 0 <= n < 16
    ensures HexDigit(n) == HEX[n]
  {
  }

  lemma LetterMeans(letter: char)
    ensures letter in LETTERS ==> Unescaped(letter) == Some(MeantBy(letter))
    ensures letter in ['\"', '\\', 'b', 'f', 'n', 'r', 't'] ==> letter in LETTERS
  {
    if Unescaped(letter).Some? {
      UnescapedIsLetter(letter);
    }
    if letter in LETTERS {
      LettersAreMeant(letter);
    }
  }
}
