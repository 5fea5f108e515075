/** Every valid document is read, and its meaning found. */
module JsonReading {
  import opened Common
  import opened Json
  import opened JsonParser
  import opened JsonRoundTrip
  import opened JsonGrammar
  import opened JsonNumerals
  import Decimal

  lemma {:induction false} PiecesAreRead(pieces: seq<Piece>, rest: string)
    requires ValidPieces(pieces)
    ensures StringBody(PiecesText(pieces) + "\"" + rest) == Some(Parsed(PiecesMeaning(pieces), rest))
  {
    if pieces == [] {
      assert (PiecesText(pieces) + "\"" + rest)[1..] == rest;
    } else {
      hide StringBody;
      var piece, later := pieces[0], PiecesText(pieces[1..]) + "\"" + rest;
      PiecesAreRead(pieces[1..], rest);
      PieceIsRead(piece, later);
      assert PiecesText(pieces) + "\"" + rest == PieceText(piece) + later;
    }
  }

  lemma PieceIsRead(piece: Piece, text: string)
    requires ValidPiece(piece)
    ensures StringBody(PieceText(piece) + text) == Prefixed(PieceMeaning(piece), StringBody(text))
  {
    hide StringBody;
    match piece {
      case Raw(c) => OneCharBody(c, text);
      case Escape(letter) =>
        LettersAreMeant(letter);
        EscapePairBody(letter, text);
      case Unicode(digits) => SkippedBody(digits, text);
    }
  }

  lemma LettersAreMeant(letter: char)
    requires letter in LETTERS
    ensures Unescaped(letter) == Some(MeantBy(letter)) && letter != 'u'
  {
  }

  lemma SkippedBody(digits: string, text: string)
    requires |digits| == 4
    ensures StringBody("\\u" + digits + text) == Prefixed('?', StringBody(text))
  {
    var whole := "\\u" + digits + text;
    assert whole[0] == '\\' && whole[1] == 'u' && whole[6..] == text;
  }

  lemma {:induction false} BlanksAreSkipped(blanks: string, text: string)
    requires Blank(blanks)
    ensures Decimal.SkipSpaces(blanks + text) == Decimal.SkipSpaces(text)
  {
    if blanks == "" {
      assert blanks + text == text;
    } else {
      assert IsSpace(blanks[0]);
      assert (blanks + text)[1..] == blanks[1..] + text;
      BlanksAreSkipped(blanks[1..], text);
    }
  }

  lemma ConsumedAfterBlanks(blanks: string, c: char, expected: char, rest: string)
    requires Blank(blanks) && !IsSpace(c)
    ensures Consumed(blanks + [c] + rest, expected) == if c == expected then Some(rest) else None
  {
    hide Blank, Decimal.SkipSpaces;
    assert blanks + [c] + rest == blanks + ([c] + rest);
    BlanksAreSkipped(blanks, [c] + rest);
    ConsumedHere(c, expected, rest);
  }

  lemma BlanksEndNumber(blanks: string, rest: string)
    requires Blank(blanks) && EndsNumber(rest)
    ensures EndsNumber(blanks + rest)
  {
    if blanks == "" {
      assert blanks + rest == rest;
    } else {
      assert (blanks + rest)[0] == blanks[0] && IsSpace(blanks[0]);
    }
  }

  lemma QuotedAreRead(before: string, pieces: seq<Piece>, rest: string)
    requires Blank(before) && ValidPieces(pieces)
    ensures StringAt(before + "\"" + PiecesText(pieces) + "\"" + rest) == Some(Parsed(PiecesMeaning(pieces), rest))
  {
    hide StringBody, PiecesText, PiecesMeaning, ValidPieces, Decimal.SkipSpaces;
    var inner := PiecesText(pieces) + "\"" + rest;
    PiecesAreRead(pieces, rest);
    ConsumedAfterBlanks(before, '\"', '\"', inner);
    assert before + "\"" + PiecesText(pieces) + "\"" + rest == before + ['\"'] + inner;
  }

  /** The first character of a document is neither white space nor a closing bracket. */
  lemma FirstOfWritten(document: Document)
    requires Valid(document)
    ensures var text := Written(document); text != "" && !IsSpace(text[0]) && text[0] != ']' && text[0] != '}'
  {
    hide ItemsText, FieldsText, PiecesText;
    if document.Figure? {
      NumeralIsRead(document.numeral, "");
      assert NumeralText(document.numeral) + "" == NumeralText(document.numeral);
    }
  }

  lemma {:induction false} DocumentIsRead(document: Document, rest: string)
    requires Valid(document) && EndsNumber(rest)
    ensures TokenAt(Written(document) + rest) == Some(Parsed(Meaning(document), rest))
    decreases document, 1
  {
    hide NumberAt, StringAt, ObjectAt, ArrayAt, BooleanAt, NullAt, ItemsText, FieldsText, PiecesText, NumeralText,
         ItemsMeaning, FieldsMeaning, PiecesMeaning, NumeralValue, ValidNumeral, ValidPieces;
    match document {
      case NullWord => PrintedLiterals(rest);
      case TrueWord => PrintedLiterals(rest);
      case FalseWord => PrintedLiterals(rest);
      case Figure(numeral) => NumeralIsRead(numeral, rest);
      case Text(pieces) =>
        QuotedAreRead("", pieces, rest);
        assert "" + "\"" + PiecesText(pieces) + "\"" + rest == Written(document) + rest;
      case List(gap, items) => ListIsRead(gap, items, rest);
      case Record(gap, fields) => RecordIsRead(gap, fields, rest);
    }
  }

  lemma {:induction false} ItemIsRead(item: Item, rest: string)
    requires ValidItem(item) && EndsNumber(rest)
    ensures ValueAt(ItemText(item) + rest) == Some(Parsed(Meaning(item.document), item.after + rest))
    decreases item, 2
  {
    hide TokenAt, Written, Valid, Meaning, Blank, Decimal.SkipSpaces;
    var after := item.after + rest;
    var text := Written(item.document) + after;
    BlanksEndNumber(item.after, rest);
    DocumentIsRead(item.document, after);
    FirstOfWritten(item.document);
    BlanksAreSkipped(item.before, text);
    NoSpace(text);
    assert ItemText(item) + rest == item.before + text;
  }

  lemma {:induction false} ListIsRead(gap: string, items: seq<Item>, rest: string)
    requires Blank(gap) && forall i | 0 <= i < |items| :: ValidItem(items[i])
    ensures ArrayAt(Written(List(gap, items)) + rest) == Some(Parsed(Json.Array(ItemsMeaning(items)), rest))
    decreases items, 1
  {
    hide ItemsText, ItemsAt, Decimal.SkipSpaces, Blank, ValidItem;
    var text := Written(List(gap, items)) + rest;
    if items == [] {
      assert text[1..] == gap + [']'] + rest;
      ConsumedAfterBlanks(gap, ']', ']', rest);
    } else {
      var inner := ItemsText(items) + "]" + rest;
      assert text[1..] == inner;
      ItemsAreRead(items, [], rest);
      assert [] + ItemsMeaning(items) == ItemsMeaning(items);
      assert Consumed(inner, ']').None? by {
        FirstOfItems(items, inner);
      }
    }
  }

  lemma FirstOfItems(items: seq<Item>, inner: string)
    requires items != [] && ValidItem(items[0]) && ItemsText(items) <= inner
    ensures Consumed(inner, ']').None?
  {
    hide Valid, Blank, Written, Decimal.SkipSpaces;
    var Item(before, document, _) := items[0];
    FirstOfWritten(document);
    var skipped := inner[|before|..];
    assert ItemsText(items)[..|before|] == before && ItemsText(items)[|before|] == Written(document)[0];
    assert inner == before + [skipped[0]] + skipped[1..];
    ConsumedAfterBlanks(before, skipped[0], ']', skipped[1..]);
  }

  lemma {:induction false} ItemsAreRead(items: seq<Item>, done: seq<Json>, rest: string)
    requires items != [] && forall i | 0 <= i < |items| :: ValidItem(items[i])
    ensures ItemsAt(ItemsText(items) + "]" + rest, done) == Some(Parsed(done + ItemsMeaning(items), rest))
    decreases items, 0
  {
    hide ItemText, ValueAt, Decimal.SkipSpaces, Blank, Valid, Meaning;
    var item, others := items[0], items[1..];
    assert ValidItem(item);
    Associate(done, [Meaning(item.document)], ItemsMeaning(others));
    if |items| == 1 {
      var tail := [']'] + rest;
      assert ItemsText(items) + "]" + rest == ItemText(item) + tail;
      ItemIsRead(item, tail);
      ConsumedAfterBlanks(item.after, ']', ']', rest);
      assert item.after + tail == item.after + [']'] + rest;
      assert done + [Meaning(item.document)] + [] == done + [Meaning(item.document)];
    } else {
      var later := ItemsText(others) + "]" + rest;
      var tail := [','] + later;
      assert ItemsText(items) + "]" + rest == ItemText(item) + tail;
      ItemIsRead(item, tail);
      ConsumedAfterBlanks(item.after, ',', ']', later);
      ConsumedAfterBlanks(item.after, ',', ',', later);
      assert item.after + tail == item.after + [','] + later;
      ItemsAreRead(others, done + [Meaning(item.document)], rest);
    }
  }

  lemma {:induction false} RecordIsRead(gap: string, fields: seq<Field>, rest: string)
    requires Blank(gap) && forall i | 0 <= i < |fields| :: ValidField(fields[i])
    ensures ObjectAt(Written(Record(gap, fields)) + rest) == Some(Parsed(Json.Object(FieldsMeaning(fields, [])), rest))
    decreases fields, 1
  {
    hide FieldsText, MembersAt, Decimal.SkipSpaces, Blank, ValidField;
    var text := Written(Record(gap, fields)) + rest;
    if fields == [] {
      assert text[1..] == gap + ['}'] + rest;
      ConsumedAfterBlanks(gap, '}', '}', rest);
    } else {
      var inner := FieldsText(fields) + "}" + rest;
      assert text[1..] == inner;
      FieldsAreRead(fields, [], rest);
      assert Consumed(inner, '}').None? by {
        FirstOfFields(fields, inner);
      }
    }
  }

  lemma FirstOfFields(fields: seq<Field>, inner: string)
    requires fields != [] && ValidField(fields[0]) && FieldsText(fields) <= inner
    ensures Consumed(inner, '}').None?
  {
    hide ValidPieces, Blank, ItemText, PiecesText, Decimal.SkipSpaces;
    var before := fields[0].before;
    var skipped := inner[|before|..];
    assert FieldsText(fields)[..|before|] == before && FieldsText(fields)[|before|] == '\"';
    assert inner == before + ['\"'] + skipped[1..];
    ConsumedAfterBlanks(before, '\"', '}', skipped[1..]);
  }

  lemma {:induction false} FieldIsRead(field: Field, rest: string)
    requires ValidField(field) && ValidItem(field.item) && EndsNumber(rest)
    ensures MemberAt(FieldText(field) + rest) ==
            Some(Parsed(Member(PiecesMeaning(field.key), Meaning(field.item.document)), field.item.after + rest))
    decreases field, 3
  {
    hide PiecesText, PiecesMeaning, ValidPieces, ItemText, ValueAt, Blank, Valid, Meaning, StringAt, Decimal.SkipSpaces;
    var later := ItemText(field.item) + rest;
    var afterKey := field.between + [':'] + later;
    QuotedAreRead(field.before, field.key, afterKey);
    assert FieldText(field) + rest == field.before + "\"" + PiecesText(field.key) + "\"" + afterKey;
    ConsumedAfterBlanks(field.between, ':', ':', later);
    ItemIsRead(field.item, rest);
  }

  lemma {:induction false} FieldsAreRead(fields: seq<Field>, done: seq<Member>, rest: string)
    requires fields != [] && forall i | 0 <= i < |fields| :: ValidField(fields[i])
    ensures MembersAt(FieldsText(fields) + "}" + rest, done) == Some(Parsed(FieldsMeaning(fields, done), rest))
    decreases fields, 0
  {
    hide FieldText, MemberAt, Emplaced, PiecesMeaning, Decimal.SkipSpaces, Blank, Valid, ValidPieces, Meaning;
    var field, others := fields[0], fields[1..];
    assert ValidField(field) && ValidItem(field.item);
    var after := field.item.after;
    if |fields| == 1 {
      var tail := ['}'] + rest;
      assert FieldsText(fields) + "}" + rest == FieldText(field) + tail;
      FieldIsRead(field, tail);
      ConsumedAfterBlanks(after, '}', '}', rest);
      assert after + tail == after + ['}'] + rest;
      assert others == [];
    } else {
      var later := FieldsText(others) + "}" + rest;
      var tail := [','] + later;
      assert FieldsText(fields) + "}" + rest == FieldText(field) + tail;
      FieldIsRead(field, tail);
      ConsumedAfterBlanks(after, ',', '}', later);
      ConsumedAfterBlanks(after, ',', ',', later);
      assert after + tail == after + [','] + later;
      FieldsAreRead(others, Emplaced(done, PiecesMeaning(field.key), Meaning(field.item.document)), rest);
    }
  }
}
