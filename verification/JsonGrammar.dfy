/**
 The texts that the parser accepts, written down apart from it: how a document is spelled, and what
 it means. The parser accepts precisely the spellings of valid documents, and finds their meaning.
 */
module JsonGrammar {
  import opened Common
  import opened Json
  import Decimal

  // ---------------------------------------------------------------------------------------------
  // Documents

  /** A character, an escape of one letter, or a unicode escape with any four characters after it. */
  datatype Piece = Raw(c: char) | Escape(letter: char) | Unicode(digits: string)

  datatype Exponent = Exponent(letter: char, sign: string, digits: string)

  datatype Numeral = Numeral(minus: bool, whole: string, point: bool, fraction: string, exponent: Option<Exponent>)

  datatype Document =
    | NullWord
    | TrueWord
    | FalseWord
    | Figure(numeral: Numeral)
    | Text(pieces: seq<Piece>)
    | List(gap: string, items: seq<Item>)
    | Record(gap: string, fields: seq<Field>)

  /** A document with the white space around it. */
  datatype Item = Item(before: string, document: Document, after: string)

  datatype Field = Field(before: string, key: seq<Piece>, between: string, item: Item)

  const BLANKS := [' ', '\t', '\n', 11 as char, 12 as char, '\r']

  predicate Blank(text: string) {
    forall i | 0 <= i < |text| :: text[i] in BLANKS
  }

  predicate AllDigits(text: string) {
    forall i | 0 <= i < |text| :: IsDigit(text[i])
  }

  const LETTERS := ['\"', '\\', '/', 'b', 'f', 'n', 'r', 't']

  predicate ValidPiece(piece: Piece) {
    match piece
    case Raw(c) => c != '\"' && c != '\\'
    case Escape(letter) => letter in LETTERS
    case Unicode(digits) => |digits| == 4
  }

  predicate ValidPieces(pieces: seq<Piece>) {
    forall i | 0 <= i < |pieces| :: ValidPiece(pieces[i])
  }

  /** Leading zeros are allowed, and so are a point without digits after it, or, behind a minus, before it. */
  predicate ValidNumeral(numeral: Numeral) {
    && AllDigits(numeral.whole) && AllDigits(numeral.fraction)
    && (numeral.whole == "" ==> numeral.minus && numeral.fraction != "")
    && (!numeral.point ==> numeral.fraction == "")
    && (numeral.exponent.Some? ==> ValidExponent(numeral.exponent.value))
  }

  predicate ValidExponent(exponent: Exponent) {
    && (exponent.letter == 'e' || exponent.letter == 'E')
    && (exponent.sign == "" || exponent.sign == "+" || exponent.sign == "-")
    && exponent.digits != "" && AllDigits(exponent.digits)
  }

  predicate Valid(document: Document) {
    match document
    case Figure(numeral) => ValidNumeral(numeral)
    case Text(pieces) => ValidPieces(pieces)
    case List(gap, items) => Blank(gap) && forall i | 0 <= i < |items| :: ValidItem(items[i])
    case Record(gap, fields) => Blank(gap) && forall i | 0 <= i < |fields| :: ValidField(fields[i])
    case _ => true
  }

  predicate ValidItem(item: Item) {
    Blank(item.before) && Valid(item.document) && Blank(item.after)
  }

  predicate ValidField(field: Field) {
    Blank(field.before) && ValidPieces(field.key) && Blank(field.between) && ValidItem(field.item)
  }

  // ---------------------------------------------------------------------------------------------
  // Spelling

  function PieceText(piece: Piece): string {
    match piece
    case Raw(c) => [c]
    case Escape(letter) => ['\\', letter]
    case Unicode(digits) => "\\u" + digits
  }

  function PiecesText(pieces: seq<Piece>): string {
    if pieces == [] then "" else PieceText(pieces[0]) + PiecesText(pieces[1..])
  }

  function NumeralText(numeral: Numeral): string {
    (if numeral.minus then "-" else "") + numeral.whole + FractionText(numeral) + ExponentText(numeral.exponent)
  }

  function FractionText(numeral: Numeral): string {
    if numeral.point then "." + numeral.fraction else ""
  }

  function ExponentText(exponent: Option<Exponent>): string {
    if exponent.None? then "" else [exponent.value.letter] + exponent.value.sign + exponent.value.digits
  }

  function Written(document: Document): string
    decreases document, 1
  {
    match document
    case NullWord => "null"
    case TrueWord => "true"
    case FalseWord => "false"
    case Figure(numeral) => NumeralText(numeral)
    case Text(pieces) => "\"" + PiecesText(pieces) + "\""
    case List(gap, items) => "[" + (if items == [] then gap else ItemsText(items)) + "]"
    case Record(gap, fields) => "{" + (if fields == [] then gap else FieldsText(fields)) + "}"
  }

  function ItemText(item: Item): string
    decreases item, 2
  {
    item.before + Written(item.document) + item.after
  }

  function ItemsText(items: seq<Item>): string
    decreases items, 0
  {
    if items == [] then ""
    else ItemText(items[0]) + (if |items| == 1 then "" else "," + ItemsText(items[1..]))
  }

  function FieldText(field: Field): string
    decreases field, 3
  {
    field.before + "\"" + PiecesText(field.key) + "\"" + field.between + ":" + ItemText(field.item)
  }

  function FieldsText(fields: seq<Field>): string
    decreases fields, 0
  {
    if fields == [] then ""
    else FieldText(fields[0]) + (if |fields| == 1 then "" else "," + FieldsText(fields[1..]))
  }

  // ---------------------------------------------------------------------------------------------
  // Meaning

  function PieceMeaning(piece: Piece): char
    requires ValidPiece(piece)
  {
    match piece
    case Raw(c) => c
    case Escape(letter) => MeantBy(letter)
    case Unicode(_) => '?'
  }

  /** The character that a letter behind a backslash stands for; most stand for themselves. */
  function MeantBy(letter: char): char {
    if letter == 'b' then 8 as char
    else if letter == 'f' then 12 as char
    else if letter == 'n' then '\n'
    else if letter == 'r' then '\r'
    else if letter == 't' then '\t'
    else letter
  }

  function PiecesMeaning(pieces: seq<Piece>): string
    requires ValidPieces(pieces)
  {
    if pieces == [] then "" else [PieceMeaning(pieces[0])] + PiecesMeaning(pieces[1..])
  }

  function Scaled(digits: real, places: int, backwards: bool, shift: int): real
    requires places >= 1 && shift >= 1
  {
    if backwards then digits / (places as real * shift as real) else digits * shift as real / places as real
  }

  /** All digits as one number, shifted by the exponent and back by the length of the fraction. */
  function NumeralValue(numeral: Numeral): real
    requires ValidNumeral(numeral)
  {
    var digits := Decimal.Number(numeral.whole + numeral.fraction) as real;
    var shift := if numeral.exponent.None? then 1 else Decimal.TenTo(Decimal.Number(numeral.exponent.value.digits));
    var backwards := numeral.exponent.Some? && numeral.exponent.value.sign == "-";
    var magnitude := Scaled(digits, Decimal.TenTo(|numeral.fraction|), backwards, shift);
    if numeral.minus then -magnitude else magnitude
  }

  function Meaning(document: Document): Json
    requires Valid(document)
    decreases document, 1
  {
    match document
    case NullWord => Json.Null
    case TrueWord => Json.Bool(true)
    case FalseWord => Json.Bool(false)
    case Figure(numeral) => Json.Number(NumeralValue(numeral))
    case Text(pieces) => Json.String(PiecesMeaning(pieces))
    case List(_, items) => Json.Array(ItemsMeaning(items))
    case Record(_, fields) => Json.Object(FieldsMeaning(fields, []))
  }

  function ItemsMeaning(items: seq<Item>): seq<Json>
    requires forall i | 0 <= i < |items| :: ValidItem(items[i])
    decreases items, 0
  {
    if items == [] then []
    else
      assert ValidItem(items[0]);
      [Meaning(items[0].document)] + ItemsMeaning(items[1..])
  }

  /** The members that the fields add to those already there. */
  function FieldsMeaning(fields: seq<Field>, members: seq<Member>): seq<Member>
    requires forall i | 0 <= i < |fields| :: ValidField(fields[i])
    decreases fields, 0
  {
    if fields == [] then members
    else
      assert ValidField(fields[0]) && ValidItem(fields[0].item);
      var key, value := PiecesMeaning(fields[0].key), Meaning(fields[0].item.document);
      FieldsMeaning(fields[1..], Emplaced(members, key, value))
  }
}
