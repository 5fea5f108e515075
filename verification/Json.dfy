/**
 JSON values and the printer. Numbers are exact reals; text is a sequence of characters, of which
 the bytes of the source are the first 256.
 */
module Json {
  import opened Common
  import opened Decimal

  datatype Member = Member(key: string, value: Json)

  /** `members` is the content of a `std::map`, in the order of iteration. */
  datatype Json =
    | Null
    | Bool(flag: bool)
    | Number(value: real)
    | String(text: string)
    | Object(members: seq<Member>)
    | Array(items: seq<Json>)

  // ---------------------------------------------------------------------------------------------
  // std::map<std::string, JsonValue>

  /** Lexicographic order of strings, as `std::less` compares them. */
  predicate Before(x: string, y: string) {
    if y == "" then false
    else if x == "" then true
    else x[0] < y[0] || (x[0] == y[0] && Before(x[1..], y[1..]))
  }

  predicate Sorted(members: seq<Member>) {
    forall i, j | 0 <= i < j < |members| :: Before(members[i].key, members[j].key)
  }

  /** Every object in the value is a map: its keys are in order, none twice. */
  predicate WellFormed(value: Json) {
    match value
    case Object(members) => Sorted(members) && forall i | 0 <= i < |members| :: WellFormed(members[i].value)
    case Array(items) => forall i | 0 <= i < |items| :: WellFormed(items[i])
    case _ => true
  }

  /** `std::map::emplace`: a key that is already there keeps its value. */
  function Emplaced(members: seq<Member>, key: string, value: Json): seq<Member> {
    if members == [] || Before(key, members[0].key) then [Member(key, value)] + members
    else if members[0].key == key then members
    else [members[0]] + Emplaced(members[1..], key, value)
  }

  // ---------------------------------------------------------------------------------------------
  // Printing

  const BACKSPACE := 8 as char
  const FORM_FEED := 12 as char

  function HexDigit(n: int): char
    requires 0 <= n < 16
  {
    if n < 10 then '0' + n as char else 'a' + (n - 10) as char
  }

  function EscapedChar(c: char): string {
    if c == '\"' then "\\\""
    else if c == '\\' then "\\\\"
    else if c == BACKSPACE then "\\b"
    else if c == FORM_FEED then "\\f"
    else if c == '\n' then "\\n"
    else if c == '\r' then "\\r"
    else if c == '\t' then "\\t"
    else if c < ' ' then "\\u00" + [HexDigit(c as int / 16), HexDigit(c as int % 16)]
    else [c]
  }

  function Escaped(text: string): string {
    if text == "" then "" else EscapedChar(text[0]) + Escaped(text[1..])
  }

  const MAX_PRINTED := 1000000000000000.0

  /** The numbers whose 15-digit text is modelled: integers below 10^15 in magnitude. */
  predicate PrintableNumber(value: real) {
    value == value.Floor as real && -MAX_PRINTED < value < MAX_PRINTED
  }

  predicate Printable(value: Json)
    decreases value, 1
  {
    match value
    case Number(number) => PrintableNumber(number)
    case Object(members) => PrintableMembers(members)
    case Array(items) => PrintableItems(items)
    case _ => true
  }

  predicate PrintableMembers(members: seq<Member>)
    decreases members, 0
  {
    members != [] ==> Printable(members[0].value) && PrintableMembers(members[1..])
  }

  predicate PrintableItems(items: seq<Json>)
    decreases items, 0
  {
    items != [] ==> Printable(items[0]) && PrintableItems(items[1..])
  }

  function Quoted(text: string): string {
    "\"" + Escaped(text) + "\""
  }

  function Serialized(value: Json): string
    requires Printable(value)
    decreases value, 1
  {
    match value
    case Null => "null"
    case Bool(flag) => if flag then "true" else "false"
    case Number(number) => ToString(number.Floor)
    case String(text) => Quoted(text)
    case Object(members) => "{" + SerializedMembers(members) + "}"
    case Array(items) => "[" + SerializedItems(items) + "]"
  }

  function SerializedMembers(members: seq<Member>): string
    requires PrintableMembers(members)
    decreases members, 0
  {
    if members == [] then ""
    else
      Quoted(members[0].key) + ":" + Serialized(members[0].value)
      + (if |members| == 1 then "" else "," + SerializedMembers(members[1..]))
  }

  function SerializedItems(items: seq<Json>): string
    requires PrintableItems(items)
    decreases items, 0
  {
    if items == [] then ""
    else Serialized(items[0]) + (if |items| == 1 then "" else "," + SerializedItems(items[1..]))
  }

  /** A `std::ostringstream`. */
  class TextStream {
    var text: string

    constructor ()
      ensures text == ""
    {
      text := "";
    }

    method Put(more: string)
      modifies this
      ensures text == old(text) + more
    {
      text := text + more;
    }
  }

  method EscapeJsonString(text: string) returns (escaped: string)
    ensures escaped == Escaped(text)
  {
    var out := new TextStream();
    assert text[0..] == text;
    for i := 0 to |text|
      invariant fresh(out)
      invariant out.text + Escaped(text[i..]) == Escaped(text)
    {
      var c := text[i];
      assert text[i..][0] == c && text[i..][1..] == text[i + 1..];
      Associate(out.text, EscapedChar(c), Escaped(text[i + 1..]));
      if c == '\"' {
        out.Put("\\\"");
      } else if c == '\\' {
        out.Put("\\\\");
      } else if c == BACKSPACE {
        out.Put("\\b");
      } else if c == FORM_FEED {
        out.Put("\\f");
      } else if c == '\n' {
        out.Put("\\n");
      } else if c == '\r' {
        out.Put("\\r");
      } else if c == '\t' {
        out.Put("\\t");
      } else if c < ' ' {
        out.Put("\\u00" + [HexDigit(c as int / 16), HexDigit(c as int % 16)]);
      } else {
        out.Put([c]);
      }
    }
    escaped := out.text;
  }

  method SerializeValue(value: Json, out: TextStream)
    requires Printable(value)
    modifies out
    ensures out.text == old(out.text) + Serialized(value)
    decreases value, 1
  {
    hide Quoted, PrintableNumber, ToString, SerializedMembers, SerializedItems;
    match value {
      case Null =>
        out.Put("null");
      case Bool(flag) =>
        out.Put(if flag then "true" else "false");
      case Number(number) =>
        out.Put(ToString(number.Floor));
      case String(text) =>
        SerializeString(text, out);
      case Object(members) =>
        out.Put("{");
        SerializeMembers(members, out);
        out.Put("}");
      case Array(items) =>
        out.Put("[");
        SerializeItems(items, out);
        out.Put("]");
    }
  }

  method SerializeString(text: string, out: TextStream)
    modifies out
    ensures out.text == old(out.text) + Quoted(text)
  {
    hide Escaped;
    ghost var before := out.text;
    out.Put("\"");
    var escaped := EscapeJsonString(text);
    out.Put(escaped);
    out.Put("\"");
    Enclosed(before, "\"", escaped);
  }

  lemma Enclosed(before: string, quote: string, text: string)
    ensures before + quote + text + quote == before + (quote + text + quote)
  {
    hide *;
  }

  method SerializeMembers(members: seq<Member>, out: TextStream)
    requires PrintableMembers(members)
    modifies out
    ensures out.text == old(out.text) + SerializedMembers(members)
    decreases members, 0
  {
    hide Quoted, Printable, PrintableMembers, Serialized, SerializedMembers, Pending;
    var first := true;
    var index := 0;
    ghost var start := out.text;
    MembersBegin(members);
    while index < |members|
      invariant 0 <= index <= |members| && (first <==> index == 0)
      invariant PrintableMembers(members[index..])
      invariant out.text + Pending(first, members[index..]) == start + SerializedMembers(members)
    {
      MembersStep(out.text, first, members, index);
      if !first {
        out.Put(",");
      }
      first := false;
      SerializeString(members[index].key, out);
      out.Put(":");
      SerializeValue(members[index].value, out);
      index := index + 1;
    }
    MembersEnd(out.text, first, members);
  }

  /** What is still to be printed of an object whose loop stands before `rest`. */
  ghost function Pending(first: bool, rest: seq<Member>): string
    requires PrintableMembers(rest)
  {
    if rest == [] then "" else (if first then "" else ",") + SerializedMembers(rest)
  }

  lemma MembersBegin(members: seq<Member>)
    requires PrintableMembers(members)
    ensures PrintableMembers(members[0..]) && Pending(true, members[0..]) == SerializedMembers(members)
  {
    assert members[0..] == members;
  }

  lemma MembersEnd(text: string, first: bool, members: seq<Member>)
    ensures PrintableMembers(members[|members|..]) && text + Pending(first, members[|members|..]) == text
  {
  }

  lemma MembersStep(text: string, first: bool, members: seq<Member>, i: nat)
    requires i < |members| && PrintableMembers(members[i..])
    ensures Printable(members[i].value) && PrintableMembers(members[i + 1..])
    ensures text + Pending(first, members[i..]) ==
            (((if first then text else text + ",") + Quoted(members[i].key)) + ":") + Serialized(members[i].value)
            + Pending(false, members[i + 1..])
  {
    hide Quoted, Serialized, Printable;
    var rest := members[i..];
    assert rest[1..] == members[i + 1..];
    var key, value, tail := Quoted(rest[0].key), Serialized(rest[0].value), Pending(false, rest[1..]);
    assert SerializedMembers(rest) == key + ":" + value + tail;
    var before := if first then text else text + ",";
    if !first {
      Associate(text, ",", SerializedMembers(rest));
    }
    assert before + SerializedMembers(rest) == (((before + key) + ":") + value) + tail;
  }

  method SerializeItems(items: seq<Json>, out: TextStream)
    requires PrintableItems(items)
    modifies out
    ensures out.text == old(out.text) + SerializedItems(items)
    decreases items, 0
  {
    hide Printable, PrintableItems, Serialized, SerializedItems, PendingItems;
    var index := 0;
    ghost var start := out.text;
    ItemsBegin(items);
    while index < |items|
      invariant 0 <= index <= |items|
      invariant PrintableItems(items[index..])
      invariant out.text + PendingItems(index == 0, items[index..]) == start + SerializedItems(items)
    {
      ItemsStep(out.text, index == 0, items, index);
      if index > 0 {
        out.Put(",");
      }
      SerializeValue(items[index], out);
      index := index + 1;
    }
    ItemsEnd(out.text, index == 0, items);
  }

  ghost function PendingItems(first: bool, rest: seq<Json>): string
    requires PrintableItems(rest)
  {
    if rest == [] then "" else (if first then "" else ",") + SerializedItems(rest)
  }

  lemma ItemsBegin(items: seq<Json>)
    requires PrintableItems(items)
    ensures PrintableItems(items[0..]) && PendingItems(true, items[0..]) == SerializedItems(items)
  {
    assert items[0..] == items;
  }

  lemma ItemsEnd(text: string, first: bool, items: seq<Json>)
    ensures PrintableItems(items[|items|..]) && text + PendingItems(first, items[|items|..]) == text
  {
  }

  lemma ItemsStep(text: string, first: bool, items: seq<Json>, i: nat)
    requires i < |items| && PrintableItems(items[i..])
    ensures Printable(items[i]) && PrintableItems(items[i + 1..])
    ensures text + PendingItems(first, items[i..]) ==
            (if first then text else text + ",") + Serialized(items[i]) + PendingItems(false, items[i + 1..])
  {
    hide Serialized, Printable;
    var rest := items[i..];
    assert rest[1..] == items[i + 1..];
    var head, tail := Serialized(rest[0]), PendingItems(false, rest[1..]);
    assert SerializedItems(rest) == head + tail;
    Associate(text, head, tail);
    if !first {
      Associate(text, ",", head + tail);
      Associate(text + ",", head, tail);
    }
  }

  method SerializeJson(value: Json) returns (text: string)
    requires Printable(value)
    ensures text == Serialized(value)
  {
    var out := new TextStream();
    SerializeValue(value, out);
    text := out.text;
  }
}
