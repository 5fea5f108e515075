/** Values on the wire, down to the text of the messages: which ones arrive as they were sent. */
module WireText {
  import opened Common
  import opened Json
  import opened JsonParser
  import opened JsonRoundTrip
  import opened Values
  import opened Messages
  import Base64
  import Decimal

  /** The numbers that the printer writes exactly. */
  predicate PrintableReals(value: ScalarValue) {
    match value
    case RealValue(r) => PrintableNumber(r)
    case RealArray(items) => forall i | 0 <= i < |items| :: PrintableNumber(items[i])
    case _ => true
  }

  predicate PlainTexts(value: ScalarValue) {
    match value
    case StringValue(text) => PlainText(text)
    case StringArray(items) => forall i | 0 <= i < |items| :: PlainText(items[i])
    case _ => true
  }

  lemma {:induction false} PlainByChars(text: string)
    requires forall i | 0 <= i < |text| :: PlainChar(text[i])
    ensures PlainText(text)
  {
    if text != "" {
      PlainByChars(text[1..]);
    }
  }

  lemma IntegersArePlain(n: int)
    ensures PlainText(Decimal.ToString(n))
  {
    PlainByChars(Decimal.ToString(n));
  }

  lemma BinariesArePlain(data: seq<byte>)
    ensures PlainText(Base64.Encoded(data))
  {
    hide Base64.Encoded;
    var text := Base64.Encoded(data);
    Base64.EncodedShape(data);
    forall i | 0 <= i < |text| ensures PlainChar(text[i]) {
      assert Base64.PlainOrPad(text[i], i >= |text| - Base64.Padding(data));
    }
    PlainByChars(text);
  }

  lemma {:induction false} ItemsArePrintable(items: seq<Json>)
    requires forall i | 0 <= i < |items| :: Printable(items[i])
    ensures PrintableItems(items)
  {
    if items != [] {
      ItemsArePrintable(items[1..]);
    }
  }

  /** A value of a variable is printed as a scalar or as an array of scalars. */
  lemma ShapeOnWire(value: ScalarValue)
    ensures WellFormed(ToJsonValue(value))
    ensures PrintableReals(value) ==> Printable(ToJsonValue(value))
    ensures Plain(ToJsonValue(value)) <==> PlainTexts(value)
  {
    hide Decimal.ToString, Base64.Encoded, PlainText, PrintableNumber;
    match value {
      case SignedValue(n) => IntegersArePlain(n);
      case UnsignedValue(n) => IntegersArePlain(n);
      case BinaryValue(data) => BinariesArePlain(data);
      case SignedArray(items) =>
        forall i | 0 <= i < |items| ensures PlainText(Decimal.ToString(items[i])) { IntegersArePlain(items[i]); }
        ItemsArePrintable(ToJsonValue(value).items);
      case UnsignedArray(items) =>
        forall i | 0 <= i < |items| ensures PlainText(Decimal.ToString(items[i])) { IntegersArePlain(items[i]); }
        ItemsArePrintable(ToJsonValue(value).items);
      case BinaryArray(items) =>
        forall i | 0 <= i < |items| ensures PlainText(Base64.Encoded(items[i])) { BinariesArePlain(items[i]); }
        ItemsArePrintable(ToJsonValue(value).items);
      case StringArray(items) =>
        StringItems(items);
        ItemsArePrintable(ToJsonValue(value).items);
      case RealArray(items) =>
        if PrintableReals(value) {
          ItemsArePrintable(ToJsonValue(value).items);
        }
      case BooleanArray(items) => ItemsArePrintable(ToJsonValue(value).items);
      case _ =>
    }
  }

  lemma StringItems(items: seq<string>)
    ensures Plain(ToJsonValue(StringArray(items))) <==> forall i | 0 <= i < |items| :: PlainText(items[i])
  {
    hide PlainText;
    var printed := ToJsonValue(StringArray(items)).items;
    assert forall i | 0 <= i < |items| :: Plain(printed[i]) <==> PlainText(items[i]);
  }

  /** A string array that comes back unchanged was plain. */
  lemma OnlyPlainStringsReturn(items: seq<string>, variable: VariableInfo)
    requires variable.kind == StringType
    requires ConvertJsonValue(Sanitized(ToJsonValue(StringArray(items))), variable) == Some(StringArray(items))
    ensures PlainTexts(StringArray(items))
  {
    hide PlainText, Masked;
    var printed := ToJsonValue(StringArray(items)).items;
    SanitizedItem(printed);
    ConvertEachElements(SanitizedItems(printed), ConvertString);
    forall i | 0 <= i < |items| ensures PlainText(items[i]) {
      assert printed[i] == Json.String(items[i]);
      assert ConvertString(SanitizedItems(printed)[i]) == Some(items[i]);
      MaskedIff(items[i]);
    }
  }

  /**
   A value that fits its variable, once printed into a message and read back out of its text, is the
   same value, exactly if its strings are plain. Integers and binaries always are.
   */
  lemma SurvivesTextIff(value: ScalarValue, variable: VariableInfo)
    requires ValueFits(value, variable) && PrintableReals(value)
    ensures Printable(ToJsonValue(value))
    ensures var received := ParsedJson(Serialized(ToJsonValue(value)));
            && received.Success?
            && (ConvertJsonValue(received.value, variable) == Some(value) <==> PlainTexts(value))
  {
    hide Serialized, ParsedJson, Printable, ValueFits, WellFormed, Plain, ConvertEach, BoundsForDeclaredType;
    var printed := ToJsonValue(value);
    ShapeOnWire(value);
    ParsePrinted(printed);
    SanitizedIff(printed);
    WireRoundTrip(value, variable);
    if !PlainTexts(value) {
      KindOfStrings(value, variable);
      if value.StringValue? {
        MaskedIff(value.text);
      } else if ConvertJsonValue(Sanitized(printed), variable) == Some(value) {
        OnlyPlainStringsReturn(value.texts, variable);
      }
    }
  }

  lemma KindOfStrings(value: ScalarValue, variable: VariableInfo)
    requires ValueFits(value, variable) && (value.StringValue? || value.StringArray?)
    ensures variable.kind == StringType
  {
  }

  // ---------------------------------------------------------------------------------------------
  // Whole messages

  /** A map is well-formed if everything that can be found in it is. */
  lemma FoundAreWellFormed(json: Json, keys: set<string>)
    requires HasKeys(json, keys)
    requires forall key | key in keys :: WellFormed(FindMember(json.members, key).value)
    ensures WellFormed(json)
  {
    hide FindMember, Sorted;
    forall i | 0 <= i < |json.members| ensures WellFormed(json.members[i].value) {
      var Member(key, value) := json.members[i];
      assert Member(key, value) in json.members;
      FoundIff(json.members, key, value);
    }
  }

  lemma InputsAreWellFormed(json: Json, inputs: map<string, ScalarValue>)
    requires IsInputs(json, inputs)
    ensures WellFormed(json)
  {
    hide FindMember, Sorted, ToJsonValue, WellFormed;
    forall name | name in inputs ensures WellFormed(FindMember(json.members, name).value) {
      ShapeOnWire(inputs[name]);
    }
    FoundAreWellFormed(json, inputs.Keys);
  }

  lemma OptionsAreWellFormed(
      json: Json, timeMode: TimeMode, experiment: Experiment, inputs: map<string, ScalarValue>)
    requires IsOptions(json, timeMode, experiment, inputs)
    ensures WellFormed(json)
  {
    hide FindMember, Sorted, IsInputs;
    var keys := {"timeMode", "startTime", "stopTime", "stepSize"} + if inputs == map[] then {} else {"inputs"};
    if inputs != map[] {
      var values :| Says(json, "inputs", values) && IsInputs(values, inputs);
      InputsAreWellFormed(values, inputs);
    }
    FoundAreWellFormed(json, keys);
  }

  lemma MessageIsWellFormed(message: Json, request: Request)
    requires WellMade(request) && Represents(message, request)
    ensures WellFormed(message)
  {
    hide FindMember, Sorted, IsInputs, IsOptions;
    match request.kind {
      case Create =>
        var client :| Says(message, "client", client) && IsClient(client);
        FoundAreWellFormed(client, {"name", "version"});
        FoundAreWellFormed(
          message, {"type", "requestId", "labId", "reservationKey", "sessionTicket", "client"});
      case Initialize =>
        var Options(timeMode, experiment) := request.details;
        var options :| Says(message, "options", options) && IsOptions(options, timeMode, experiment, request.inputs);
        OptionsAreWellFormed(options, timeMode, experiment, request.inputs);
        FoundAreWellFormed(message, {"type", "requestId", "sessionId", "options"});
      case SetInputs =>
        var values :| Says(message, "values", values) && IsInputs(values, request.inputs);
        InputsAreWellFormed(values, request.inputs);
        FoundAreWellFormed(message, {"type", "requestId", "sessionId", "values"});
      case Step => FoundAreWellFormed(message, {"type", "requestId", "sessionId", "deltaT"});
      case Reset => FoundAreWellFormed(message, {"type", "requestId", "sessionId"});
      case Terminate => FoundAreWellFormed(message, {"type", "requestId", "sessionId"});
    }
  }

  /** The text of a message is read back as the message exactly if it holds no lost control character. */
  lemma MessageArrivesIff(message: Json, request: Request)
    requires WellMade(request) && Represents(message, request) && Printable(message)
    ensures ParsedJson(Serialized(message)) == Success(message) <==> Plain(message)
  {
    hide Represents, WellFormed, Serialized, ParsedJson, Plain, Printable;
    MessageIsWellFormed(message, request);
    RoundTripIff(message);
  }
}
