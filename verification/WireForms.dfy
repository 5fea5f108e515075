/**
 What JSON carries which value of a variable, written down apart from the conversions: the runtime
 takes from a message exactly the values that it carries, and sends each value in a form that carries it.
 */
module WireForms {
  import opened Common
  import opened Decimal
  import opened Json
  import opened Values
  import Base64

  predicate Distance(r: real, n: int, limit: real) {
    -limit <= r - n as real <= limit
  }

  /** The number is the integer, but for a fraction of at most 2^-52 that points away from zero. */
  predicate MeansInteger(number: real, n: int) {
    && Distance(number, n, 1.0 / TwoTo(52) as real)
    && (number >= 0.0 ==> n as real <= number) && (number <= 0.0 ==> number <= n as real)
  }

  /** Integers come as text, which keeps all 64 bits, or as numbers. */
  predicate CarriesInteger(json: Json, declaredType: string, n: int) {
    && InDeclaredRange(declaredType, n)
    && match json
       case String(text) => (if IsUnsigned(declaredType) then ParseUnsigned(text) else ParseSigned(text)) == Some(n)
       case Number(number) =>
         && MeansInteger(number, n)
         && (if IsUnsigned(declaredType) then InRealRange(Unsigned(64), number) else InRealRange(Signed(64), number))
       case _ => false
  }

  predicate InRealRange(declared: Declared, number: real) {
    match declared
    case Signed(bits) => bits > 0 && -TwoTo(bits - 1) as real <= number <= (TwoTo(bits - 1) - 1) as real
    case Unsigned(bits) => 0.0 <= number <= (TwoTo(bits) - 1) as real
  }

  predicate CarriesFlag(json: Json, flag: bool) {
    json == Json.Bool(flag) || (json.Number? && flag == (json.value != 0.0))
  }

  predicate CarriesBinary(json: Json, data: seq<byte>) {
    json.String? && Base64.Decoded(json.text) == Some(data)
  }

  predicate Integral(kind: ScalarType) {
    kind == IntegerType || kind == EnumerationType
  }

  predicate Flag(kind: ScalarType) {
    kind == BooleanType || kind == ClockType
  }

  /** The JSON carries this value of the variable. */
  predicate Carries(json: Json, variable: VariableInfo, value: ScalarValue) {
    var kind, declared := variable.kind, variable.declaredType;
    match value
    case RealValue(r) => kind == RealType && json == Json.Number(r)
    case SignedValue(n) => Integral(kind) && !IsUnsigned(declared) && CarriesInteger(json, declared, n)
    case UnsignedValue(n) => Integral(kind) && IsUnsigned(declared) && CarriesInteger(json, declared, n)
    case BooleanValue(flag) => Flag(kind) && CarriesFlag(json, flag)
    case StringValue(text) => kind == StringType && json == Json.String(text)
    case BinaryValue(data) => kind == BinaryType && CarriesBinary(json, data)
    case _ => json.Array? && CarriesItems(json.items, variable, value)
  }

  predicate CarriesItems(items: seq<Json>, variable: VariableInfo, value: ScalarValue) {
    var kind, declared := variable.kind, variable.declaredType;
    match value
    case RealArray(rs) =>
      kind == RealType && |items| == |rs| && forall i | 0 <= i < |rs| :: items[i] == Json.Number(rs[i])
    case SignedArray(ns) =>
      && Integral(kind) && !IsUnsigned(declared) && |items| == |ns|
      && forall i | 0 <= i < |ns| :: CarriesInteger(items[i], declared, ns[i])
    case UnsignedArray(ns) =>
      && Integral(kind) && IsUnsigned(declared) && |items| == |ns|
      && forall i | 0 <= i < |ns| :: CarriesInteger(items[i], declared, ns[i])
    case BooleanArray(flags) =>
      Flag(kind) && |items| == |flags| && forall i | 0 <= i < |flags| :: CarriesFlag(items[i], flags[i])
    case StringArray(texts) =>
      kind == StringType && |items| == |texts| && forall i | 0 <= i < |texts| :: items[i] == Json.String(texts[i])
    case BinaryArray(datas) =>
      kind == BinaryType && |items| == |datas| && forall i | 0 <= i < |datas| :: CarriesBinary(items[i], datas[i])
    case _ => false
  }

  // ---------------------------------------------------------------------------------------------
  // Integers

  lemma TruncatedIs(number: real, n: int)
    ensures Truncated(number) == n <==>
            && Distance(number, n, 1.0) && number != n as real + 1.0 && number != n as real - 1.0
            && (number >= 0.0 ==> n as real <= number) && (number <= 0.0 ==> number <= n as real)
  {
  }

  lemma NumberToIntegerIff(number: real, min: int, max: int, n: int)
    ensures NumberToInteger(number, min, max) == Some(n) <==>
            MeansInteger(number, n) && min as real <= number <= max as real
  {
    hide TwoTo, Truncated;
    assert TwoTo(52) == 4503599627370496 by {
      SmallPowers();
    }
    TruncatedIs(number, n);
  }

  lemma SmallPowers()
    ensures TwoTo(52) == 4503599627370496
  {
    PowersOfTwo();
    TwoToSum(16, 32);
    TwoToSum(4, 48);
    assert TwoTo(4) == 16;
  }

  lemma IntegerIsCarried(json: Json, variable: VariableInfo, n: int)
    ensures (exists value :: ConvertInteger(json, variable) == Some(value) && IntegerOf(value) == Some(n)) <==>
            CarriesInteger(json, variable.declaredType, n)
    ensures ConvertInteger(json, variable).Some? ==>
              var value := ConvertInteger(json, variable).value;
              IntegerOf(value).Some? && value.UnsignedValue? == IsUnsigned(variable.declaredType)
  {
    hide TryNormalizeInteger, BoundsForDeclaredType, InDeclaredRange, IsUnsigned, NumberToInteger, ParseSigned,
         ParseUnsigned, MeansInteger, TwoTo;
    var unsigned := IsUnsigned(variable.declaredType);
    BoundsIff(variable.declaredType, n);
    PowersOfTwo();
    var parsed := if unsigned then ParseUnsignedIntegerJson(json) else ParseSignedIntegerJson(json);
    var width := if unsigned then UInt64 else Int64;
    if json.Number? {
      NumberToIntegerIff(json.value, INT64_MIN, INT64_MAX, n);
      NumberToIntegerIff(json.value, 0, UINT64_MAX, n);
    }
    if parsed.Some? {
      NormalizeIff(variable, parsed.value, width);
    }
  }

  lemma SignedIsCarried(json: Json, variable: VariableInfo, n: int64)
    ensures ConvertInteger(json, variable) == Some(SignedValue(n)) <==>
            !IsUnsigned(variable.declaredType) && CarriesInteger(json, variable.declaredType, n)
  {
    hide ConvertInteger, IsUnsigned, CarriesInteger;
    IntegerIsCarried(json, variable, n);
  }

  lemma UnsignedIsCarried(json: Json, variable: VariableInfo, n: uint64)
    ensures ConvertInteger(json, variable) == Some(UnsignedValue(n)) <==>
            IsUnsigned(variable.declaredType) && CarriesInteger(json, variable.declaredType, n)
  {
    hide ConvertInteger, IsUnsigned, CarriesInteger;
    IntegerIsCarried(json, variable, n);
  }

  // ---------------------------------------------------------------------------------------------
  // Arrays

  lemma {:induction false} ConvertEachIff<T>(items: seq<Json>, f: Json -> Option<T>, values: seq<T>)
    ensures ConvertEach(items, f) == Some(values) <==>
            |items| == |values| && forall i | 0 <= i < |items| :: f(items[i]) == Some(values[i])
  {
    if items != [] {
      if values != [] {
        ConvertEachIff(items[1..], f, values[1..]);
        assert values == [values[0]] + values[1..];
        if f(items[0]) == Some(values[0]) && ConvertEach(items[1..], f) == Some(values[1..]) {
          forall i | 0 <= i < |items| ensures f(items[i]) == Some(values[i]) {
            if i > 0 {
              assert items[i] == items[1..][i - 1];
            }
          }
        }
      }
    }
  }

  lemma IntegersAreCarried(items: seq<Json>, variable: VariableInfo, value: ScalarValue)
    requires Integral(variable.kind)
    ensures ConvertIntegerArray(items, variable) == Some(value) <==>
            (value.SignedArray? || value.UnsignedArray?) && CarriesItems(items, variable, value)
  {
    hide BoundsForDeclaredType, IsUnsigned, ConvertInteger, CarriesInteger;
    var declared := variable.declaredType;
    BoundsIff(declared, 0);
    if value.SignedArray? {
      ConvertEachIff(items, (item: Json) => ConvertSignedItem(item, variable), value.signeds);
      forall json, n: int64 ensures ConvertSignedItem(json, variable) == Some(n) <==>
                             ConvertInteger(json, variable) == Some(SignedValue(n))
      {
      }
      forall i | 0 <= i < |items| && |items| == |value.signeds|
        ensures ConvertSignedItem(items[i], variable) == Some(value.signeds[i]) <==>
                !IsUnsigned(declared) && CarriesInteger(items[i], declared, value.signeds[i])
      {
        SignedIsCarried(items[i], variable, value.signeds[i]);
      }
    } else if value.UnsignedArray? {
      ConvertEachIff(items, (item: Json) => ConvertUnsignedItem(item, variable), value.unsigneds);
      forall i | 0 <= i < |items| && |items| == |value.unsigneds|
        ensures ConvertUnsignedItem(items[i], variable) == Some(value.unsigneds[i]) <==>
                IsUnsigned(declared) && CarriesInteger(items[i], declared, value.unsigneds[i])
      {
        UnsignedIsCarried(items[i], variable, value.unsigneds[i]);
      }
    }
  }

  // ---------------------------------------------------------------------------------------------
  // Values

  lemma ArrayIsCarried(json: Json, variable: VariableInfo, value: ScalarValue)
    requires json.Array?
    ensures ConvertJsonValue(json, variable) == Some(value) <==> Carries(json, variable, value)
  {
    hide BoundsForDeclaredType, IsUnsigned, ConvertIntegerArray, CarriesInteger, Base64.Decoded;
    if Integral(variable.kind) {
      IntegersAreCarried(json.items, variable, value);
      NoIntegerInArray(json, variable.declaredType);
    } else {
      match value {
        case RealArray(rs) => ConvertEachIff(json.items, ConvertReal, rs);
        case BooleanArray(flags) => ConvertEachIff(json.items, ConvertBoolean, flags);
        case StringArray(texts) => ConvertEachIff(json.items, ConvertString, texts);
        case BinaryArray(datas) => ConvertEachIff(json.items, ConvertBinary, datas);
        case _ =>
      }
    }
  }

  lemma NoIntegerInArray(json: Json, declaredType: string)
    requires json.Array?
    ensures forall n :: !CarriesInteger(json, declaredType, n)
  {
  }

  lemma IntegerScalarIsCarried(json: Json, variable: VariableInfo, value: ScalarValue)
    requires !json.Array? && Integral(variable.kind)
    ensures ConvertJsonValue(json, variable) == Some(value) <==> Carries(json, variable, value)
  {
    hide IsUnsigned, ConvertInteger, CarriesInteger;
    match value {
      case SignedValue(n) => SignedIsCarried(json, variable, n);
      case UnsignedValue(n) => UnsignedIsCarried(json, variable, n);
      case _ => IntegerIsCarried(json, variable, 0);
    }
  }

  lemma OtherScalarIsCarried(json: Json, variable: VariableInfo, value: ScalarValue)
    requires !json.Array? && !Integral(variable.kind)
    ensures ConvertJsonValue(json, variable) == Some(value) <==> Carries(json, variable, value)
  {
    hide IsUnsigned, CarriesInteger, Base64.Decoded;
  }

  /** From whatever JSON a server sends, a variable gets precisely the value that the JSON carries for it. */
  lemma TakenIsCarried(json: Json, variable: VariableInfo, value: ScalarValue)
    ensures ConvertJsonValue(json, variable) == Some(value) <==> Carries(json, variable, value)
  {
    hide ConvertJsonValue, Carries;
    if json.Array? {
      ArrayIsCarried(json, variable, value);
    } else if Integral(variable.kind) {
      IntegerScalarIsCarried(json, variable, value);
    } else {
      OtherScalarIsCarried(json, variable, value);
    }
  }

  /** The JSON that a value is sent as: numbers and flags as such, integers and binaries as text. */
  lemma SentAs(value: ScalarValue, variable: VariableInfo)
    requires ValueFits(value, variable)
    ensures var json := ToJsonValue(value);
            && Carries(json, variable, value)
            && (json.Number? <==> value.RealValue?)
            && (json.Bool? <==> value.BooleanValue?)
            && (json.Array? ==> forall i | 0 <= i < |json.items| ::
                    && (json.items[i].Number? <==> value.RealArray?)
                    && (json.items[i].Bool? <==> value.BooleanArray?))
            && (IntegerOf(value).Some? ==> json == Json.String(ToString(IntegerOf(value).value)))
            && (value.BinaryValue? ==> json == Json.String(Base64.Encoded(value.binary)))
  {
    hide ConvertJsonValue, Carries, ValueFits, Base64.Encoded, ToString;
    WireRoundTrip(value, variable);
    TakenIsCarried(ToJsonValue(value), variable, value);
  }
}
