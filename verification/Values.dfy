/**
 FMI variables and their values: the declared integer ranges, the conversions between the values in
 the cache, the integers of the FMI calls, and the JSON values on the wire.
 */
module Values {
  import opened Common
  import opened Decimal
  import opened Json
  import Base64

  type int64 = x: int | INT64_MIN <= x <= INT64_MAX
  type uint64 = x: int | 0 <= x <= UINT64_MAX

  datatype ScalarType = RealType | IntegerType | BooleanType | StringType | EnumerationType | BinaryType | ClockType

  /** `ScalarValue`, a `std::variant`. */
  datatype ScalarValue =
    | RealValue(number: real)
    | SignedValue(signed: int64)
    | UnsignedValue(unsigned: uint64)
    | BooleanValue(flag: bool)
    | StringValue(text: string)
    | BinaryValue(binary: seq<byte>)
    | RealArray(reals: seq<real>)
    | SignedArray(signeds: seq<int64>)
    | UnsignedArray(unsigneds: seq<uint64>)
    | BooleanArray(flags: seq<bool>)
    | StringArray(texts: seq<string>)
    | BinaryArray(binaries: seq<seq<byte>>)

  /** A dimension: a fixed extent, or the variable that holds it, by reference or by name. */
  datatype DimensionInfo = DimensionInfo(valueReference: Option<int>, start: Option<int>, variableName: string)

  datatype VariableInfo = VariableInfo(
    name: string,
    valueReference: int,
    kind: ScalarType,
    declaredType: string,
    startValue: Option<ScalarValue>,
    dimensions: seq<DimensionInfo>)

  // ---------------------------------------------------------------------------------------------
  // Integers

  datatype Bounds = Bounds(min: int64, max: uint64, unsignedOnly: bool)

  function BoundsForDeclaredType(declaredType: string): Bounds {
    if declaredType == "Int8" then Bounds(-0x80, 0x7F, false)
    else if declaredType == "UInt8" then Bounds(0, 0xFF, true)
    else if declaredType == "Int16" then Bounds(-0x8000, 0x7FFF, false)
    else if declaredType == "UInt16" then Bounds(0, 0xFFFF, true)
    else if declaredType == "Int32" || declaredType == "Integer" || declaredType == "Enumeration" then
      Bounds(-0x8000_0000, 0x7FFF_FFFF, false)
    else if declaredType == "UInt32" then Bounds(0, 0xFFFF_FFFF, true)
    else if declaredType == "UInt64" then Bounds(0, UINT64_MAX, true)
    else Bounds(INT64_MIN, UINT64_MAX, false)
  }

  /** The integer type of an FMI call: the template parameter T of the getters and setters. */
  datatype IntegerWidth = Int32 | Int64 | UInt64

  function MinOf(width: IntegerWidth): int {
    match width case Int32 => -0x8000_0000 case Int64 => INT64_MIN case UInt64 => 0
  }

  function MaxOf(width: IntegerWidth): int {
    match width case Int32 => 0x7FFF_FFFF case Int64 => INT64_MAX case UInt64 => UINT64_MAX
  }

  function TwoTo(n: nat): (power: int)
    ensures power >= 1
  {
    if n == 0 then 1 else 2 * TwoTo(n - 1)
  }

  /** What a declared type means: a number of bits, with or without a sign. */
  datatype Declared = Signed(bits: nat) | Unsigned(bits: nat)

  /** Names other than those of the integer types stand for 64 bits with a sign. */
  function DeclaredAs(name: string): Declared {
    if name == "UInt8" then Unsigned(8)
    else if name == "UInt16" then Unsigned(16)
    else if name == "UInt32" then Unsigned(32)
    else if name == "UInt64" then Unsigned(64)
    else if name == "Int8" then Signed(8)
    else if name == "Int16" then Signed(16)
    else if name == "Int32" || name == "Integer" || name == "Enumeration" then Signed(32)
    else Signed(64)
  }

  predicate InRange(declared: Declared, n: int) {
    match declared
    case Signed(bits) => bits > 0 && -TwoTo(bits - 1) <= n < TwoTo(bits - 1)
    case Unsigned(bits) => 0 <= n < TwoTo(bits)
  }

  /** The integers of a declared type. */
  predicate InDeclaredRange(declaredType: string, n: int): (inRange: bool)
    ensures inRange ==> if IsUnsigned(declaredType) then 0 <= n <= UINT64_MAX else INT64_MIN <= n <= INT64_MAX
  {
    RangeWithin64Bits(declaredType, n);
    InRange(DeclaredAs(declaredType), n)
  }

  lemma RangeWithin64Bits(declaredType: string, n: int)
    ensures InRange(DeclaredAs(declaredType), n) ==>
              if IsUnsigned(declaredType) then 0 <= n <= UINT64_MAX else INT64_MIN <= n <= INT64_MAX
  {
    hide TwoTo;
    PowersOfTwo();
  }

  predicate IsUnsigned(declaredType: string) {
    DeclaredAs(declaredType).Unsigned?
  }

  /** The integers of an FMI type. */
  predicate Holds(width: IntegerWidth, n: int): (holds: bool)
    ensures holds <==> MinOf(width) <= n <= MaxOf(width)
  {
    PowersOfTwo();
    match width
    case Int32 => InRange(Signed(32), n)
    case Int64 => InRange(Signed(64), n)
    case UInt64 => InRange(Unsigned(64), n)
  }

  lemma PowersOfTwo()
    ensures TwoTo(7) == 0x80 && TwoTo(8) == 0x100 && TwoTo(15) == 0x8000 && TwoTo(16) == 0x1_0000
    ensures TwoTo(31) == 0x8000_0000 && TwoTo(32) == 0x1_0000_0000
    ensures TwoTo(63) == INT64_MAX + 1 && TwoTo(64) == UINT64_MAX + 1
  {
    assert TwoTo(7) == 0x80 && TwoTo(8) == 2 * TwoTo(7);
    hide TwoTo;
    TwoToSum(8, 7);
    TwoToSum(8, 8);
    TwoToSum(16, 15);
    TwoToSum(16, 16);
    TwoToSum(32, 31);
    TwoToSum(32, 32);
  }

  lemma {:induction false} TwoToSum(m: nat, n: nat)
    ensures TwoTo(m + n) == TwoTo(m) * TwoTo(n)
  {
    if m > 0 {
      TwoToSum(m - 1, n);
    }
  }

  /** The table of bounds says what the names of the types say. */
  lemma BoundsIff(declaredType: string, n: int)
    ensures var bounds := BoundsForDeclaredType(declaredType);
            && (bounds.unsignedOnly <==> IsUnsigned(declaredType))
            && bounds.min <= 0 && (bounds.unsignedOnly ==> bounds.min == 0)
            && (InDeclaredRange(declaredType, n) <==>
                bounds.min <= n <= bounds.max && (bounds.unsignedOnly || n <= INT64_MAX))
  {
    hide TwoTo;
    PowersOfTwo();
  }

  function TryNormalizeInteger(variable: VariableInfo, raw: int, width: IntegerWidth): Option<ScalarValue>
    requires Holds(width, raw)
  {
    var bounds := BoundsForDeclaredType(variable.declaredType);
    if bounds.unsignedOnly then
      if (!width.UInt64? && raw < 0) || raw > bounds.max then None else Some(UnsignedValue(raw))
    else if width.UInt64? then
      if raw > bounds.max || raw > INT64_MAX then None else Some(SignedValue(raw))
    else if raw < bounds.min || (raw >= 0 && raw > bounds.max) then None
    else Some(SignedValue(raw))
  }

  function TryCastStoredInteger(variable: VariableInfo, stored: ScalarValue, width: IntegerWidth): Option<int> {
    var bounds := BoundsForDeclaredType(variable.declaredType);
    if stored.UnsignedValue? then
      if !bounds.unsignedOnly || stored.unsigned > bounds.max || stored.unsigned > MaxOf(width) then None
      else Some(stored.unsigned)
    else if !stored.SignedValue? || (bounds.unsignedOnly && stored.signed < 0) then None
    else if width.UInt64? then
      if stored.signed < 0 || stored.signed > bounds.max then None else Some(stored.signed)
    else if stored.signed < bounds.min || (stored.signed >= 0 && stored.signed > bounds.max) then None
    else if stored.signed < MinOf(width) || stored.signed > MaxOf(width) then None
    else Some(stored.signed)
  }

  /** A stored integer, however it is stored. */
  function IntegerOf(value: ScalarValue): Option<int> {
    if value.SignedValue? then Some(value.signed)
    else if value.UnsignedValue? then Some(value.unsigned)
    else None
  }

  /** An integer is stored as it is, in the way that suits its type, or refused; never wrapped. */
  lemma NormalizeIff(variable: VariableInfo, raw: int, width: IntegerWidth)
    requires Holds(width, raw)
    ensures var stored := TryNormalizeInteger(variable, raw, width);
            && (stored.Some? <==> InDeclaredRange(variable.declaredType, raw))
            && (stored.Some? ==> IntegerOf(stored.value) == Some(raw))
            && (stored.Some? ==> stored.value.UnsignedValue? == IsUnsigned(variable.declaredType))
  {
    hide BoundsForDeclaredType, InDeclaredRange, Holds, IsUnsigned;
    BoundsIff(variable.declaredType, raw);
  }

  /** A getter returns exactly the integer that is stored, or refuses when it fits neither type. */
  lemma CastIff(variable: VariableInfo, stored: ScalarValue, width: IntegerWidth)
    ensures var result := TryCastStoredInteger(variable, stored, width);
            && (result.Some? ==> result == IntegerOf(stored))
            && (result.Some? <==>
                  && IntegerOf(stored).Some?
                  && InDeclaredRange(variable.declaredType, IntegerOf(stored).value)
                  && Holds(width, IntegerOf(stored).value)
                  && (stored.UnsignedValue? ==> IsUnsigned(variable.declaredType)))
  {
    hide BoundsForDeclaredType, InDeclaredRange, Holds, IsUnsigned;
    if IntegerOf(stored).Some? {
      BoundsIff(variable.declaredType, IntegerOf(stored).value);
    }
  }

  lemma NormalizeThenCast(variable: VariableInfo, raw: int, width: IntegerWidth)
    requires Holds(width, raw) && TryNormalizeInteger(variable, raw, width).Some?
    ensures TryCastStoredInteger(variable, TryNormalizeInteger(variable, raw, width).value, width) == Some(raw)
  {
    hide TryNormalizeInteger, TryCastStoredInteger, InDeclaredRange;
    NormalizeIff(variable, raw, width);
    CastIff(variable, TryNormalizeInteger(variable, raw, width).value, width);
  }

  // ---------------------------------------------------------------------------------------------
  // To the wire

  function MapEach<S, T>(items: seq<S>, f: S -> T): (mapped: seq<T>)
    ensures |mapped| == |items| && forall i | 0 <= i < |items| :: mapped[i] == f(items[i])
  {
    if items == [] then [] else [f(items[0])] + MapEach(items[1..], f)
  }

  function ToJsonValue(value: ScalarValue): Json {
    match value
    case RealValue(r) => Json.Number(r)
    case SignedValue(n) => Json.String(ToString(n))
    case UnsignedValue(n) => Json.String(ToString(n))
    case BooleanValue(b) => Json.Bool(b)
    case StringValue(text) => Json.String(text)
    case BinaryValue(data) => Json.String(Base64.Encoded(data))
    case RealArray(items) => Json.Array(MapEach(items, (r: real) => Json.Number(r)))
    case SignedArray(items) => Json.Array(MapEach(items, (n: int64) => Json.String(ToString(n))))
    case UnsignedArray(items) => Json.Array(MapEach(items, (n: uint64) => Json.String(ToString(n))))
    case BooleanArray(items) => Json.Array(MapEach(items, (b: bool) => Json.Bool(b)))
    case StringArray(items) => Json.Array(MapEach(items, (text: string) => Json.String(text)))
    case BinaryArray(items) => Json.Array(MapEach(items, (data: seq<byte>) => Json.String(Base64.Encoded(data))))
  }

  // ---------------------------------------------------------------------------------------------
  // From the wire

  /** Conversion of a whole array: None as soon as one item does not convert. */
  function ConvertEach<T>(items: seq<Json>, f: Json -> Option<T>): Option<seq<T>> {
    if items == [] then Some([])
    else
      var head, tail := f(items[0]), ConvertEach(items[1..], f);
      if head.None? || tail.None? then None else Some([head.value] + tail.value)
  }

  function Truncated(r: real): int {
    if r >= 0.0 then r.Floor else -(-r).Floor
  }

  /** `std::numeric_limits<double>::epsilon()`, 2^-52. */
  const EPSILON := 1.0 / 4503599627370496.0

  /** The integer that a JSON number stands for, if its fractional part is negligible and it is in range. */
  function NumberToInteger(number: real, min: int, max: int): Option<int> {
    var fraction := number - Truncated(number) as real;
    if fraction > EPSILON || fraction < -EPSILON then None
    else if number < min as real || number > max as real then None
    else Some(Truncated(number))
  }

  function ParseSignedIntegerJson(value: Json): (n: Option<int>)
    ensures n.Some? ==> INT64_MIN <= n.value <= INT64_MAX
  {
    match value
    case String(text) => ParseSigned(text)
    case Number(number) => NumberToInteger(number, INT64_MIN, INT64_MAX)
    case _ => None
  }

  function ParseUnsignedIntegerJson(value: Json): (n: Option<int>)
    ensures n.Some? ==> 0 <= n.value <= UINT64_MAX
  {
    match value
    case String(text) => ParseUnsigned(text)
    case Number(number) => NumberToInteger(number, 0, UINT64_MAX)
    case _ => None
  }

  function ConvertInteger(value: Json, variable: VariableInfo): Option<ScalarValue> {
    if BoundsForDeclaredType(variable.declaredType).unsignedOnly then
      var parsed := ParseUnsignedIntegerJson(value);
      if parsed.None? then None else TryNormalizeInteger(variable, parsed.value, UInt64)
    else
      var parsed := ParseSignedIntegerJson(value);
      if parsed.None? then None else TryNormalizeInteger(variable, parsed.value, Int64)
  }

  function ConvertUnsignedItem(value: Json, variable: VariableInfo): Option<uint64> {
    match ConvertInteger(value, variable)
    case Some(UnsignedValue(n)) => Some(n)
    case _ => None
  }

  function ConvertSignedItem(value: Json, variable: VariableInfo): Option<int64> {
    match ConvertInteger(value, variable)
    case Some(SignedValue(n)) => Some(n)
    case _ => None
  }

  function ConvertReal(value: Json): Option<real> {
    if value.Number? then Some(value.value) else None
  }

  function ConvertBoolean(value: Json): Option<bool> {
    if value.Bool? then Some(value.flag) else if value.Number? then Some(value.value != 0.0) else None
  }

  function ConvertString(value: Json): Option<string> {
    if value.String? then Some(value.text) else None
  }

  function ConvertBinary(value: Json): Option<seq<byte>> {
    if value.String? then Base64.Decoded(value.text) else None
  }

  function Wrapped<T>(converted: Option<T>, wrap: T -> ScalarValue): Option<ScalarValue> {
    if converted.None? then None else Some(wrap(converted.value))
  }

  function ConvertJsonValue(value: Json, variable: VariableInfo): Option<ScalarValue> {
    if value.Array? then
      match variable.kind
      case RealType => Wrapped(ConvertEach(value.items, ConvertReal), r => RealArray(r))
      case IntegerType => ConvertIntegerArray(value.items, variable)
      case EnumerationType => ConvertIntegerArray(value.items, variable)
      case BooleanType => Wrapped(ConvertEach(value.items, ConvertBoolean), b => BooleanArray(b))
      case StringType => Wrapped(ConvertEach(value.items, ConvertString), s => StringArray(s))
      case BinaryType => Wrapped(ConvertEach(value.items, ConvertBinary), b => BinaryArray(b))
      case ClockType => Wrapped(ConvertEach(value.items, ConvertBoolean), b => BooleanArray(b))
    else
      match variable.kind
      case RealType => Wrapped(ConvertReal(value), r => RealValue(r))
      case IntegerType => ConvertInteger(value, variable)
      case EnumerationType => ConvertInteger(value, variable)
      case BooleanType => Wrapped(ConvertBoolean(value), b => BooleanValue(b))
      case StringType => Wrapped(ConvertString(value), s => StringValue(s))
      case BinaryType => Wrapped(ConvertBinary(value), b => BinaryValue(b))
      case ClockType => Wrapped(ConvertBoolean(value), b => BooleanValue(b))
  }

  function ConvertIntegerArray(items: seq<Json>, variable: VariableInfo): Option<ScalarValue> {
    if BoundsForDeclaredType(variable.declaredType).unsignedOnly then
      Wrapped(ConvertEach(items, (item: Json) => ConvertUnsignedItem(item, variable)), n => UnsignedArray(n))
    else
      Wrapped(ConvertEach(items, (item: Json) => ConvertSignedItem(item, variable)), n => SignedArray(n))
  }

  // ---------------------------------------------------------------------------------------------
  // There and back

  /** The value is of the variable's type, stored the way that type is stored, within its range. */
  predicate ValueFits(value: ScalarValue, variable: VariableInfo) {
    var declared, unsignedOnly := variable.declaredType, IsUnsigned(variable.declaredType);
    match variable.kind
    case RealType => value.RealValue? || value.RealArray?
    case BooleanType => value.BooleanValue? || value.BooleanArray?
    case ClockType => value.BooleanValue? || value.BooleanArray?
    case StringType => value.StringValue? || value.StringArray?
    case BinaryType => value.BinaryValue? || value.BinaryArray?
    case _ =>
      match value
      case SignedValue(n) => !unsignedOnly && InDeclaredRange(declared, n)
      case UnsignedValue(n) => unsignedOnly && InDeclaredRange(declared, n)
      case SignedArray(items) => !unsignedOnly && forall i | 0 <= i < |items| :: InDeclaredRange(declared, items[i])
      case UnsignedArray(items) => unsignedOnly && forall i | 0 <= i < |items| :: InDeclaredRange(declared, items[i])
      case _ => false
  }

  lemma {:induction false} ConvertEachOfMapEach<T>(items: seq<T>, f: T -> Json, g: Json -> Option<T>)
    requires forall i | 0 <= i < |items| :: g(f(items[i])) == Some(items[i])
    ensures ConvertEach(MapEach(items, f), g) == Some(items)
  {
    if items != [] {
      ConvertEachOfMapEach(items[1..], f, g);
      assert MapEach(items, f)[1..] == MapEach(items[1..], f);
      assert items == [items[0]] + items[1..];
    }
  }

  lemma IntegerRoundTrip(n: int, variable: VariableInfo)
    requires InDeclaredRange(variable.declaredType, n)
    ensures ConvertInteger(Json.String(ToString(n)), variable)
         == Some(if IsUnsigned(variable.declaredType) then UnsignedValue(n) else SignedValue(n))
  {
    hide ConvertInteger, ToString, BoundsForDeclaredType, InDeclaredRange;
    TextOfInteger(n, variable);
  }

  lemma IntegerArrayRoundTrip(value: ScalarValue, variable: VariableInfo)
    requires value.SignedArray? || value.UnsignedArray?
    requires variable.kind.IntegerType? || variable.kind.EnumerationType?
    requires ValueFits(value, variable)
    ensures ConvertIntegerArray(ToJsonValue(value).items, variable) == Some(value)
  {
    hide InDeclaredRange, IsUnsigned, ConvertInteger, ToString, BoundsForDeclaredType;
    BoundsIff(variable.declaredType, 0);
    if value.SignedArray? {
      forall i | 0 <= i < |value.signeds|
        ensures ConvertSignedItem(Json.String(ToString(value.signeds[i])), variable) == Some(value.signeds[i])
      {
        IntegerRoundTrip(value.signeds[i], variable);
      }
      ConvertEachOfMapEach(value.signeds, (n: int64) => Json.String(ToString(n)),
                           (item: Json) => ConvertSignedItem(item, variable));
    } else {
      forall i | 0 <= i < |value.unsigneds|
        ensures ConvertUnsignedItem(Json.String(ToString(value.unsigneds[i])), variable) == Some(value.unsigneds[i])
      {
        IntegerRoundTrip(value.unsigneds[i], variable);
      }
      ConvertEachOfMapEach(value.unsigneds, (n: uint64) => Json.String(ToString(n)),
                           (item: Json) => ConvertUnsignedItem(item, variable));
    }
  }

  /** Every value that fits its variable survives the conversion to JSON and back. */
  lemma WireRoundTrip(value: ScalarValue, variable: VariableInfo)
    requires ValueFits(value, variable)
    ensures ConvertJsonValue(ToJsonValue(value), variable) == Some(value)
  {
    hide InDeclaredRange, ConvertInteger, ToString, BoundsForDeclaredType, Base64.Decoded, Base64.Encoded;
    match value {
      case SignedValue(n) => IntegerRoundTrip(n, variable);
      case UnsignedValue(n) => IntegerRoundTrip(n, variable);
      case SignedArray(_) => IntegerArrayRoundTrip(value, variable);
      case UnsignedArray(_) => IntegerArrayRoundTrip(value, variable);
      case BinaryValue(data) => Base64.RoundTrip(data);
      case BinaryArray(items) =>
        forall i | 0 <= i < |items| ensures ConvertBinary(Json.String(Base64.Encoded(items[i]))) == Some(items[i]) {
          Base64.RoundTrip(items[i]);
        }
        ConvertEachOfMapEach(items, (data: seq<byte>) => Json.String(Base64.Encoded(data)), ConvertBinary);
      case RealArray(items) => ConvertEachOfMapEach(items, (r: real) => Json.Number(r), ConvertReal);
      case BooleanArray(items) => ConvertEachOfMapEach(items, (b: bool) => Json.Bool(b), ConvertBoolean);
      case StringArray(items) => ConvertEachOfMapEach(items, (text: string) => Json.String(text), ConvertString);
      case _ =>
    }
  }

  /** A negative integer that an unsigned type takes all the same, as what is left of it modulo 2^64. */
  predicate WrapsInto(declaredType: string, n: int) {
    IsUnsigned(declaredType) && -TwoTo(64) < n < 0 && InDeclaredRange(declaredType, n + TwoTo(64))
  }

  /** What becomes of the decimal text of any integer that a server may send. */
  lemma TextOfInteger(n: int, variable: VariableInfo)
    ensures var declared := variable.declaredType;
            ConvertInteger(Json.String(ToString(n)), variable) ==
            if InDeclaredRange(declared, n) then
              Some(if IsUnsigned(declared) then UnsignedValue(n) else SignedValue(n))
            else if WrapsInto(declared, n) then Some(UnsignedValue(n + TwoTo(64)))
            else None
  {
    hide ParseSigned, ParseUnsigned, ToString, TryNormalizeInteger, BoundsForDeclaredType, InDeclaredRange, IsUnsigned,
         TwoTo;
    SignedOfText(n);
    UnsignedOfText(n);
    PowersOfTwo();
    BoundsIff(variable.declaredType, n);
    if IsUnsigned(variable.declaredType) {
      if ParseUnsigned(ToString(n)).Some? {
        NormalizeIff(variable, ParseUnsigned(ToString(n)).value, UInt64);
      }
    } else if ParseSigned(ToString(n)).Some? {
      NormalizeIff(variable, n, Int64);
    }
  }

  /** A server's integer is taken exactly or refused, unless it is negative and wraps into an unsigned type. */
  lemma TakenExactlyIff(n: int, variable: VariableInfo)
    ensures var taken := ConvertInteger(Json.String(ToString(n)), variable);
            (taken.Some? ==> IntegerOf(taken.value) == Some(n)) <==> !WrapsInto(variable.declaredType, n)
  {
    hide ConvertInteger, ToString;
    TextOfInteger(n, variable);
  }

  /** For example, a UInt32 variable takes the text of -(2^64 - 1) for 1. */
  lemma NegativeTextIsTaken(variable: VariableInfo)
    requires variable.kind == IntegerType && variable.declaredType == "UInt32"
    ensures ConvertJsonValue(Json.String(ToString(-18446744073709551615)), variable) == Some(UnsignedValue(1))
  {
    hide ConvertInteger, ToString, TwoTo;
    PowersOfTwo();
    TextOfInteger(-18446744073709551615, variable);
  }

  lemma {:induction false} ConvertEachElements<T>(items: seq<Json>, f: Json -> Option<T>)
    ensures var converted := ConvertEach(items, f);
            converted.Some? ==>
              && |converted.value| == |items|
              && forall i | 0 <= i < |items| :: f(items[i]) == Some(converted.value[i])
  {
    if items != [] {
      ConvertEachElements(items[1..], f);
    }
  }

  lemma ConvertedIntegerFits(value: Json, variable: VariableInfo)
    ensures ConvertInteger(value, variable).Some? ==>
              var n := ConvertInteger(value, variable).value;
              && n.UnsignedValue? == IsUnsigned(variable.declaredType)
              && IntegerOf(n).Some? && InDeclaredRange(variable.declaredType, IntegerOf(n).value)
  {
    hide ParseSignedIntegerJson, ParseUnsignedIntegerJson, TryNormalizeInteger, BoundsForDeclaredType, InDeclaredRange,
         IsUnsigned;
    BoundsIff(variable.declaredType, 0);
    var unsigned := IsUnsigned(variable.declaredType);
    var parsed := if unsigned then ParseUnsignedIntegerJson(value) else ParseSignedIntegerJson(value);
    if parsed.Some? {
      NormalizeIff(variable, parsed.value, if unsigned then UInt64 else Int64);
    }
  }

  /** Whatever the server sends, what the cache takes from it is of the variable's type and range. */
  lemma ConvertedFits(value: Json, variable: VariableInfo)
    ensures ConvertJsonValue(value, variable).Some? ==> ValueFits(ConvertJsonValue(value, variable).value, variable)
  {
    hide InDeclaredRange, IsUnsigned, ConvertInteger, BoundsForDeclaredType;
    BoundsIff(variable.declaredType, 0);
    ConvertedIntegerFits(value, variable);
    if value.Array? && (variable.kind.IntegerType? || variable.kind.EnumerationType?) {
      forall item ensures ConvertInteger(item, variable).Some? ==>
                            IntegerOf(ConvertInteger(item, variable).value).Some? &&
                            InDeclaredRange(variable.declaredType,
                                            IntegerOf(ConvertInteger(item, variable).value).value)
      {
        ConvertedIntegerFits(item, variable);
      }
      ConvertEachElements(value.items, (item: Json) => ConvertUnsignedItem(item, variable));
      ConvertEachElements(value.items, (item: Json) => ConvertSignedItem(item, variable));
    }
  }
}
