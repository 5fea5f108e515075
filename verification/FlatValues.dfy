/**
 The model description with its two indexes, and the flat value buffers of the FMI calls: a list of
 value references, and one buffer in which each variable takes as many places as it has elements.
 */
module FlatValues {
  import opened Common
  import opened Values

  // ---------------------------------------------------------------------------------------------
  // The model description

  datatype ModelDescription = ModelDescription(
    variables: seq<VariableInfo>, byValueReference: map<int, nat>, byName: map<string, nat>)

  const NO_MODEL := ModelDescription([], map[], map[])

  /** Indexes point to variables with the key they stand for. */
  ghost predicate ValidModel(model: ModelDescription) {
    && (forall v | v in model.byValueReference ::
          model.byValueReference[v] < |model.variables|
          && model.variables[model.byValueReference[v]].valueReference == v)
    && (forall name | name in model.byName ::
          model.byName[name] < |model.variables| && model.variables[model.byName[name]].name == name)
  }

  /** `std::map::emplace`: the first variable with a key keeps it. */
  function EmplaceIndex<K>(index: map<K, nat>, key: K, position: nat): map<K, nat> {
    if key in index then index else index[key := position]
  }

  function AddVariable(model: ModelDescription, variable: VariableInfo): ModelDescription {
    ModelDescription(
      model.variables + [variable],
      EmplaceIndex(model.byValueReference, variable.valueReference, |model.variables|),
      EmplaceIndex(model.byName, variable.name, |model.variables|))
  }

  function ModelOf(variables: seq<VariableInfo>): ModelDescription {
    if variables == [] then NO_MODEL
    else AddVariable(ModelOf(variables[..|variables| - 1]), variables[|variables| - 1])
  }

  function FindByValueReference(model: ModelDescription, v: int): Option<VariableInfo>
    requires ValidModel(model)
  {
    if v in model.byValueReference then Some(model.variables[model.byValueReference[v]]) else None
  }

  function FindByName(model: ModelDescription, name: string): Option<VariableInfo>
    requires ValidModel(model)
  {
    if name in model.byName then Some(model.variables[model.byName[name]]) else None
  }

  lemma AddedIsValid(model: ModelDescription, variable: VariableInfo)
    requires ValidModel(model)
    ensures ValidModel(AddVariable(model, variable))
  {
    var more := model.variables + [variable];
    assert more[|model.variables|] == variable;
    assert forall i | 0 <= i < |model.variables| :: more[i] == model.variables[i];
  }

  /** The indexes always point into the list, to variables with the key they stand for. */
  lemma {:induction false} ModelIsValid(variables: seq<VariableInfo>)
    ensures ValidModel(ModelOf(variables)) && ModelOf(variables).variables == variables
  {
    if variables == [] {
    } else {
      hide ValidModel;
      var last := |variables| - 1;
      ModelIsValid(variables[..last]);
      AddedIsValid(ModelOf(variables[..last]), variables[last]);
      assert variables == variables[..last] + [variables[last]];
    }
  }

  ghost predicate FirstWith(variables: seq<VariableInfo>, v: int, position: nat) {
    && position < |variables| && variables[position].valueReference == v
    && forall i | 0 <= i < position :: variables[i].valueReference != v
  }

  /** A lookup finds the first variable that was declared with the reference, if there is one. */
  lemma {:induction false} LookupFindsFirst(variables: seq<VariableInfo>, v: int)
    ensures var index := ModelOf(variables).byValueReference;
            && (v in index ==> FirstWith(variables, v, index[v]))
            && (v !in index ==> forall i | 0 <= i < |variables| :: variables[i].valueReference != v)
  {
    if variables != [] {
      var last := |variables| - 1;
      var fewer := variables[..last];
      LookupFindsFirst(fewer, v);
      ModelIsValid(fewer);
      assert forall i | 0 <= i < last :: variables[i] == fewer[i];
    }
  }

  // ---------------------------------------------------------------------------------------------
  // Flat sizes

  type Cache = map<int, ScalarValue>

  const INT32_MIN := -0x8000_0000
  const INT32_MAX := 0x7FFF_FFFF

  /** `std::llround`: to the nearest integer, halves away from zero. */
  function Rounded(r: real): int {
    if r >= 0.0 then (r + 0.5).Floor else -(0.5 - r).Floor
  }

  function ToInt32(value: ScalarValue): Option<int> {
    var n := match value
             case SignedValue(n) => Some(n)
             case UnsignedValue(n) => Some(n)
             case RealValue(r) => Some(Rounded(r))
             case _ => None;
    if n.None? || n.value < INT32_MIN || n.value > INT32_MAX then None else n
  }

  function Extent(model: ModelDescription, cache: Cache, dimension: DimensionInfo): Option<int>
    requires ValidModel(model)
  {
    if dimension.start.Some? then dimension.start
    else
      var reference := dimension.valueReference;
      if reference.Some? && reference.value in cache then ToInt32(cache[reference.value])
      else
        var byReference := if reference.Some? then FindByValueReference(model, reference.value) else None;
        if byReference.Some? && byReference.value.startValue.Some? then ToInt32(byReference.value.startValue.value)
        else
          var byName := if dimension.variableName != "" then FindByName(model, dimension.variableName) else None;
          if byName.Some? && byName.value.startValue.Some? then ToInt32(byName.value.startValue.value) else None
  }

  /** The product of the extents; zero as soon as one of them is unknown or negative. */
  function Size(model: ModelDescription, cache: Cache, dimensions: seq<DimensionInfo>): nat
    requires ValidModel(model)
  {
    if dimensions == [] then 1
    else
      var extent, rest := Extent(model, cache, dimensions[0]), Size(model, cache, dimensions[1..]);
      if extent.None? || extent.value < 0 then 0 else extent.value * rest
  }

  function FlatSize(model: ModelDescription, cache: Cache, variable: VariableInfo): nat
    requires ValidModel(model)
  {
    Size(model, cache, variable.dimensions)
  }

  function ExpectedCount(model: ModelDescription, cache: Cache, references: seq<int>): nat
    requires ValidModel(model)
  {
    if AllSized(model, cache, references) then TotalSize(model, cache, references) else 0
  }

  predicate AllSized(model: ModelDescription, cache: Cache, references: seq<int>)
    requires ValidModel(model)
  {
    forall i | 0 <= i < |references| ::
      var variable := FindByValueReference(model, references[i]);
      variable.Some? && FlatSize(model, cache, variable.value) != 0
  }

  function TotalSize(model: ModelDescription, cache: Cache, references: seq<int>): nat
    requires ValidModel(model)
  {
    if references == [] then 0
    else
      var variable := FindByValueReference(model, references[0]);
      (if variable.None? then 0 else FlatSize(model, cache, variable.value)) + TotalSize(model, cache, references[1..])
  }

  // ---------------------------------------------------------------------------------------------
  // Elements of the buffers

  datatype Numeric = RealNumber(r: real) | IntegerNumber(n: int)

  /** The template parameter of the numeric getters and setters. */
  datatype Element = RealElement | IntegerElement(width: IntegerWidth)

  predicate Conforms(element: Element, number: Numeric) {
    match element
    case RealElement => number.RealNumber?
    case IntegerElement(width) => number.IntegerNumber? && Holds(width, number.n)
  }

  predicate AllConform(element: Element, numbers: seq<Numeric>) {
    forall i | 0 <= i < |numbers| :: Conforms(element, numbers[i])
  }

  predicate Accepts(element: Element, variable: VariableInfo) {
    if element.RealElement? then variable.kind == RealType
    else variable.kind == IntegerType || variable.kind == EnumerationType
  }

  function NormalizedAll(variable: VariableInfo, numbers: seq<Numeric>, width: IntegerWidth): Option<seq<ScalarValue>>
    requires AllConform(IntegerElement(width), numbers)
  {
    if numbers == [] then Some([])
    else
      assert Conforms(IntegerElement(width), numbers[0]);
      var head := TryNormalizeInteger(variable, numbers[0].n, width);
      var tail := NormalizedAll(variable, numbers[1..], width);
      if head.None? || tail.None? then None else Some([head.value] + tail.value)
  }

  /** The value to be stored for a variable, from its part of the buffer. */
  function Stored(variable: VariableInfo, numbers: seq<Numeric>, element: Element): Option<ScalarValue>
    requires numbers != [] && AllConform(element, numbers)
  {
    assert Conforms(element, numbers[0]);
    match element
    case RealElement =>
      Some(if |numbers| == 1 then RealValue(numbers[0].r) else RealArray(RealsOf(numbers)))
    case IntegerElement(width) =>
      if |numbers| == 1 then TryNormalizeInteger(variable, numbers[0].n, width)
      else
        var all := NormalizedAll(variable, numbers, width);
        if all.None? then None
        else if BoundsForDeclaredType(variable.declaredType).unsignedOnly then
          Some(UnsignedArray(UnsignedsOf(all.value)))
        else Some(SignedArray(SignedsOf(all.value)))
  }

  function RealsOf(numbers: seq<Numeric>): (reals: seq<real>)
    requires AllConform(RealElement, numbers)
    ensures |reals| == |numbers| && forall i | 0 <= i < |reals| :: numbers[i] == RealNumber(reals[i])
  {
    if numbers == [] then []
    else
      assert Conforms(RealElement, numbers[0]);
      [numbers[0].r] + RealsOf(numbers[1..])
  }

  function UnsignedsOf(values: seq<ScalarValue>): seq<uint64> {
    if values == [] then []
    else [if values[0].UnsignedValue? then values[0].unsigned else 0] + UnsignedsOf(values[1..])
  }

  function SignedsOf(values: seq<ScalarValue>): seq<int64> {
    if values == [] then []
    else [if values[0].SignedValue? then values[0].signed else 0] + SignedsOf(values[1..])
  }

  function CastAll(variable: VariableInfo, values: seq<ScalarValue>, width: IntegerWidth): Option<seq<Numeric>> {
    if values == [] then Some([])
    else
      var head, tail := TryCastStoredInteger(variable, values[0], width), CastAll(variable, values[1..], width);
      if head.None? || tail.None? then None else Some([IntegerNumber(head.value)] + tail.value)
  }

  function ItemsOf(value: ScalarValue): Option<seq<ScalarValue>> {
    match value
    case SignedArray(items) => Some(MapEach(items, (n: int64) => SignedValue(n)))
    case UnsignedArray(items) => Some(MapEach(items, (n: uint64) => UnsignedValue(n)))
    case _ => None
  }

  /** What a getter hands out for a cached value of `size` elements. */
  function Fetched(variable: VariableInfo, value: ScalarValue, size: nat, element: Element): Option<seq<Numeric>> {
    match element
    case RealElement =>
      if size == 1 then if value.RealValue? then Some([RealNumber(value.number)]) else None
      else if value.RealArray? && |value.reals| == size then Some(MapEach(value.reals, (r: real) => RealNumber(r)))
      else None
    case IntegerElement(width) =>
      if size == 1 then
        var n := TryCastStoredInteger(variable, value, width);
        if n.None? then None else Some([IntegerNumber(n.value)])
      else
        var items := ItemsOf(value);
        if items.None? || |items.value| != size then None else CastAll(variable, items.value, width)
  }

  lemma {:induction false} NormalizedThenCast(variable: VariableInfo, numbers: seq<Numeric>, width: IntegerWidth)
    requires AllConform(IntegerElement(width), numbers) && NormalizedAll(variable, numbers, width).Some?
    ensures var all, unsignedOnly := NormalizedAll(variable, numbers, width).value, IsUnsigned(variable.declaredType);
            && |all| == |numbers|
            && CastAll(variable, all, width) == Some(numbers)
            && (unsignedOnly ==> ItemsOf(UnsignedArray(UnsignedsOf(all))) == Some(all))
            && (!unsignedOnly ==> ItemsOf(SignedArray(SignedsOf(all))) == Some(all))
  {
    hide TryNormalizeInteger, TryCastStoredInteger, InDeclaredRange, IsUnsigned;
    if numbers != [] {
      assert Conforms(IntegerElement(width), numbers[0]);
      var tail := numbers[1..];
      NormalizedThenCast(variable, tail, width);
      NormalizeIff(variable, numbers[0].n, width);
      NormalizeThenCast(variable, numbers[0].n, width);
      assert numbers == [numbers[0]] + tail;
      var all := NormalizedAll(variable, numbers, width).value;
      var rest := NormalizedAll(variable, tail, width).value;
      assert all[0] == TryNormalizeInteger(variable, numbers[0].n, width).value && all[1..] == rest;
      if IsUnsigned(variable.declaredType) {
        assert ItemsOf(UnsignedArray(UnsignedsOf(all))).value
            == [all[0]] + ItemsOf(UnsignedArray(UnsignedsOf(rest))).value;
      } else {
        assert ItemsOf(SignedArray(SignedsOf(all))).value == [all[0]] + ItemsOf(SignedArray(SignedsOf(rest))).value;
      }
    }
  }

  /** What is stored for a variable is handed out again unchanged. */
  lemma StoredThenFetched(variable: VariableInfo, numbers: seq<Numeric>, element: Element)
    requires numbers != [] && AllConform(element, numbers) && Stored(variable, numbers, element).Some?
    ensures Fetched(variable, Stored(variable, numbers, element).value, |numbers|, element) == Some(numbers)
  {
    hide TryNormalizeInteger, TryCastStoredInteger, BoundsForDeclaredType, IsUnsigned, NormalizedAll, CastAll,
         UnsignedsOf, SignedsOf;
    assert Conforms(element, numbers[0]);
    match element
    case RealElement =>
      if |numbers| == 1 {
        assert [RealNumber(numbers[0].r)] == numbers;
      } else {
        var reals := RealsOf(numbers);
        assert MapEach(reals, (r: real) => RealNumber(r)) == numbers;
      }
    case IntegerElement(width) =>
      if |numbers| == 1 {
        assert [IntegerNumber(numbers[0].n)] == numbers;
        NormalizeThenCast(variable, numbers[0].n, width);
      } else {
        BoundsIff(variable.declaredType, 0);
        NormalizedThenCast(variable, numbers, width);
      }
  }

  lemma {:induction false} NormalizedFits(variable: VariableInfo, numbers: seq<Numeric>, width: IntegerWidth)
    requires AllConform(IntegerElement(width), numbers) && NormalizedAll(variable, numbers, width).Some?
    ensures forall value | value in NormalizedAll(variable, numbers, width).value :: IntegerFits(variable, value)
  {
    hide TryNormalizeInteger, IntegerFits;
    if numbers != [] {
      assert Conforms(IntegerElement(width), numbers[0]);
      NormalizedElementFits(variable, numbers[0].n, width);
      NormalizedFits(variable, numbers[1..], width);
      var all := NormalizedAll(variable, numbers, width).value;
      var rest := NormalizedAll(variable, numbers[1..], width).value;
      assert all == [TryNormalizeInteger(variable, numbers[0].n, width).value] + rest;
    }
  }

  predicate IntegerFits(variable: VariableInfo, value: ScalarValue) {
    && value.UnsignedValue? == IsUnsigned(variable.declaredType)
    && IntegerOf(value).Some? && InDeclaredRange(variable.declaredType, IntegerOf(value).value)
  }

  lemma NormalizedElementFits(variable: VariableInfo, n: int, width: IntegerWidth)
    requires Holds(width, n) && TryNormalizeInteger(variable, n, width).Some?
    ensures IntegerFits(variable, TryNormalizeInteger(variable, n, width).value)
  {
    hide BoundsForDeclaredType, TryNormalizeInteger, InDeclaredRange;
    NormalizeIff(variable, n, width);
  }

  /** What a setter stores is of the variable's type and within its declared range. */
  lemma StoredFits(variable: VariableInfo, numbers: seq<Numeric>, element: Element)
    requires numbers != [] && AllConform(element, numbers) && Accepts(element, variable)
    requires Stored(variable, numbers, element).Some?
    ensures ValueFits(Stored(variable, numbers, element).value, variable)
  {
    hide TryNormalizeInteger, BoundsForDeclaredType, InDeclaredRange, IsUnsigned, NormalizedAll, UnsignedsOf, SignedsOf;
    assert Conforms(element, numbers[0]);
    if element.IntegerElement? {
      var value := Stored(variable, numbers, element).value;
      if |numbers| == 1 {
        NormalizedElementFits(variable, numbers[0].n, element.width);
      } else {
        var all := NormalizedAll(variable, numbers, element.width).value;
        NormalizedFits(variable, numbers, element.width);
        BoundsIff(variable.declaredType, 0);
        NormalizedThenCast(variable, numbers, element.width);
        forall i | 0 <= i < |all| ensures IntegerFits(variable, ItemsOf(value).value[i]) {
          assert ItemsOf(value).value[i] in all;
        }
      }
    }
  }

  // ---------------------------------------------------------------------------------------------
  // Setting and getting

  const INVALID_ARGUMENT := "INVALID_ARGUMENT"
  const UNKNOWN_VALUE_REFERENCE := "UNKNOWN_VALUE_REFERENCE"
  const TYPE_MISMATCH := "TYPE_MISMATCH"
  const VALUE_UNAVAILABLE := "VALUE_UNAVAILABLE"

  /** The variable that is next in the list, or why the call cannot go on. */
  function NextVariable(model: ModelDescription, reference: int, element: Element): Result<VariableInfo>
    requires ValidModel(model)
  {
    match FindByValueReference(model, reference)
    case None => Failure(UNKNOWN_VALUE_REFERENCE)
    case Some(variable) => if Accepts(element, variable) then Success(variable) else Failure(TYPE_MISMATCH)
  }

  /** A write: a variable and the value it gets. */
  datatype Write = Write(variable: VariableInfo, value: ScalarValue)

  function Apply(cache: Cache, write: Write): Cache {
    cache[write.variable.valueReference := write.value]
  }

  function ApplyAll(cache: Cache, writes: seq<Write>): Cache
    decreases |writes|
  {
    if writes == [] then cache else ApplyAll(Apply(cache, writes[0]), writes[1..])
  }

  /** The writes of a set call, in order, and how it ends. Later sizes depend on earlier writes. */
  datatype SetOutcome = SetOutcome(writes: seq<Write>, status: Result<()>)

  function SetFrom(
      model: ModelDescription, cache: Cache, references: seq<int>, values: seq<Numeric>, element: Element): SetOutcome
    requires ValidModel(model) && AllConform(element, values)
    decreases |references|
  {
    if references == [] then SetOutcome([], Success(()))
    else
      match NextVariable(model, references[0], element)
      case Failure(code) => SetOutcome([], Failure(code))
      case Success(variable) =>
        var size := FlatSize(model, cache, variable);
        if size == 0 || size > |values| then SetOutcome([], Failure(INVALID_ARGUMENT))
        else
          match Stored(variable, values[..size], element)
          case None => SetOutcome([], Failure(TYPE_MISMATCH))
          case Some(value) =>
            var write := Write(variable, value);
            var later := SetFrom(model, Apply(cache, write), references[1..], values[size..], element);
            SetOutcome([write] + later.writes, later.status)
  }

  /** The number of values a call works on: none given means one a reference. */
  function Width(count: nat, valueCount: nat): nat {
    if valueCount == 0 then count else valueCount
  }

  function SetValues(
      model: ModelDescription, cache: Cache, references: seq<int>, values: seq<Numeric>, element: Element): SetOutcome
    requires ValidModel(model) && AllConform(element, values)
  {
    if ExpectedCount(model, cache, references) != |values| then SetOutcome([], Failure(INVALID_ARGUMENT))
    else SetFrom(model, cache, references, values, element)
  }

  /** The values of a get call, for at most `room` places. */
  function GetFrom(
      model: ModelDescription, cache: Cache, references: seq<int>, room: nat, element: Element): Result<seq<Numeric>>
    requires ValidModel(model)
  {
    if references == [] then Success([])
    else
      match NextVariable(model, references[0], element)
      case Failure(code) => Failure(code)
      case Success(variable) =>
        if references[0] !in cache then Failure(VALUE_UNAVAILABLE)
        else
          var size := FlatSize(model, cache, variable);
          if size == 0 || size > room then Failure(INVALID_ARGUMENT)
          else
            match Fetched(variable, cache[references[0]], size, element)
            case None => Failure(TYPE_MISMATCH)
            case Some(numbers) =>
              match GetFrom(model, cache, references[1..], room - size, element)
              case Failure(code) => Failure(code)
              case Success(more) => Success(numbers + more)
  }

  function GetValues(
      model: ModelDescription, cache: Cache, references: seq<int>, width: nat, element: Element): Result<seq<Numeric>>
    requires ValidModel(model)
  {
    if ExpectedCount(model, cache, references) != width then Failure(INVALID_ARGUMENT)
    else GetFrom(model, cache, references, width, element)
  }

  // ---------------------------------------------------------------------------------------------
  // Properties

  /** A set call writes variables from the front of its list, in order; all of them exactly when it succeeds. */
  lemma {:induction false} SetWritesPrefix(
      model: ModelDescription, cache: Cache, references: seq<int>, values: seq<Numeric>, element: Element)
    requires ValidModel(model) && AllConform(element, values)
    ensures var outcome := SetFrom(model, cache, references, values, element);
            && |outcome.writes| <= |references|
            && (forall i | 0 <= i < |outcome.writes| :: outcome.writes[i].variable.valueReference == references[i])
            && (outcome.status.Success? <==> |outcome.writes| == |references|)
    decreases |references|
  {
    hide FlatSize, Stored, Accepts;
    if references != [] && NextVariable(model, references[0], element).Success? {
      var variable := NextVariable(model, references[0], element).value;
      var size := FlatSize(model, cache, variable);
      if 0 < size <= |values| && Stored(variable, values[..size], element).Some? {
        var write := Write(variable, Stored(variable, values[..size], element).value);
        SetWritesPrefix(model, Apply(cache, write), references[1..], values[size..], element);
      }
    }
  }

  /** No extent of a listed variable is itself in the list. */
  ghost predicate ExtentsUntouched(model: ModelDescription, references: seq<int>, written: set<int>)
    requires ValidModel(model)
  {
    forall i | 0 <= i < |references| ::
      var variable := FindByValueReference(model, references[i]);
      variable.Some? ==> DimensionsAvoid(variable.value.dimensions, written)
  }

  predicate DimensionsAvoid(dimensions: seq<DimensionInfo>, written: set<int>) {
    forall d | 0 <= d < |dimensions| ::
      dimensions[d].start.Some? || dimensions[d].valueReference.None? || dimensions[d].valueReference.value !in written
  }

  ghost predicate AgreeOutside(x: Cache, y: Cache, written: set<int>) {
    forall v | v !in written :: Cached(x, v) == Cached(y, v)
  }

  function Cached(cache: Cache, v: int): Option<ScalarValue> {
    if v in cache then Some(cache[v]) else None
  }

  lemma ExtentUnchanged(model: ModelDescription, x: Cache, y: Cache, dimension: DimensionInfo, written: set<int>)
    requires ValidModel(model) && AgreeOutside(x, y, written) && DimensionsAvoid([dimension], written)
    ensures Extent(model, x, dimension) == Extent(model, y, dimension)
  {
    hide ToInt32, FindByName, FindByValueReference;
    var reference := dimension.valueReference;
    if dimension.start.None? && reference.Some? {
      assert [dimension][0] == dimension;
      assert reference.value !in written;
      assert Cached(x, reference.value) == Cached(y, reference.value);
    }
  }

  lemma {:induction false} SizeUnchanged(
      model: ModelDescription, x: Cache, y: Cache, dimensions: seq<DimensionInfo>, written: set<int>)
    requires ValidModel(model) && AgreeOutside(x, y, written) && DimensionsAvoid(dimensions, written)
    ensures Size(model, x, dimensions) == Size(model, y, dimensions)
  {
    if dimensions != [] {
      ExtentUnchanged(model, x, y, dimensions[0], written);
      hide Extent;
      SizeUnchanged(model, x, y, dimensions[1..], written);
    }
  }

  predicate SameSize(model: ModelDescription, x: Cache, y: Cache, variable: VariableInfo)
    requires ValidModel(model)
  {
    FlatSize(model, x, variable) == FlatSize(model, y, variable)
  }

  ghost predicate SameSizes(model: ModelDescription, x: Cache, y: Cache, references: seq<int>)
    requires ValidModel(model)
  {
    forall i | 0 <= i < |references| && FindByValueReference(model, references[i]).Some? ::
      SameSize(model, x, y, FindByValueReference(model, references[i]).value)
  }

  lemma SizesUnchanged(model: ModelDescription, x: Cache, y: Cache, references: seq<int>, written: set<int>)
    requires ValidModel(model) && AgreeOutside(x, y, written) && ExtentsUntouched(model, references, written)
    ensures SameSizes(model, x, y, references)
  {
    hide Size, AgreeOutside, DimensionsAvoid, FindByValueReference;
    forall i | 0 <= i < |references| && FindByValueReference(model, references[i]).Some?
      ensures SameSize(model, x, y, FindByValueReference(model, references[i]).value)
    {
      SizeUnchanged(model, x, y, FindByValueReference(model, references[i]).value.dimensions, written);
    }
  }

  lemma CountUnchanged(model: ModelDescription, x: Cache, y: Cache, references: seq<int>)
    requires ValidModel(model) && SameSizes(model, x, y, references)
    ensures ExpectedCount(model, x, references) == ExpectedCount(model, y, references)
  {
    hide FlatSize, FindByValueReference;
    TotalUnchanged(model, x, y, references);
  }

  lemma {:induction false} TotalUnchanged(model: ModelDescription, x: Cache, y: Cache, references: seq<int>)
    requires ValidModel(model) && SameSizes(model, x, y, references)
    ensures TotalSize(model, x, references) == TotalSize(model, y, references)
  {
    hide FlatSize, FindByValueReference;
    if references != [] {
      var first := FindByValueReference(model, references[0]);
      assert first.Some? ==> SameSize(model, x, y, first.value);
      TotalUnchanged(model, x, y, references[1..]);
    }
  }

  lemma {:induction false} ApplyAllAgrees(cache: Cache, writes: seq<Write>, written: set<int>)
    requires forall i | 0 <= i < |writes| :: writes[i].variable.valueReference in written
    ensures AgreeOutside(cache, ApplyAll(cache, writes), written)
    decreases |writes|
  {
    if writes != [] {
      ApplyAllAgrees(Apply(cache, writes[0]), writes[1..], written);
    }
  }

  lemma {:induction false} ApplyAllKeeps(cache: Cache, writes: seq<Write>, v: int)
    requires forall i | 0 <= i < |writes| :: writes[i].variable.valueReference != v
    ensures Cached(ApplyAll(cache, writes), v) == Cached(cache, v)
    decreases |writes|
  {
    if writes != [] {
      ApplyAllKeeps(Apply(cache, writes[0]), writes[1..], v);
    }
  }

  ghost predicate NoRepeats(references: seq<int>) {
    forall i, j | 0 <= i < j < |references| :: references[i] != references[j]
  }

  function ReferenceSet(references: seq<int>): set<int> {
    set v | v in references
  }

  /** The first write of a successful call, and the rest of it. */
  lemma SetStep(model: ModelDescription, cache: Cache, references: seq<int>, values: seq<Numeric>, element: Element)
    requires ValidModel(model) && AllConform(element, values) && references != []
    requires SetFrom(model, cache, references, values, element).status.Success?
    ensures var next := NextVariable(model, references[0], element);
            && next.Success? && FindByValueReference(model, references[0]) == Some(next.value)
            && next.value.valueReference == references[0]
            && TotalSize(model, cache, references)
               == FlatSize(model, cache, next.value) + TotalSize(model, cache, references[1..])
            && var size := FlatSize(model, cache, next.value);
            && 0 < size <= |values|
            && var stored := Stored(next.value, values[..size], element);
            && stored.Some?
            && var write := Write(next.value, stored.value);
            && var outcome := SetFrom(model, cache, references, values, element);
            && var later := SetFrom(model, Apply(cache, write), references[1..], values[size..], element);
            && outcome == SetOutcome([write] + later.writes, later.status)
  {
    hide FlatSize, Stored, Accepts;
  }

  /** What a getter does with a first variable whose value can be fetched. */
  lemma GetStep(
      model: ModelDescription, cache: Cache, references: seq<int>, room: nat, element: Element,
      variable: VariableInfo, value: ScalarValue, numbers: seq<Numeric>, more: seq<Numeric>)
    requires ValidModel(model) && references != []
    requires NextVariable(model, references[0], element) == Success(variable)
    requires Cached(cache, references[0]) == Some(value)
    requires FlatSize(model, cache, variable) == |numbers| && 0 < |numbers| <= room
    requires Fetched(variable, value, |numbers|, element) == Some(numbers)
    requires GetFrom(model, cache, references[1..], room - |numbers|, element) == Success(more)
    ensures GetFrom(model, cache, references, room, element) == Success(numbers + more)
  {
    hide FlatSize, Fetched, NextVariable;
  }

  /** The loop of a getter reads back what the loop of a setter wrote. */
  lemma {:induction false} GetReadsSet(
      model: ModelDescription, cache: Cache, references: seq<int>, values: seq<Numeric>, element: Element,
      written: set<int>)
    requires ValidModel(model) && AllConform(element, values) && NoRepeats(references)
    requires ReferenceSet(references) <= written && ExtentsUntouched(model, references, written)
    requires SetFrom(model, cache, references, values, element).status.Success?
    requires |values| == TotalSize(model, cache, references)
    ensures var writes := SetFrom(model, cache, references, values, element).writes;
            GetFrom(model, ApplyAll(cache, writes), references, |values|, element) == Success(values)
    decreases |references|
  {
    hide Accepts, Stored, Fetched, Size, FlatSize, DimensionsAvoid, AgreeOutside, Cached, SameSizes, NextVariable,
         SetFrom, GetFrom;
    var writes := SetFrom(model, cache, references, values, element).writes;
    if references == [] {
      NothingToDo(model, cache, values, element);
    } else {
      SetStep(model, cache, references, values, element);
      var variable := NextVariable(model, references[0], element).value;
      var size := FlatSize(model, cache, variable);
      var now, rest, more := values[..size], values[size..], references[1..];
      var write := Write(variable, Stored(variable, now, element).value);
      var next := Apply(cache, write);
      var later := SetFrom(model, next, more, rest, element).writes;
      var final := ApplyAll(cache, writes);
      assert writes == [write] + later && final == ApplyAll(next, later);
      assert ReferenceSet(more) <= written && references[0] in written && NoRepeats(more);
      LaterSizes(model, cache, write, references, written);
      GetReadsSet(model, next, more, rest, element, written);
      assert Cached(final, references[0]) == Some(write.value) by {
        FirstValueStays(model, cache, write, more, rest, element);
      }
      assert FlatSize(model, final, variable) == size by {
        SizesStay(model, cache, references, values, element, written);
        FirstSize(model, cache, final, references, variable);
      }
      assert Fetched(variable, write.value, size, element) == Some(now) by {
        StoredThenFetched(variable, now, element);
      }
      GetStep(model, final, references, |values|, element, variable, write.value, now, rest);
      assert values == now + rest;
    }
  }

  lemma FirstSize(model: ModelDescription, x: Cache, y: Cache, references: seq<int>, variable: VariableInfo)
    requires ValidModel(model) && references != [] && SameSizes(model, x, y, references)
    requires FindByValueReference(model, references[0]) == Some(variable)
    ensures FlatSize(model, x, variable) == FlatSize(model, y, variable)
  {
    hide FlatSize, FindByValueReference;
    assert SameSize(model, x, y, FindByValueReference(model, references[0]).value);
  }

  lemma NothingToDo(model: ModelDescription, cache: Cache, values: seq<Numeric>, element: Element)
    requires ValidModel(model) && AllConform(element, values) && |values| == 0
    ensures SetFrom(model, cache, [], values, element) == SetOutcome([], Success(()))
    ensures GetFrom(model, cache, [], 0, element) == Success(values)
  {
  }

  /** What remains of the list, after a first write that is no extent of it. */
  lemma LaterSizes(model: ModelDescription, cache: Cache, write: Write, references: seq<int>, written: set<int>)
    requires ValidModel(model) && references != [] && write.variable.valueReference in written
    requires ExtentsUntouched(model, references, written)
    ensures ExtentsUntouched(model, references[1..], written)
    ensures TotalSize(model, Apply(cache, write), references[1..]) == TotalSize(model, cache, references[1..])
  {
    hide Size, DimensionsAvoid, FindByValueReference, SameSizes, FlatSize;
    var more := references[1..];
    assert forall i | 0 <= i < |more| :: more[i] == references[i + 1];
    SizesUnchanged(model, cache, Apply(cache, write), more, written);
    TotalUnchanged(model, cache, Apply(cache, write), more);
  }

  lemma FirstValueStays(
      model: ModelDescription, cache: Cache, write: Write, more: seq<int>, rest: seq<Numeric>, element: Element)
    requires ValidModel(model) && AllConform(element, rest)
    requires forall i | 0 <= i < |more| :: more[i] != write.variable.valueReference
    ensures var next := Apply(cache, write);
            Cached(ApplyAll(next, SetFrom(model, next, more, rest, element).writes), write.variable.valueReference)
              == Some(write.value)
  {
    hide SetFrom;
    var next := Apply(cache, write);
    SetWritesPrefix(model, next, more, rest, element);
    ApplyAllKeeps(next, SetFrom(model, next, more, rest, element).writes, write.variable.valueReference);
  }

  lemma SizesStay(
      model: ModelDescription, cache: Cache, references: seq<int>, values: seq<Numeric>, element: Element,
      written: set<int>)
    requires ValidModel(model) && AllConform(element, values)
    requires ReferenceSet(references) <= written && ExtentsUntouched(model, references, written)
    ensures var writes := SetFrom(model, cache, references, values, element).writes;
            SameSizes(model, cache, ApplyAll(cache, writes), references)
  {
    hide SetFrom, SameSizes, ExtentsUntouched;
    var writes := SetFrom(model, cache, references, values, element).writes;
    SetWritesPrefix(model, cache, references, values, element);
    forall i | 0 <= i < |writes| ensures writes[i].variable.valueReference in written {
      assert writes[i].variable.valueReference == references[i];
      assert references[i] in ReferenceSet(references);
    }
    ApplyAllAgrees(cache, writes, written);
    SizesUnchanged(model, cache, ApplyAll(cache, writes), references, written);
  }

  /**
   A successful set call and then a get call of the same width on the same list hand back the same
   buffer: for a list without repeats in which no variable is an extent of another.
   */
  lemma SetThenGet(model: ModelDescription, cache: Cache, references: seq<int>, values: seq<Numeric>, element: Element)
    requires ValidModel(model) && AllConform(element, values) && NoRepeats(references)
    requires ExtentsUntouched(model, references, ReferenceSet(references))
    requires SetValues(model, cache, references, values, element).status.Success?
    ensures var after := ApplyAll(cache, SetValues(model, cache, references, values, element).writes);
            GetValues(model, after, references, |values|, element) == Success(values)
  {
    hide SetFrom, GetFrom, SameSizes, ExtentsUntouched, ExpectedCount;
    var after := ApplyAll(cache, SetValues(model, cache, references, values, element).writes);
    SizesStay(model, cache, references, values, element, ReferenceSet(references));
    CountUnchanged(model, cache, after, references);
    TotalIsExpected(model, cache, references, values, element);
    GetReadsSet(model, cache, references, values, element, ReferenceSet(references));
  }

  /** A call that the count check lets through has that total; a count of zero means an empty list. */
  lemma TotalIsExpected(
      model: ModelDescription, cache: Cache, references: seq<int>, values: seq<Numeric>, element: Element)
    requires ValidModel(model) && AllConform(element, values)
    requires ExpectedCount(model, cache, references) == |values|
    requires SetFrom(model, cache, references, values, element).status.Success?
    ensures TotalSize(model, cache, references) == |values|
  {
    hide FlatSize, Stored, Accepts, TotalSize;
    if references == [] {
      assert TotalSize(model, cache, references) == 0 by {
        EmptyTotal(model, cache);
      }
    } else if !AllSized(model, cache, references) {
      SetStep(model, cache, references, values, element);
      assert false;
    }
  }

  lemma EmptyTotal(model: ModelDescription, cache: Cache)
    requires ValidModel(model)
    ensures TotalSize(model, cache, []) == 0
  {
  }
}
