/**
 What the flat calls mean, without their loops: a buffer is the elements of its values, one after the
 other, and sizes are products of extents.
 */
module FlatLaws {
  import opened Common
  import opened Values
  import opened FlatValues

  // ---------------------------------------------------------------------------------------------
  // Sizes

  /** The integer nearest to a value; of two that are equally near, the one farther from zero. */
  predicate IsNearest(value: ScalarValue, n: int) {
    match value
    case SignedValue(m) => n == m
    case UnsignedValue(m) => n == m
    case RealValue(r) =>
      && -0.5 <= r - n as real <= 0.5
      && (r >= 0.0 ==> r - n as real < 0.5) && (r <= 0.0 ==> -0.5 < r - n as real)
    case _ => false
  }

  lemma ToInt32Iff(value: ScalarValue, n: int)
    ensures ToInt32(value) == Some(n) <==> IsNearest(value, n) && -TwoTo(31) <= n < TwoTo(31)
  {
    hide TwoTo;
    PowersOfTwo();
  }

  /**
   An extent is the fixed one, if there is one; else what the cache has for its variable, as soon as it
   has something; else the start value of that variable, or, failing that, of the variable it names.
   */
  lemma ExtentSources(model: ModelDescription, cache: Cache, dimension: DimensionInfo)
    requires ValidModel(model)
    ensures var DimensionInfo(reference, start, name) := dimension;
            var byReference := if reference.None? then None else StartOf(FindByValueReference(model, reference.value));
            var byName := if name == "" then None else StartOf(FindByName(model, name));
            var extent := Extent(model, cache, dimension);
            && (start.Some? ==> extent == start)
            && (start.None? && reference.Some? && reference.value in cache ==>
                  extent == ToInt32(cache[reference.value]))
            && (start.None? && (reference.None? || reference.value !in cache) ==>
                  && (byReference.Some? ==> extent == ToInt32(byReference.value))
                  && (byReference.None? && byName.Some? ==> extent == ToInt32(byName.value))
                  && (byReference.None? && byName.None? ==> extent == None))
  {
  }

  function StartOf(variable: Option<VariableInfo>): Option<ScalarValue> {
    if variable.None? then None else variable.value.startValue
  }

  /** Sizes multiply; an unknown or negative extent makes everything empty. */
  lemma {:induction false} SizesMultiply(
      model: ModelDescription, cache: Cache, outer: seq<DimensionInfo>, inner: seq<DimensionInfo>)
    requires ValidModel(model)
    ensures Size(model, cache, outer + inner) == Size(model, cache, outer) * Size(model, cache, inner)
    ensures Size(model, cache, []) == 1
    ensures |inner| == 1 ==>
              var extent := Extent(model, cache, inner[0]);
              Size(model, cache, inner) == if extent.Some? && extent.value > 0 then extent.value else 0
  {
    hide Extent;
    if outer == [] {
      assert outer + inner == inner;
    } else {
      assert (outer + inner)[1..] == outer[1..] + inner;
      SizesMultiply(model, cache, outer[1..], inner);
    }
  }

  /** Counts add up, and one reference that is unknown or without elements makes them zero. */
  lemma {:induction false} CountsAdd(model: ModelDescription, cache: Cache, x: seq<int>, y: seq<int>)
    requires ValidModel(model) && x != [] && y != []
    ensures var m, n := ExpectedCount(model, cache, x), ExpectedCount(model, cache, y);
            ExpectedCount(model, cache, x + y) == if m == 0 || n == 0 then 0 else m + n
    ensures ExpectedCount(model, cache, []) == 0
    ensures |x| == 1 ==>
              var variable := FindByValueReference(model, x[0]);
              ExpectedCount(model, cache, x) == if variable.Some? then FlatSize(model, cache, variable.value) else 0
  {
    hide FlatSize, FindByValueReference;
    TotalsAdd(model, cache, x, y);
    assert forall i | 0 <= i < |x| :: (x + y)[i] == x[i];
    assert forall i | 0 <= i < |y| :: (x + y)[|x| + i] == y[i];
    TotalIsPositive(model, cache, x);
    TotalIsPositive(model, cache, y);
  }

  lemma {:induction false} TotalsAdd(model: ModelDescription, cache: Cache, x: seq<int>, y: seq<int>)
    requires ValidModel(model)
    ensures TotalSize(model, cache, x + y) == TotalSize(model, cache, x) + TotalSize(model, cache, y)
  {
    hide FlatSize, FindByValueReference;
    if x == [] {
      assert x + y == y;
    } else {
      assert (x + y)[1..] == x[1..] + y;
      TotalsAdd(model, cache, x[1..], y);
    }
  }

  lemma TotalIsPositive(model: ModelDescription, cache: Cache, references: seq<int>)
    requires ValidModel(model) && references != []
    ensures AllSized(model, cache, references) ==> TotalSize(model, cache, references) > 0
  {
    hide FlatSize, FindByValueReference;
  }

  ghost predicate FirstNamed(variables: seq<VariableInfo>, name: string, position: nat) {
    && position < |variables| && variables[position].name == name
    && forall i | 0 <= i < position :: variables[i].name != name
  }

  /** Of variables with one name, the first is found by it. */
  lemma {:induction false} NameFindsFirst(variables: seq<VariableInfo>, name: string)
    ensures var index := ModelOf(variables).byName;
            && (name in index ==> FirstNamed(variables, name, index[name]))
            && (name !in index ==> forall i | 0 <= i < |variables| :: variables[i].name != name)
  {
    if variables != [] {
      var last := |variables| - 1;
      var fewer := variables[..last];
      NameFindsFirst(fewer, name);
      ModelIsValid(fewer);
      assert forall i | 0 <= i < last :: variables[i] == fewer[i];
    }
  }

  // ---------------------------------------------------------------------------------------------
  // Elements

  /** The numbers in a value, in order. */
  function Elements(value: ScalarValue): seq<Numeric> {
    match value
    case RealValue(r) => [RealNumber(r)]
    case SignedValue(n) => [IntegerNumber(n)]
    case UnsignedValue(n) => [IntegerNumber(n)]
    case RealArray(items) => MapEach(items, (r: real) => RealNumber(r))
    case SignedArray(items) => MapEach(items, (n: int64) => IntegerNumber(n))
    case UnsignedArray(items) => MapEach(items, (n: uint64) => IntegerNumber(n))
    case _ => []
  }

  function ElementsOf(writes: seq<Write>): seq<Numeric> {
    if writes == [] then [] else Elements(writes[0].value) + ElementsOf(writes[1..])
  }

  function ElementsAt(cache: Cache, references: seq<int>): seq<Numeric> {
    if references == [] then []
    else (if references[0] in cache then Elements(cache[references[0]]) else []) + ElementsAt(cache, references[1..])
  }

  /** The numbers can be stored for the variable. */
  predicate Storable(variable: VariableInfo, numbers: seq<Numeric>, element: Element) {
    element.IntegerElement? ==>
      forall i | 0 <= i < |numbers| :: numbers[i].IntegerNumber? && InDeclaredRange(variable.declaredType, numbers[i].n)
  }

  lemma {:induction false} NormalizedIff(variable: VariableInfo, numbers: seq<Numeric>, width: IntegerWidth)
    requires AllConform(IntegerElement(width), numbers)
    ensures NormalizedAll(variable, numbers, width).Some? <==> Storable(variable, numbers, IntegerElement(width))
    ensures NormalizedAll(variable, numbers, width).Some? ==>
              var all := NormalizedAll(variable, numbers, width).value;
              && (IsUnsigned(variable.declaredType) ==> Elements(UnsignedArray(UnsignedsOf(all))) == numbers)
              && (!IsUnsigned(variable.declaredType) ==> Elements(SignedArray(SignedsOf(all))) == numbers)
  {
    hide TryNormalizeInteger, InDeclaredRange, IsUnsigned;
    if numbers != [] {
      var tail := numbers[1..];
      assert Conforms(IntegerElement(width), numbers[0]);
      NormalizeIff(variable, numbers[0].n, width);
      NormalizedIff(variable, tail, width);
      assert numbers == [numbers[0]] + tail;
      assert Storable(variable, numbers, IntegerElement(width)) <==>
          InDeclaredRange(variable.declaredType, numbers[0].n) && Storable(variable, tail, IntegerElement(width));
    }
  }

  /** What is stored holds exactly the numbers, and they are stored exactly if they are in range. */
  lemma StoredElements(variable: VariableInfo, numbers: seq<Numeric>, element: Element)
    requires numbers != [] && AllConform(element, numbers)
    ensures Stored(variable, numbers, element).Some? <==> Storable(variable, numbers, element)
    ensures Stored(variable, numbers, element).Some? ==>
              Elements(Stored(variable, numbers, element).value) == numbers
  {
    hide TryNormalizeInteger, BoundsForDeclaredType, NormalizedAll, InDeclaredRange, IsUnsigned, UnsignedsOf, SignedsOf;
    assert Conforms(element, numbers[0]);
    match element
    case RealElement =>
      assert |numbers| == 1 ==> [RealNumber(numbers[0].r)] == numbers;
    case IntegerElement(width) =>
      BoundsIff(variable.declaredType, 0);
      NormalizeIff(variable, numbers[0].n, width);
      NormalizedIff(variable, numbers, width);
      assert |numbers| == 1 ==> [IntegerNumber(numbers[0].n)] == numbers;
  }

  predicate IsScalar(value: ScalarValue) {
    value.RealValue? || value.SignedValue? || value.UnsignedValue?
  }

  predicate StoredUnsigned(value: ScalarValue) {
    value.UnsignedValue? || value.UnsignedArray?
  }

  /** The value can be handed out as these numbers. */
  predicate HandsOut(variable: VariableInfo, value: ScalarValue, element: Element, numbers: seq<Numeric>) {
    && Elements(value) == numbers && AllConform(element, numbers)
    && (IsScalar(value) <==> |numbers| == 1)
    && (element.IntegerElement? && StoredUnsigned(value) ==> IsUnsigned(variable.declaredType))
    && Storable(variable, numbers, element)
  }

  lemma {:induction false} CastAllIff(
      variable: VariableInfo, values: seq<ScalarValue>, width: IntegerWidth, numbers: seq<Numeric>)
    ensures CastAll(variable, values, width) == Some(numbers) <==>
            && |values| == |numbers|
            && forall i | 0 <= i < |values| :: CastsTo(variable, values[i], width, numbers[i])
  {
    hide TryCastStoredInteger;
    if values != [] && numbers != [] {
      CastAllIff(variable, values[1..], width, numbers[1..]);
      assert numbers == [numbers[0]] + numbers[1..];
      if CastAll(variable, values, width) == Some(numbers) {
        forall i | 0 <= i < |values| ensures CastsTo(variable, values[i], width, numbers[i]) {
          assert i > 0 ==> values[i] == values[1..][i - 1] && numbers[i] == numbers[1..][i - 1];
        }
      }
    }
  }

  predicate CastsTo(variable: VariableInfo, value: ScalarValue, width: IntegerWidth, number: Numeric) {
    number.IntegerNumber? && TryCastStoredInteger(variable, value, width) == Some(number.n)
  }

  lemma CastsToIff(variable: VariableInfo, value: ScalarValue, width: IntegerWidth, number: Numeric)
    ensures CastsTo(variable, value, width, number) <==>
            && number.IntegerNumber? && IntegerOf(value) == Some(number.n) && Holds(width, number.n)
            && InDeclaredRange(variable.declaredType, number.n)
            && (value.UnsignedValue? ==> IsUnsigned(variable.declaredType))
  {
    hide TryCastStoredInteger, InDeclaredRange, Holds, IsUnsigned;
    CastIff(variable, value, width);
  }

  lemma OneFetched(variable: VariableInfo, value: ScalarValue, width: IntegerWidth, numbers: seq<Numeric>)
    ensures Fetched(variable, value, 1, IntegerElement(width)) == Some(numbers) <==>
            |numbers| == 1 && HandsOut(variable, value, IntegerElement(width), numbers)
  {
    hide TryCastStoredInteger, InDeclaredRange, Holds, IsUnsigned, CastsTo;
    var n := TryCastStoredInteger(variable, value, width);
    if |numbers| == 1 {
      var number := numbers[0];
      CastsToIff(variable, value, width, number);
      assert numbers == [number];
      if HandsOut(variable, value, IntegerElement(width), numbers) {
        assert Conforms(IntegerElement(width), number);
        assert IntegerOf(value) == Some(number.n);
        assert CastsTo(variable, value, width, number);
        CastIff(variable, value, width);
      }
      if n.Some? && numbers == [IntegerNumber(n.value)] {
        CastIff(variable, value, width);
        assert IsScalar(value);
      }
    }
  }

  /** A getter hands out the elements of a value, and exactly if they are of the right number and kind. */
  lemma FetchedElements(
      variable: VariableInfo, value: ScalarValue, size: nat, element: Element, numbers: seq<Numeric>)
    requires size > 0
    ensures Fetched(variable, value, size, element) == Some(numbers) <==>
            |numbers| == size && HandsOut(variable, value, element, numbers)
  {
    hide TryCastStoredInteger, InDeclaredRange, Holds, IsUnsigned, CastAll, CastsTo;
    match element
    case RealElement =>
      assert AllConform(element, numbers) && |numbers| > 0 ==> Conforms(element, numbers[0]);
    case IntegerElement(width) =>
      if size == 1 {
        OneFetched(variable, value, width, numbers);
      } else if ItemsOf(value).Some? {
        var items := ItemsOf(value).value;
        CastAllIff(variable, items, width, numbers);
        forall i | 0 <= i < |items| && |items| == |numbers| {
          CastsToIff(variable, items[i], width, numbers[i]);
        }
      }
  }

  // ---------------------------------------------------------------------------------------------
  // Whole calls

  /** The variable is of a kind that the call is for. */
  predicate Suits(element: Element, kind: ScalarType) {
    if element.RealElement? then kind == RealType else kind == IntegerType || kind == EnumerationType
  }

  /** One write of a set call: to the listed variable, of as many elements as it then has. */
  ghost predicate WritesNext(model: ModelDescription, cache: Cache, reference: int, element: Element, write: Write)
    requires ValidModel(model)
  {
    && FindByValueReference(model, reference) == Some(write.variable) && write.variable.valueReference == reference
    && Suits(element, write.variable.kind) && ValueFits(write.value, write.variable)
    && 0 < |Elements(write.value)| == FlatSize(model, cache, write.variable)
  }

  /** Why a set call goes no further than this variable. */
  ghost predicate Stops(
      model: ModelDescription, cache: Cache, reference: int, left: seq<Numeric>, element: Element, code: string)
    requires ValidModel(model)
  {
    match FindByValueReference(model, reference)
    case None => code == "UNKNOWN_VALUE_REFERENCE"
    case Some(variable) =>
      var size := FlatSize(model, cache, variable);
      if !Suits(element, variable.kind) then code == "TYPE_MISMATCH"
      else if size == 0 || size > |left| then code == "INVALID_ARGUMENT"
      else code == "TYPE_MISMATCH" && !Storable(variable, left[..size], element)
  }

  /**
   A set call: one write after the other, each seeing the sizes that the earlier ones left, their elements
   the front of the buffer; up to the end of the list, or to the first variable that it stops at.
   */
  ghost predicate IsSetCall(
      model: ModelDescription, cache: Cache, references: seq<int>, values: seq<Numeric>, element: Element,
      writes: seq<Write>, status: Result<()>)
    requires ValidModel(model)
  {
    && |writes| <= |references|
    && (forall i | 0 <= i < |writes| ::
          WritesNext(model, ApplyAll(cache, writes[..i]), references[i], element, writes[i]))
    && ElementsOf(writes) <= values
    && match status
       case Success(_) => |writes| == |references|
       case Failure(code) =>
         && |writes| < |references|
         && Stops(model, ApplyAll(cache, writes), references[|writes|], values[|ElementsOf(writes)|..], element, code)
  }

  lemma {:induction false} SetCallIs(
      model: ModelDescription, cache: Cache, references: seq<int>, values: seq<Numeric>, element: Element)
    requires ValidModel(model) && AllConform(element, values)
    ensures var outcome := SetFrom(model, cache, references, values, element);
            IsSetCall(model, cache, references, values, element, outcome.writes, outcome.status)
    decreases |references|
  {
    hide FlatSize, Stored, Storable, ValueFits, FindByValueReference;
    var outcome := SetFrom(model, cache, references, values, element);
    if references != [] && outcome.writes != [] {
      var variable := NextVariable(model, references[0], element).value;
      var size := FlatSize(model, cache, variable);
      var write := outcome.writes[0];
      var next, rest := Apply(cache, write), values[size..];
      var later := SetFrom(model, next, references[1..], rest, element);
      FirstWrite(model, cache, references[0], values[..size], element);
      SetCallIs(model, next, references[1..], rest, element);
      assert outcome == SetOutcome([write] + later.writes, later.status);
      hide SetFrom, NextVariable;
      SetCallGrows(model, cache, references, values, element, write, later.writes, later.status);
    } else if references != [] {
      FirstStops(model, cache, references, values, element);
    }
  }

  /** A whole set call: the number of values is checked first, and nothing is written if it is wrong. */
  ghost predicate IsChecked(
      model: ModelDescription, cache: Cache, references: seq<int>, values: seq<Numeric>, element: Element,
      writes: seq<Write>, status: Result<()>)
    requires ValidModel(model)
  {
    if ExpectedCount(model, cache, references) == |values| then
      IsSetCall(model, cache, references, values, element, writes, status)
    else writes == [] && status == Failure("INVALID_ARGUMENT")
  }

  lemma SetValuesIs(
      model: ModelDescription, cache: Cache, references: seq<int>, values: seq<Numeric>, element: Element)
    requires ValidModel(model) && AllConform(element, values)
    ensures var outcome := SetValues(model, cache, references, values, element);
            IsChecked(model, cache, references, values, element, outcome.writes, outcome.status)
  {
    hide IsSetCall, SetFrom, ExpectedCount;
    SetCallIs(model, cache, references, values, element);
  }

  lemma FirstWrite(model: ModelDescription, cache: Cache, reference: int, numbers: seq<Numeric>, element: Element)
    requires ValidModel(model) && AllConform(element, numbers) && numbers != []
    requires NextVariable(model, reference, element).Success?
    requires |numbers| == FlatSize(model, cache, NextVariable(model, reference, element).value)
    requires Stored(NextVariable(model, reference, element).value, numbers, element).Some?
    ensures var variable := NextVariable(model, reference, element).value;
            var value := Stored(variable, numbers, element).value;
            WritesNext(model, cache, reference, element, Write(variable, value)) && Elements(value) == numbers
  {
    hide FlatSize, Stored, Storable, ValueFits, Elements;
    var variable := NextVariable(model, reference, element).value;
    StoredElements(variable, numbers, element);
    StoredFits(variable, numbers, element);
  }

  lemma FirstStops(
      model: ModelDescription, cache: Cache, references: seq<int>, values: seq<Numeric>, element: Element)
    requires ValidModel(model) && AllConform(element, values) && references != []
    requires SetFrom(model, cache, references, values, element).writes == []
    ensures var outcome := SetFrom(model, cache, references, values, element);
            IsSetCall(model, cache, references, values, element, [], outcome.status)
  {
    hide FlatSize, Stored, Storable, FindByValueReference;
    assert values[0..] == values;
    var variable := NextVariable(model, references[0], element);
    if variable.Success? {
      var size := FlatSize(model, cache, variable.value);
      if 0 < size <= |values| {
        StoredElements(variable.value, values[..size], element);
      }
    }
  }

  /** A write before a set call on the rest. */
  lemma SetCallGrows(
      model: ModelDescription, cache: Cache, references: seq<int>, values: seq<Numeric>, element: Element,
      write: Write, later: seq<Write>, status: Result<()>)
    requires ValidModel(model) && references != [] && WritesNext(model, cache, references[0], element, write)
    requires Elements(write.value) <= values
    requires IsSetCall(model, Apply(cache, write), references[1..], values[|Elements(write.value)|..], element, later,
                       status)
    ensures IsSetCall(model, cache, references, values, element, [write] + later, status)
  {
    hide WritesNext, Stops, Elements;
    var writes, next, n := [write] + later, Apply(cache, write), |Elements(write.value)|;
    assert writes[1..] == later;
    assert ElementsOf(writes) == Elements(write.value) + ElementsOf(later);
    forall i | 0 <= i < |writes|
      ensures WritesNext(model, ApplyAll(cache, writes[..i]), references[i], element, writes[i])
    {
      if i > 0 {
        assert WritesNext(model, ApplyAll(next, later[..i - 1]), references[1..][i - 1], element, later[i - 1]);
        assert writes[..i] == [write] + later[..i - 1];
      }
    }
    assert values == Elements(write.value) + values[n..];
    assert values[n..][|ElementsOf(later)|..] == values[|ElementsOf(writes)|..];
  }

  /** One variable of a get call: what the cache has for it is handed out, as many elements as it should have. */
  ghost predicate Reads(model: ModelDescription, cache: Cache, reference: int, element: Element)
    requires ValidModel(model)
  {
    var variable := FindByValueReference(model, reference);
    && variable.Some? && Suits(element, variable.value.kind) && reference in cache
    && 0 < |Elements(cache[reference])| == FlatSize(model, cache, variable.value)
    && HandsOut(variable.value, cache[reference], element, Elements(cache[reference]))
  }

  /** Why a get call with so many places left goes no further than this variable. */
  ghost predicate GetStops(
      model: ModelDescription, cache: Cache, reference: int, room: int, element: Element, code: string)
    requires ValidModel(model)
  {
    match FindByValueReference(model, reference)
    case None => code == "UNKNOWN_VALUE_REFERENCE"
    case Some(variable) =>
      var size := FlatSize(model, cache, variable);
      if !Suits(element, variable.kind) then code == "TYPE_MISMATCH"
      else if reference !in cache then code == "VALUE_UNAVAILABLE"
      else if size == 0 || size > room then code == "INVALID_ARGUMENT"
      else code == "TYPE_MISMATCH" && !Reads(model, cache, reference, element)
  }

  /** A get call: the elements of all listed variables, one after the other, or the first reason not to. */
  ghost predicate IsGetCall(
      model: ModelDescription, cache: Cache, references: seq<int>, room: int, element: Element,
      result: Result<seq<Numeric>>)
    requires ValidModel(model)
  {
    match result
    case Success(numbers) =>
      && numbers == ElementsAt(cache, references) && |numbers| <= room
      && forall i | 0 <= i < |references| :: Reads(model, cache, references[i], element)
    case Failure(code) => exists k: nat :: GetStopsAt(model, cache, references, room, element, code, k)
  }

  ghost predicate GetStopsAt(
      model: ModelDescription, cache: Cache, references: seq<int>, room: int, element: Element, code: string, k: nat)
    requires ValidModel(model)
  {
    && k < |references| && (forall i | 0 <= i < k :: Reads(model, cache, references[i], element))
    && GetStops(model, cache, references[k], room - |ElementsAt(cache, references[..k])|, element, code)
  }

  lemma {:induction false} GetCallIs(
      model: ModelDescription, cache: Cache, references: seq<int>, room: nat, element: Element)
    requires ValidModel(model)
    ensures IsGetCall(model, cache, references, room, element, GetFrom(model, cache, references, room, element))
    decreases |references|
  {
    hide FlatSize, Fetched, FindByValueReference, HandsOut, Elements;
    if references != [] {
      FirstGet(model, cache, references, room, element);
      if Reads(model, cache, references[0], element) && |Elements(cache[references[0]])| <= room {
        var size := |Elements(cache[references[0]])|;
        GetCallIs(model, cache, references[1..], room - size, element);
        hide GetFrom, Reads, GetStops;
        var later := GetFrom(model, cache, references[1..], room - size, element);
        if later.Failure? {
          var k: nat :| GetStopsAt(model, cache, references[1..], room - size, element, later.code, k);
          assert references[..k + 1][1..] == references[1..][..k];
          assert GetStopsAt(model, cache, references, room, element, later.code, k + 1);
        }
      } else {
        assert references[..0] == [];
        assert GetStopsAt(model, cache, references, room, element,
                          GetFrom(model, cache, references, room, element).code, 0);
      }
    }
  }

  lemma FirstGet(model: ModelDescription, cache: Cache, references: seq<int>, room: nat, element: Element)
    requires ValidModel(model) && references != []
    ensures var result := GetFrom(model, cache, references, room, element);
            if Reads(model, cache, references[0], element) && |Elements(cache[references[0]])| <= room then
              var numbers := Elements(cache[references[0]]);
              var later := GetFrom(model, cache, references[1..], room - |numbers|, element);
              result == if later.Success? then Success(numbers + later.value) else later
            else result.Failure? && GetStops(model, cache, references[0], room, element, result.code)
  {
    hide FlatSize, Fetched, FindByValueReference, HandsOut, Elements;
    var variable := FindByValueReference(model, references[0]);
    if variable.Some? && references[0] in cache {
      var value, size := cache[references[0]], FlatSize(model, cache, variable.value);
      if size > 0 {
        FetchedElements(variable.value, value, size, element, Elements(value));
        if Fetched(variable.value, value, size, element).Some? {
          FetchedElements(variable.value, value, size, element, Fetched(variable.value, value, size, element).value);
          HandedOut(variable.value, value, element, Fetched(variable.value, value, size, element).value);
        }
      }
    }
  }

  lemma HandedOut(variable: VariableInfo, value: ScalarValue, element: Element, numbers: seq<Numeric>)
    ensures HandsOut(variable, value, element, numbers) ==> numbers == Elements(value)
  {
  }

  // ---------------------------------------------------------------------------------------------
  // What writes leave behind

  /** The key does not occur from the place on. */
  ghost predicate Absent<K(!new)>(keys: seq<K>, from: nat, key: K) {
    forall i | from <= i < |keys| :: keys[i] != key
  }

  /** Each key has the last value assigned to it; keys that nothing was assigned to are as before. */
  ghost predicate Assigned<K(!new)>(before: map<K, ScalarValue>, after: map<K, ScalarValue>, keys: seq<K>,
                                    values: seq<ScalarValue>)
    requires |keys| == |values|
  {
    && (forall i | 0 <= i < |keys| && Absent(keys, i + 1, keys[i]) :: keys[i] in after && after[keys[i]] == values[i])
    && (forall k | Absent(keys, 0, k) :: (k in after <==> k in before) && (k in before ==> after[k] == before[k]))
  }

  lemma OneMoreAssigned<K(!new)>(
      before: map<K, ScalarValue>, after: map<K, ScalarValue>, keys: seq<K>, values: seq<ScalarValue>,
      key: K, value: ScalarValue)
    requires |keys| == |values| && Assigned(before, after, keys, values)
    ensures Assigned(before, after[key := value], keys + [key], values + [value])
  {
    var more := keys + [key];
    forall i: nat, k | i <= |keys| ensures Absent(more, i, k) <==> Absent(keys, i, k) && k != key {
      AbsentInMore(keys, i, k, key);
    }
    hide Absent;
    forall i | 0 <= i < |more| && Absent(more, i + 1, more[i])
      ensures more[i] in after[key := value] && after[key := value][more[i]] == (values + [value])[i]
    {
      if i < |keys| {
        assert Absent(keys, i + 1, keys[i]) && keys[i] != key;
      }
    }
  }

  lemma AbsentInMore<K(!new)>(keys: seq<K>, from: nat, k: K, key: K)
    requires from <= |keys|
    ensures Absent(keys + [key], from, k) <==> Absent(keys, from, k) && k != key
  {
    if Absent(keys + [key], from, k) {
      assert (keys + [key])[|keys|] == key;
      forall i | from <= i < |keys| ensures keys[i] != k {
        assert (keys + [key])[i] == keys[i];
      }
    }
  }

  function ReferencesOf(writes: seq<Write>): (references: seq<int>)
    ensures |references| == |writes|
  {
    seq(|writes|, i requires 0 <= i < |writes| => writes[i].variable.valueReference)
  }

  function NamesOf(writes: seq<Write>): (names: seq<string>)
    ensures |names| == |writes|
  {
    seq(|writes|, i requires 0 <= i < |writes| => writes[i].variable.name)
  }

  function ValuesOf(writes: seq<Write>): (values: seq<ScalarValue>)
    ensures |values| == |writes|
  {
    seq(|writes|, i requires 0 <= i < |writes| => writes[i].value)
  }
}
