/** The loops of the proxy runtime over flat sizes and over the caller's buffers. */
module FlatBuffers {
  import opened Common
  import opened Values
  import opened FlatValues
  import opened FlatLaws

  method ResolveVariableFlatSize(model: ModelDescription, cache: Cache, variable: VariableInfo) returns (size: nat)
    requires ValidModel(model)
    ensures size == FlatSize(model, cache, variable)
  {
    hide Extent;
    var dimensions := variable.dimensions;
    size := 1;
    var i := 0;
    assert dimensions[0..] == dimensions;
    while i < |dimensions|
      invariant 0 <= i <= |dimensions|
      invariant size * Size(model, cache, dimensions[i..]) == FlatSize(model, cache, variable)
    {
      var extent := Extent(model, cache, dimensions[i]);
      SizeStep(model, cache, dimensions, i);
      if extent.None? || extent.value < 0 {
        return 0;
      }
      Regroup(size, extent.value, Size(model, cache, dimensions[i + 1..]));
      size := size * extent.value;
      i := i + 1;
    }
  }

  lemma SizeStep(model: ModelDescription, cache: Cache, dimensions: seq<DimensionInfo>, i: nat)
    requires ValidModel(model) && i < |dimensions|
    ensures var extent := Extent(model, cache, dimensions[i]);
            Size(model, cache, dimensions[i..]) ==
            if extent.None? || extent.value < 0 then 0 else extent.value * Size(model, cache, dimensions[i + 1..])
  {
    hide Extent;
    assert dimensions[i..][1..] == dimensions[i + 1..];
  }

  lemma Regroup(x: int, y: int, z: int)
    ensures x * (y * z) == x * y * z
  {
  }

  method ExpectedValueCount(model: ModelDescription, cache: Cache, references: seq<int>) returns (expected: nat)
    requires ValidModel(model)
    ensures expected == ExpectedCount(model, cache, references)
  {
    hide FlatSize, FindByValueReference, TotalSize;
    expected := 0;
    var i := 0;
    assert references[0..] == references;
    while i < |references|
      invariant 0 <= i <= |references|
      invariant AllSized(model, cache, references[..i])
      invariant expected + TotalSize(model, cache, references[i..]) == TotalSize(model, cache, references)
    {
      var variable := FindByValueReference(model, references[i]);
      TotalStep(model, cache, references, i);
      if variable.None? {
        return 0;
      }
      var size := ResolveVariableFlatSize(model, cache, variable.value);
      if size == 0 {
        return 0;
      }
      SizedStep(model, cache, references, i);
      expected := expected + size;
      i := i + 1;
    }
    assert references[..i] == references && references[i..] == [];
    EmptyTotal(model, cache);
  }

  lemma TotalStep(model: ModelDescription, cache: Cache, references: seq<int>, i: nat)
    requires ValidModel(model) && i < |references|
    ensures var variable := FindByValueReference(model, references[i]);
            TotalSize(model, cache, references[i..]) ==
            (if variable.None? then 0 else FlatSize(model, cache, variable.value))
            + TotalSize(model, cache, references[i + 1..])
  {
    hide FlatSize, FindByValueReference;
    assert references[i..][1..] == references[i + 1..];
  }

  lemma SizedStep(model: ModelDescription, cache: Cache, references: seq<int>, i: nat)
    requires ValidModel(model) && i < |references| && AllSized(model, cache, references[..i])
    requires FindByValueReference(model, references[i]).Some?
    requires FlatSize(model, cache, FindByValueReference(model, references[i]).value) != 0
    ensures AllSized(model, cache, references[..i + 1])
  {
    hide FlatSize, FindByValueReference;
    var before, after := references[..i], references[..i + 1];
    assert after == before + [references[i]];
  }

  // ---------------------------------------------------------------------------------------------
  // Elements in and out

  /** Normalizes the integers of one variable, one by one, up to the first that is out of range. */
  method NormalizeElements(variable: VariableInfo, numbers: seq<Numeric>, width: IntegerWidth)
    returns (normalized: Option<seq<ScalarValue>>)
    requires AllConform(IntegerElement(width), numbers)
    ensures normalized == NormalizedAll(variable, numbers, width)
  {
    hide TryNormalizeInteger;
    var done: seq<ScalarValue> := [];
    var i := 0;
    assert numbers[0..] == numbers;
    PrependedEnds(done, NormalizedAll(variable, numbers, width));
    while i < |numbers|
      invariant 0 <= i <= |numbers|
      invariant NormalizedAll(variable, numbers, width) == Prepended(done, NormalizedAll(variable, numbers[i..], width))
    {
      assert Conforms(IntegerElement(width), numbers[i]);
      var element := TryNormalizeInteger(variable, numbers[i].n, width);
      assert numbers[i..][1..] == numbers[i + 1..];
      if element.None? {
        return None;
      }
      PrependedTwice(done, element.value, NormalizedAll(variable, numbers[i + 1..], width));
      done := done + [element.value];
      i := i + 1;
    }
    PrependedEnds(done, NormalizedAll(variable, numbers, width));
    normalized := Some(done);
  }

  function Prepended<T>(done: seq<T>, rest: Option<seq<T>>): Option<seq<T>> {
    if rest.None? then None else Some(done + rest.value)
  }

  lemma PrependedEnds<T>(done: seq<T>, rest: Option<seq<T>>)
    ensures Prepended([], rest) == rest && Prepended(done, Some([])) == Some(done)
  {
    if rest.Some? {
      assert [] + rest.value == rest.value;
    }
    assert done + [] == done;
  }

  lemma PrependedTwice<T>(done: seq<T>, x: T, rest: Option<seq<T>>)
    ensures Prepended(done, Prepended([x], rest)) == Prepended(done + [x], rest)
  {
    if rest.Some? {
      Associate(done, [x], rest.value);
    }
  }

  method StoredValue(variable: VariableInfo, numbers: seq<Numeric>, element: Element)
    returns (value: Option<ScalarValue>)
    requires numbers != [] && AllConform(element, numbers)
    ensures value == Stored(variable, numbers, element)
  {
    hide TryNormalizeInteger, BoundsForDeclaredType;
    assert Conforms(element, numbers[0]);
    match element
    case RealElement =>
      value := Some(if |numbers| == 1 then RealValue(numbers[0].r) else RealArray(RealsOf(numbers)));
    case IntegerElement(width) =>
      if |numbers| == 1 {
        value := TryNormalizeInteger(variable, numbers[0].n, width);
      } else {
        var all := NormalizeElements(variable, numbers, width);
        value :=
          if all.None? then None
          else if BoundsForDeclaredType(variable.declaredType).unsignedOnly then
            Some(UnsignedArray(UnsignedsOf(all.value)))
          else Some(SignedArray(SignedsOf(all.value)));
      }
  }

  /** Nothing but the places from `from` up to `to` differs. */
  twostate predicate OnlyPlaces(buffer: array<Numeric>, from: nat, to: nat)
    reads buffer
  {
    forall i | 0 <= i < buffer.Length && !(from <= i < to) :: buffer[i] == old(buffer[i])
  }

  method FillReals(buffer: array<Numeric>, offset: nat, reals: seq<real>)
    requires offset + |reals| <= buffer.Length
    modifies buffer
    ensures buffer[offset..offset + |reals|] == MapEach(reals, (r: real) => RealNumber(r))
    ensures OnlyPlaces(buffer, offset, offset + |reals|)
  {
    var i := 0;
    while i < |reals|
      invariant 0 <= i <= |reals|
      invariant forall k | offset <= k < offset + i :: buffer[k] == RealNumber(reals[k - offset])
      invariant OnlyPlaces(buffer, offset, offset + i)
    {
      buffer[offset + i] := RealNumber(reals[i]);
      i := i + 1;
    }
  }

  /** Casts the integers of one variable into their places, one by one, up to the first that does not fit. */
  method FillIntegers(
      buffer: array<Numeric>, offset: nat, variable: VariableInfo, items: seq<ScalarValue>, width: IntegerWidth)
    returns (ok: bool)
    requires offset + |items| <= buffer.Length
    modifies buffer
    ensures ok == CastAll(variable, items, width).Some?
    ensures ok ==> buffer[offset..offset + |items|] == CastAll(variable, items, width).value
    ensures OnlyPlaces(buffer, offset, offset + |items|)
  {
    hide TryCastStoredInteger;
    var i := 0;
    assert items[0..] == items;
    assert buffer[offset..offset + 0] == [];
    PrependedEnds(buffer[offset..offset + 0], CastAll(variable, items, width));
    while i < |items|
      invariant 0 <= i <= |items|
      invariant CastAll(variable, items, width)
                == Prepended(buffer[offset..offset + i], CastAll(variable, items[i..], width))
      invariant OnlyPlaces(buffer, offset, offset + i)
    {
      var n := TryCastStoredInteger(variable, items[i], width);
      assert items[i..][1..] == items[i + 1..];
      if n.None? {
        return false;
      }
      PrependedTwice(buffer[offset..offset + i], IntegerNumber(n.value), CastAll(variable, items[i + 1..], width));
      ghost var done := buffer[offset..offset + i];
      buffer[offset + i] := IntegerNumber(n.value);
      assert buffer[offset..offset + i] == done;
      assert buffer[offset..offset + (i + 1)] == done + [IntegerNumber(n.value)];
      i := i + 1;
    }
    PrependedEnds(buffer[offset..offset + i], CastAll(variable, items, width));
    ok := true;
  }

  /** Hands out one cached value. */
  method FillPlaces(
      buffer: array<Numeric>, offset: nat, variable: VariableInfo, value: ScalarValue, size: nat, element: Element)
    returns (ok: bool)
    requires 0 < size && offset + size <= buffer.Length
    modifies buffer
    ensures ok == Fetched(variable, value, size, element).Some?
    ensures ok ==> buffer[offset..offset + size] == Fetched(variable, value, size, element).value
    ensures OnlyPlaces(buffer, offset, offset + size)
  {
    hide TryCastStoredInteger, CastAll;
    match element
    case RealElement =>
      if size == 1 && value.RealValue? {
        FillReals(buffer, offset, [value.number]);
        return true;
      }
      if size != 1 && value.RealArray? && |value.reals| == size {
        FillReals(buffer, offset, value.reals);
        return true;
      }
      return false;
    case IntegerElement(width) =>
      if size == 1 {
        ok := FillIntegers(buffer, offset, variable, [value], width);
        CastOne(variable, value, width);
      } else {
        var items := ItemsOf(value);
        if items.None? || |items.value| != size {
          return false;
        }
        ok := FillIntegers(buffer, offset, variable, items.value, width);
      }
  }

  lemma CastOne(variable: VariableInfo, value: ScalarValue, width: IntegerWidth)
    ensures var n := TryCastStoredInteger(variable, value, width);
            CastAll(variable, [value], width) == if n.None? then None else Some([IntegerNumber(n.value)])
  {
    hide TryCastStoredInteger;
    assert [value][1..] == [];
    var n := TryCastStoredInteger(variable, value, width);
    if n.Some? {
      assert [IntegerNumber(n.value)] + [] == [IntegerNumber(n.value)];
    }
  }

  /**
   The numeric getters. A success fills exactly the places of the listed variables; whatever
   happens, nothing outside the agreed width is written.
   */
  method GetNumericValues(
      model: ModelDescription, cache: Cache, references: array?<int>, count: nat,
      values: array?<Numeric>, valueCount: nat, element: Element)
    returns (status: Result<()>)
    requires ValidModel(model)
    requires references != null ==> count <= references.Length
    requires values != null ==> Width(count, valueCount) <= values.Length
    modifies values
    ensures references == null || values == null ==> status == Failure("INVALID_ARGUMENT")
    ensures references != null && values != null ==>
              var width := Width(count, valueCount);
              && (forall i | width <= i < values.Length :: values[i] == old(values[i]))
              && status == StatusOf(GetValues(model, cache, references[..count], width, element))
              && (status.Success? ==>
                    GetValues(model, cache, references[..count], width, element) == Success(values[..width]))
              && (ExpectedCount(model, cache, references[..count]) == width ==>
                    IsGetCall(model, cache, references[..count], width, element,
                              if status.Success? then Success(values[..width]) else Failure(status.code)))
  {
    if references == null || values == null {
      return Failure(INVALID_ARGUMENT);
    }
    hide GetFrom, ExpectedCount, IsGetCall;
    GetCallIs(model, cache, references[..count], Width(count, valueCount), element);
    var listed, width := references[..count], Width(count, valueCount);
    var expected := ExpectedValueCount(model, cache, listed);
    if expected != width {
      return Failure(INVALID_ARGUMENT);
    }
    CheckedTotal(model, cache, listed, width);
    status := GetEach(model, cache, listed, values, width, element);
  }

  method GetEach(
      model: ModelDescription, cache: Cache, references: seq<int>, values: array<Numeric>, width: nat, element: Element)
    returns (status: Result<()>)
    requires ValidModel(model) && width <= values.Length && TotalSize(model, cache, references) == width
    modifies values
    ensures OnlyPlaces(values, 0, width)
    ensures var result := GetFrom(model, cache, references, width, element);
            status == StatusOf(result) && (status.Success? ==> result == Success(values[..width]))
  {
    hide GetFrom, NextVariable, FlatSize, Fetched, TotalSize, FindByValueReference, Preceded;
    var offset, index := 0, 0;
    assert references[0..] == references;
    ghost var result := GetFrom(model, cache, references, width, element);
    PrecededEnds(values[..0], result);
    while index < |references|
      invariant 0 <= index <= |references| && 0 <= offset <= width
      invariant OnlyPlaces(values, 0, width)
      invariant result
             == Preceded(values[..offset], GetFrom(model, cache, references[index..], width - offset, element))
      invariant offset + TotalSize(model, cache, references[index..]) == width
    {
      TotalStep(model, cache, references, index);
      GetUnfold(model, cache, references, index, width - offset, element);
      ghost var done := values[..offset];
      var variable := NextVariable(model, references[index], element);
      if variable.Failure? {
        PrecededFails(done, variable.code);
        return Failure(variable.code);
      }
      if references[index] !in cache {
        PrecededFails(done, VALUE_UNAVAILABLE);
        return Failure(VALUE_UNAVAILABLE);
      }
      var size := ResolveVariableFlatSize(model, cache, variable.value);
      if size == 0 || offset + size > width {
        PrecededFails(done, INVALID_ARGUMENT);
        return Failure(INVALID_ARGUMENT);
      }
      var ok := FillPlaces(values, offset, variable.value, cache[references[index]], size, element);
      if !ok {
        PrecededFails(done, TYPE_MISMATCH);
        return Failure(TYPE_MISMATCH);
      }
      assert values[..offset] == done;
      assert values[..offset + size] == done + values[offset..offset + size];
      PrecededTwice(done, values[offset..offset + size],
                    GetFrom(model, cache, references[index + 1..], width - offset - size, element));
      offset := offset + size;
      index := index + 1;
    }
    assert references[index..] == [];
    EmptyTotal(model, cache);
    NothingToGet(model, cache, width - offset, element);
    PrecededEnds(values[..offset], Success([]));
    status := Success(());
  }

  function StatusOf<T>(result: Result<T>): Result<()> {
    if result.Success? then Success(()) else Failure(result.code)
  }

  ghost function Preceded(done: seq<Numeric>, rest: Result<seq<Numeric>>): Result<seq<Numeric>> {
    if rest.Success? then Success(done + rest.value) else rest
  }

  lemma PrecededEnds(done: seq<Numeric>, rest: Result<seq<Numeric>>)
    ensures done == [] ==> Preceded(done, rest) == rest
    ensures Preceded(done, Success([])) == Success(done)
  {
    if rest.Success? {
      assert [] + rest.value == rest.value;
    }
    assert done + [] == done;
  }

  lemma PrecededFails(done: seq<Numeric>, code: string)
    ensures Preceded(done, Failure(code)) == Failure(code)
  {
  }

  lemma PrecededTwice(done: seq<Numeric>, more: seq<Numeric>, rest: Result<seq<Numeric>>)
    ensures Preceded(done, Preceded(more, rest)) == Preceded(done + more, rest)
  {
    if rest.Success? {
      Associate(done, more, rest.value);
    }
  }

  lemma NothingToGet(model: ModelDescription, cache: Cache, room: nat, element: Element)
    requires ValidModel(model)
    ensures GetFrom(model, cache, [], room, element) == Success([])
  {
  }

  /** One variable of a get call. */
  lemma GetUnfold(model: ModelDescription, cache: Cache, references: seq<int>, i: nat, room: nat, element: Element)
    requires ValidModel(model) && i < |references|
    ensures var reference, next := references[i], NextVariable(model, references[i], element);
            var result := GetFrom(model, cache, references[i..], room, element);
            && (next.Failure? ==> result == Failure(next.code))
            && (next.Success? ==> FindByValueReference(model, reference) == Some(next.value))
            && (next.Success? && reference !in cache ==> result == Failure(VALUE_UNAVAILABLE))
            && (next.Success? && reference in cache ==>
                  var size := FlatSize(model, cache, next.value);
                  var numbers := Fetched(next.value, cache[reference], size, element);
                  result ==
                  if size == 0 || size > room then Failure(INVALID_ARGUMENT)
                  else if numbers.None? then Failure(TYPE_MISMATCH)
                  else Preceded(numbers.value, GetFrom(model, cache, references[i + 1..], room - size, element)))
  {
    hide FlatSize, Fetched, Accepts;
    assert references[i..][1..] == references[i + 1..];
  }

  lemma CheckedTotal(model: ModelDescription, cache: Cache, references: seq<int>, width: nat)
    requires ValidModel(model) && ExpectedCount(model, cache, references) == width
    requires width == 0 ==> references == []
    ensures TotalSize(model, cache, references) == width
  {
    EmptyTotal(model, cache);
  }
}
