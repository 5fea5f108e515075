/**
 The proxy runtime: the session state machine, the cache of values, and the inputs that wait for the
 next step.
 */
module Runtime {
  import opened Common
  import opened Json
  import opened Values
  import opened FlatValues
  import opened FlatBuffers
  import opened FlatLaws
  import opened SessionState
  import opened Messages
  import opened Gateway

  const NOT_CONFIGURED := "RUNTIME_NOT_CONFIGURED"
  const STATE_ERROR := "STATE_ERROR"
  const CONFIG_INVALID := "CONFIG_INVALID"
  const UNSUPPORTED := "MODEL_DESCRIPTION_UNSUPPORTED"

  type Inputs = map<string, ScalarValue>

  /** What is read from the files of the FMU. */
  datatype LoadedModel = LoadedModel(
    description: ModelDescription, supportsCoSimulation: bool,
    startTime: Option<real>, stopTime: Option<real>, stepSize: Option<real>)

  function ValueOr(value: Option<real>, fallback: real): real {
    if value.Some? then value.value else fallback
  }

  // ---------------------------------------------------------------------------------------------
  // The first values of the cache

  function ZeroScalar(variable: VariableInfo): ScalarValue {
    match variable.kind
    case RealType => RealValue(0.0)
    case IntegerType => ZeroInteger(variable)
    case EnumerationType => ZeroInteger(variable)
    case BooleanType => BooleanValue(false)
    case StringType => StringValue("")
    case BinaryType => BinaryValue([])
    case ClockType => BooleanValue(false)
  }

  function ZeroInteger(variable: VariableInfo): ScalarValue {
    if BoundsForDeclaredType(variable.declaredType).unsignedOnly then UnsignedValue(0) else SignedValue(0)
  }

  function ZeroArray(variable: VariableInfo, size: nat): ScalarValue {
    match variable.kind
    case RealType => RealArray(seq(size, _ => 0.0))
    case IntegerType => ZeroIntegers(variable, size)
    case EnumerationType => ZeroIntegers(variable, size)
    case BooleanType => BooleanArray(seq(size, _ => false))
    case StringType => StringArray(seq(size, _ => ""))
    case BinaryType => BinaryArray(seq(size, _ => []))
    case ClockType => BooleanArray(seq(size, _ => false))
  }

  function ZeroIntegers(variable: VariableInfo, size: nat): ScalarValue {
    if BoundsForDeclaredType(variable.declaredType).unsignedOnly then UnsignedArray(seq(size, _ => 0 as uint64))
    else SignedArray(seq(size, _ => 0 as int64))
  }

  function FirstValue(model: ModelDescription, cache: Cache, variable: VariableInfo): ScalarValue
    requires ValidModel(model)
  {
    if variable.startValue.Some? then variable.startValue.value
    else
      var size := FlatSize(model, cache, variable);
      if size > 1 then ZeroArray(variable, size) else ZeroScalar(variable)
  }

  /** The cache after the first `n` variables have been given their values, in order. */
  function Seeded(model: ModelDescription, n: nat): Cache
    requires ValidModel(model) && n <= |model.variables|
  {
    if n == 0 then map[]
    else
      var cache, variable := Seeded(model, n - 1), model.variables[n - 1];
      cache[variable.valueReference := FirstValue(model, cache, variable)]
  }

  /** Every variable that can be looked up has a value. */
  predicate AllCached(model: ModelDescription, cache: Cache) {
    forall v | v in model.byValueReference :: v in cache
  }

  lemma {:induction false} SeededHas(model: ModelDescription, n: nat, i: nat)
    requires ValidModel(model) && i < n <= |model.variables|
    ensures model.variables[i].valueReference in Seeded(model, n)
  {
    hide FirstValue;
    if i < n - 1 {
      SeededHas(model, n - 1, i);
    }
  }

  lemma SeededAll(model: ModelDescription)
    requires ValidModel(model)
    ensures AllCached(model, Seeded(model, |model.variables|))
  {
    hide Seeded;
    forall v | v in model.byValueReference ensures v in Seeded(model, |model.variables|) {
      SeededHas(model, |model.variables|, model.byValueReference[v]);
    }
  }

  predicate IsZero(value: ScalarValue) {
    match value
    case RealValue(r) => r == 0.0
    case SignedValue(n) => n == 0
    case UnsignedValue(n) => n == 0
    case BooleanValue(flag) => !flag
    case StringValue(text) => text == ""
    case BinaryValue(data) => data == []
    case RealArray(items) => forall i | 0 <= i < |items| :: items[i] == 0.0
    case SignedArray(items) => forall i | 0 <= i < |items| :: items[i] == 0
    case UnsignedArray(items) => forall i | 0 <= i < |items| :: items[i] == 0
    case BooleanArray(items) => forall i | 0 <= i < |items| :: !items[i]
    case StringArray(items) => forall i | 0 <= i < |items| :: items[i] == ""
    case BinaryArray(items) => forall i | 0 <= i < |items| :: items[i] == []
  }

  /** The length of an array; None for a scalar. */
  function LengthOf(value: ScalarValue): Option<nat> {
    match value
    case RealArray(items) => Some(|items|)
    case SignedArray(items) => Some(|items|)
    case UnsignedArray(items) => Some(|items|)
    case BooleanArray(items) => Some(|items|)
    case StringArray(items) => Some(|items|)
    case BinaryArray(items) => Some(|items|)
    case _ => None
  }

  /** A first value: the start value of the variable, or zeros that fit it, an array if it has more than one element. */
  predicate IsFirstValue(variable: VariableInfo, size: nat, value: ScalarValue) {
    if variable.startValue.Some? then value == variable.startValue.value
    else
      && IsZero(value) && ValueFits(value, variable)
      && LengthOf(value) == if size > 1 then Some(size) else None
  }

  /** One variable after the other gets its first value, each of the size that the cache gives it by then. */
  ghost predicate IsSeeding(model: ModelDescription, caches: seq<Cache>)
    requires ValidModel(model)
  {
    && |caches| == |model.variables| + 1 && caches[0] == map[]
    && forall i | 0 <= i < |model.variables| :: SeedsNext(model, caches[i], caches[i + 1], model.variables[i])
  }

  ghost predicate SeedsNext(model: ModelDescription, before: Cache, after: Cache, variable: VariableInfo)
    requires ValidModel(model)
  {
    var reference := variable.valueReference;
    && reference in after && after == before[reference := after[reference]]
    && IsFirstValue(variable, FlatSize(model, before, variable), after[reference])
  }

  ghost predicate IsSeeded(model: ModelDescription, cache: Cache)
    requires ValidModel(model)
  {
    exists caches :: IsSeeding(model, caches) && cache == caches[|model.variables|]
  }

  lemma ZerosAreFirst(variable: VariableInfo, size: nat)
    requires variable.startValue.None?
    ensures IsFirstValue(variable, size, if size > 1 then ZeroArray(variable, size) else ZeroScalar(variable))
  {
    hide TwoTo, BoundsForDeclaredType, DeclaredAs;
    BoundsIff(variable.declaredType, 0);
  }

  lemma SeededIsSeeded(model: ModelDescription)
    requires ValidModel(model)
    ensures IsSeeded(model, Seeded(model, |model.variables|))
  {
    hide IsFirstValue, FlatSize, ValidModel, ZeroArray, ZeroScalar;
    var n := |model.variables|;
    var caches := seq(n + 1, i requires 0 <= i < n + 1 => Seeded(model, i));
    forall i | 0 <= i < n ensures SeedsNext(model, caches[i], caches[i + 1], model.variables[i]) {
      var variable := model.variables[i];
      if variable.startValue.None? {
        ZerosAreFirst(variable, FlatSize(model, caches[i], variable));
      } else {
        StartIsFirst(variable, FlatSize(model, caches[i], variable));
      }
    }
    assert IsSeeding(model, caches);
  }

  lemma StartIsFirst(variable: VariableInfo, size: nat)
    requires variable.startValue.Some?
    ensures IsFirstValue(variable, size, variable.startValue.value)
  {
  }

  // ---------------------------------------------------------------------------------------------
  // The outputs of a step

  function Absorbed(model: ModelDescription, cache: Cache, output: Member): Cache
    requires ValidModel(model)
  {
    var variable := FindByName(model, output.key);
    if variable.None? then cache
    else
      var converted := ConvertJsonValue(output.value, variable.value);
      if converted.None? then cache else cache[variable.value.valueReference := converted.value]
  }

  function AbsorbedAll(model: ModelDescription, cache: Cache, outputs: Members): Cache
    requires ValidModel(model)
  {
    if outputs == [] then cache
    else Absorbed(model, AbsorbedAll(model, cache, outputs[..|outputs| - 1]), outputs[|outputs| - 1])
  }

  /** The output is convertible, and is for the variable with this reference. */
  ghost predicate Sets(model: ModelDescription, output: Member, reference: int)
    requires ValidModel(model)
  {
    var variable := FindByName(model, output.key);
    variable.Some? && variable.value.valueReference == reference && ConvertJsonValue(output.value, variable.value).Some?
  }

  /** No output from the `from`-th on is for the variable with this reference. */
  ghost predicate NoneSets(model: ModelDescription, outputs: Members, from: nat, reference: int)
    requires ValidModel(model)
  {
    forall i | from <= i < |outputs| :: !Sets(model, outputs[i], reference)
  }

  /** What outputs make of the cache: each variable has its last convertible output; nothing else changes. */
  ghost predicate OutputsTaken(model: ModelDescription, before: Cache, after: Cache, outputs: Members)
    requires ValidModel(model)
  {
    && (forall i | 0 <= i < |outputs| :: LastIsTaken(model, after, outputs, i))
    && (forall reference | NoneSets(model, outputs, 0, reference) ::
          Cached(after, reference) == Cached(before, reference))
  }

  ghost predicate LastIsTaken(model: ModelDescription, after: Cache, outputs: Members, i: nat)
    requires ValidModel(model) && i < |outputs|
  {
    var variable := FindByName(model, outputs[i].key);
    variable.Some? ==>
      var reference, converted := variable.value.valueReference, ConvertJsonValue(outputs[i].value, variable.value);
      converted.Some? && NoneSets(model, outputs, i + 1, reference) ==> Cached(after, reference) == converted
  }

  lemma {:induction false} AbsorbedAreTaken(model: ModelDescription, cache: Cache, outputs: Members)
    requires ValidModel(model)
    ensures OutputsTaken(model, cache, AbsorbedAll(model, cache, outputs), outputs)
  {
    hide ConvertJsonValue, FindByName;
    if outputs != [] {
      var n := |outputs| - 1;
      var fewer, last := outputs[..n], outputs[n];
      var before, after := AbsorbedAll(model, cache, fewer), AbsorbedAll(model, cache, outputs);
      AbsorbedAreTaken(model, cache, fewer);
      OneMoreTaken(model, before, last);
      forall i: nat, reference ensures i <= n && NoneSets(model, outputs, i, reference) <==>
                                  i <= n && NoneSets(model, fewer, i, reference) && !Sets(model, last, reference)
      {
      }
      forall i | 0 <= i < |outputs| ensures LastIsTaken(model, after, outputs, i) {
        if i < n {
          assert LastIsTaken(model, before, fewer, i);
        }
      }
    }
  }

  lemma OneMoreTaken(model: ModelDescription, cache: Cache, output: Member)
    requires ValidModel(model)
    ensures LastIsTaken(model, Absorbed(model, cache, output), [output], 0)
    ensures forall reference | !Sets(model, output, reference) ::
              Cached(Absorbed(model, cache, output), reference) == Cached(cache, reference)
  {
    hide ConvertJsonValue, FindByName;
  }

  // ---------------------------------------------------------------------------------------------
  // What the state means

  /** The states that a caller can see between two calls. */
  predicate Visible(state: State) {
    state != SocketConnecting && state != SocketReady && state != Paused
  }

  /** Nothing has been handed to a simulation yet. */
  predicate BeforeSimulation(state: State) {
    state == Unconfigured || state == Instantiated || state == SessionCreated
  }

  /**
   The runtime and the gateway agree: steps only go to the initialized session, and the inputs there,
   overlaid with those still pending, are the ones that `direct` writing would have made.
   */
  ghost predicate Coherent(
      state: State, log: Log, connected: bool, sessionId: string, pending: Inputs, direct: Inputs)
  {
    && Ordered(log)
    && (Simulating(state) && connected ==> OpenSession(log) == Some(sessionId))
    && (Simulating(state) && OpenSession(log).Some? ==> RemoteInputs(log) + pending == direct)
    && (BeforeSimulation(state) ==> pending == direct)
  }

  /** The value suits a variable of that name. */
  ghost predicate SuitsSome(model: ModelDescription, name: string, value: ScalarValue) {
    exists i | 0 <= i < |model.variables| :: model.variables[i].name == name && ValueFits(value, model.variables[i])
  }

  ghost predicate AllSuit(model: ModelDescription, inputs: Inputs) {
    forall name | name in inputs :: SuitsSome(model, name, inputs[name])
  }

  lemma NoneSuits(model: ModelDescription)
    ensures AllSuit(model, map[])
  {
  }

  lemma OneMoreSuits(model: ModelDescription, inputs: Inputs, variable: VariableInfo, value: ScalarValue)
    requires AllSuit(model, inputs) && variable in model.variables && ValueFits(value, variable)
    ensures AllSuit(model, inputs[variable.name := value])
  {
    hide ValueFits;
    var i :| 0 <= i < |model.variables| && model.variables[i] == variable;
    assert SuitsSome(model, variable.name, value);
  }

  /** What one more exchange does to the session and its inputs. */
  lemma AddedEffect(before: Log, after: Log, asked: Request, ok: bool)
    requires Added(before, after, asked, ok) && after != before
    ensures OpenSession(after) ==
            if EndsSession(asked.kind) then None
            else if asked.kind == Initialize then (if ok then Some(asked.sessionId) else None)
            else OpenSession(before)
    ensures RemoteInputs(after) ==
            if EndsSession(asked.kind) then map[]
            else if asked.kind == Initialize then (if ok then asked.inputs else map[])
            else if asked.kind == SetInputs && ok then RemoteInputs(before) + asked.inputs
            else RemoteInputs(before)
    ensures Ordered(before) && (NeedsSession(asked.kind) ==> OpenSession(before) == Some(asked.sessionId)) ==>
            Ordered(after)
  {
    var n := |before|;
    assert after[..|after| - 1] == before;
    hide OpenSession, RemoteInputs;
    forall i | 0 <= i < n ensures after[i] == before[i] && after[..i] == before[..i] {
      assert after[..n][i] == after[i];
    }
  }

  /** A log to which only requests that end a session, or go to the open one, have been added stays in order. */
  lemma AddedKeepsOrder(before: Log, after: Log, asked: Request, ok: bool)
    requires Ordered(before) && Added(before, after, asked, ok)
    requires NeedsSession(asked.kind) && after != before ==> OpenSession(before) == Some(asked.sessionId)
    ensures Ordered(after)
  {
    if after != before {
      AddedEffect(before, after, asked, ok);
    }
  }

  // ---------------------------------------------------------------------------------------------
  // The runtime

  class ProxyRuntime {
    var model: ModelDescription
    var config: RuntimeConfig
    var gateway: GatewayClient?
    var state: State
    var experiment: Experiment
    var currentTime: real
    var cached: Cache
    var pending: Inputs
    var lastError: string

    /** The last value set for each variable since the runtime was configured or reset. */
    ghost var direct: Inputs

    ghost function Footprint(): set<object>
      reads this
    {
      if gateway == null then {this} else {this, gateway, gateway.transport}
    }

    ghost function Sent(): Log
      reads this, gateway
    {
      if gateway == null then [] else gateway.log
    }

    ghost predicate Valid()
      reads Footprint()
    {
      && ValidModel(model) && Visible(state) && AllSuit(model, pending)
      && (gateway == null ==> state == Unconfigured || state == Instantiated)
      && (gateway != null ==> state != Unconfigured)
      && (gateway != null ==>
            && gateway.Valid() && AllCached(model, cached)
            && Coherent(state, gateway.log, gateway.transport.connected, gateway.sessionId, pending, direct))
      && (gateway == null ==> pending == direct)
    }

    constructor ()
      ensures Valid() && fresh(Footprint()) && state == Unconfigured && gateway == null && direct == map[]
    {
      model, config, gateway, state := NO_MODEL, NO_CONFIG, null, Unconfigured;
      experiment, currentTime := Experiment(0.0, 0.0, 0.0), 0.0;
      cached, pending, lastError := map[], map[], "";
      direct := map[];
    }

    method Transition(next: State) returns (status: Result<()>)
      modifies this`state
      ensures status.Success? <==> CanTransition(old(state), next)
      ensures status.Success? ==> state == next
      ensures status.Failure? ==> state == old(state) && status.code == "STATE_ERROR"
    {
      if !CanTransition(state, next) {
        return Failure(STATE_ERROR);
      }
      state := next;
      status := Success(());
    }

    method SeedCache()
      requires ValidModel(model)
      modifies this`cached
      ensures cached == Seeded(model, |model.variables|) && IsSeeded(model, cached)
    {
      SeededIsSeeded(model);
      hide IsSeeded;
      cached := map[];
      var n := 0;
      while n < |model.variables|
        invariant 0 <= n <= |model.variables|
        invariant cached == Seeded(model, n)
      {
        var variable := model.variables[n];
        if variable.startValue.Some? {
          cached := cached[variable.valueReference := variable.startValue.value];
        } else {
          var size := ResolveVariableFlatSize(model, cached, variable);
          var zero := if size > 1 then ZeroArray(variable, size) else ZeroScalar(variable);
          cached := cached[variable.valueReference := zero];
        }
        n := n + 1;
      }
    }

    /** A failure while the files are read leaves everything as it was; later, everything is new. */
    method Configure(resourcePath: string, configured: Result<RuntimeConfig>, loaded: Result<LoadedModel>)
      returns (status: Result<()>)
      requires Valid()
      requires loaded.Success? ==> ValidModel(loaded.value.description)
      modifies this
      ensures Valid()
      ensures CanMove(old(state), state)
      ensures resourcePath == "" ==> status == Failure("CONFIG_INVALID")
      ensures resourcePath != "" && configured.Failure? ==> status == Failure(configured.code)
      ensures resourcePath != "" && configured.Success? && loaded.Failure? ==> status == Failure(loaded.code)
      ensures resourcePath != "" && configured.Success? && loaded.Success? && !loaded.value.supportsCoSimulation ==>
                status == Failure("MODEL_DESCRIPTION_UNSUPPORTED")
      ensures resourcePath == "" || configured.Failure? || loaded.Failure? || !loaded.value.supportsCoSimulation ==>
                && status.Failure?
                && (state, config, gateway, model, cached, pending, direct)
                == old((state, config, gateway, model, cached, pending, direct))
      ensures resourcePath != "" && configured.Success? && loaded.Success? && loaded.value.supportsCoSimulation ==>
                && config == configured.value
                && gateway != null && fresh(gateway) && fresh(gateway.transport)
                && !gateway.transport.connected && gateway.log == []
                && model == loaded.value.description
                && cached == Seeded(model, |model.variables|) && IsSeeded(model, cached)
                && pending == map[] && direct == map[] && currentTime == experiment.startTime
                && experiment == Experiment(
                  ValueOr(loaded.value.startTime, 0.0), ValueOr(loaded.value.stopTime, 10.0),
                  ValueOr(loaded.value.stepSize, 0.01))
                && (status.Success? <==> old(state) in {Unconfigured, Instantiated, Terminated, Error})
                && state == if status.Success? then Instantiated else old(state)
    {
      if resourcePath == "" {
        return Failure(CONFIG_INVALID);
      }
      if configured.Failure? {
        return Failure(configured.code);
      }
      if loaded.Failure? {
        return Failure(loaded.code);
      }
      if !loaded.value.supportsCoSimulation {
        return Failure(UNSUPPORTED);
      }
      hide Coherent, GatewayClient.Valid, Answers, OneMore, ValidModel, AllCached, AllSuit, Seeded, IsSeeded,
           CanTransition;
      EnteredOnlyFrom(state, Instantiated);
      Adopt(configured.value, loaded.value);
      status := Transition(Instantiated);
      FreshIsCoherent(state, gateway.sessionId);
      NoneSuits(model);
    }

    /** A new model, and a client that has no connection yet. */
    method Adopt(config: RuntimeConfig, loaded: LoadedModel)
      requires ValidModel(loaded.description)
      modifies this`model, this`config, this`experiment, this`currentTime, this`gateway, this`cached, this`pending,
               this`direct, this`lastError
      ensures gateway != null && fresh(gateway) && fresh(gateway.transport)
      ensures !gateway.transport.connected && gateway.log == [] && gateway.Valid()
      ensures this.config == config && model == loaded.description
      ensures cached == Seeded(model, |model.variables|) && IsSeeded(model, cached) && AllCached(model, cached)
      ensures pending == map[] && direct == map[] && currentTime == experiment.startTime
      ensures experiment == Experiment(
        ValueOr(loaded.startTime, 0.0), ValueOr(loaded.stopTime, 10.0), ValueOr(loaded.stepSize, 0.01))
    {
      hide GatewayClient.Valid, Answers, OneMore, ValidModel, AllCached, AllSuit, Seeded, IsSeeded;
      this.config, model := config, loaded.description;
      experiment := Experiment(
        ValueOr(loaded.startTime, 0.0), ValueOr(loaded.stopTime, 10.0), ValueOr(loaded.stepSize, 0.01));
      currentTime := experiment.startTime;
      var transport := new MessageTransport();
      gateway := new GatewayClient(transport);
      SeedCache();
      SeededAll(model);
      pending, direct, lastError := map[], map[], "";
    }

    method SetupExperiment(startTime: real, stopTime: real, stepSize: real)
      requires Valid()
      modifies this`experiment, this`currentTime
      ensures Valid()
      ensures experiment == Experiment(startTime, stopTime, stepSize) && currentTime == startTime
    {
      experiment := Experiment(startTime, stopTime, stepSize);
      currentTime := startTime;
    }

    /** Only an instantiated runtime creates a session; a session that cannot be created is an error. */
    method EnterInitializationMode() returns (status: Result<()>)
      requires Valid()
      modifies Footprint()
      ensures Valid() && gateway == old(gateway)
      ensures CanMove(old(state), state)
      ensures (config, experiment) == old((config, experiment))
      ensures pending == old(pending) && direct == old(direct) && cached == old(cached) && model == old(model)
      ensures old(gateway) == null ==> status == Failure("RUNTIME_NOT_CONFIGURED") && state == old(state)
      ensures old(gateway) != null && old(state) != Instantiated ==>
                status == Failure("STATE_ERROR") && state == old(state) && Sent() == old(Sent())
      ensures old(gateway) != null && old(state) == Instantiated ==>
                state == if status.Success? then SessionCreated else Error
      ensures status.Success? ==>
                && gateway != null && gateway.transport.connected && gateway.sessionId != ""
                && Added(old(Sent()), Sent(), CreateRequest(config), true)
    {
      hide Coherent, Added, CreateRequest, CanTransition, GatewayClient.Valid, Answers, OneMore, ValidModel, AllCached,
           AllSuit;
      if gateway == null {
        return Failure(NOT_CONFIGURED);
      }
      ConnectingSteps(state);
      status := Transition(SocketConnecting);
      if status.Failure? {
        return;
      }
      status := gateway.CreateSession(config);
      CreateIsCoherent(old(gateway.log), gateway.log, config,
                       old(gateway.transport.connected), gateway.transport.connected,
                       old(gateway.sessionId), gateway.sessionId, pending, direct);
      if status.Failure? {
        state, lastError := Error, status.code;
        return;
      }
      status := Transition(SocketReady);
      if status.Failure? {
        return;
      }
      status := Transition(SessionCreated);
    }

    /** The initial inputs are the ones set so far. */
    method ExitInitializationMode() returns (status: Result<()>)
      requires Valid()
      modifies Footprint()
      ensures Valid() && gateway == old(gateway)
      ensures CanMove(old(state), state)
      ensures (config, experiment) == old((config, experiment))
      ensures direct == old(direct) && cached == old(cached) && model == old(model)
      ensures old(gateway) == null ==> status == Failure("RUNTIME_NOT_CONFIGURED") && state == old(state)
      ensures old(gateway) != null && old(state) != SessionCreated ==>
                status == Failure("STATE_ERROR") && state == old(state) && Sent() == old(Sent())
      ensures old(gateway) != null && old(state) == SessionCreated ==>
                state == if status.Success? then Initialized else Error
      ensures status.Failure? ==> pending == old(pending)
      ensures status.Success? ==>
                && gateway != null && gateway.transport.connected
                && Added(old(Sent()), Sent(),
                         InitializeRequest(gateway.sessionId, config, experiment, old(pending)), true)
                && OpenSession(gateway.log) == Some(gateway.sessionId)
                && RemoteInputs(gateway.log) == direct
                && pending == map[] && currentTime == experiment.startTime
    {
      hide Coherent, Added, InitializeRequest, CanTransition, OpenSession, RemoteInputs, GatewayClient.Valid, Answers,
           OneMore, AsksToInitialize, ValidModel, AllCached, AllSuit;
      if gateway == null {
        return Failure(NOT_CONFIGURED);
      }
      if state != SessionCreated {
        return Failure(STATE_ERROR);
      }
      ghost var before, connected := gateway.log, gateway.transport.connected;
      status := gateway.InitializeSession(config, experiment, pending);
      InitializeIsCoherent(before, gateway.log, gateway.sessionId, config, experiment, status.Success?, connected,
                           gateway.transport.connected, pending, direct);
      if status.Failure? {
        state, lastError := Error, status.code;
        return;
      }
      NoneSuits(model);
      pending := map[];
      currentTime := experiment.startTime;
      ConnectingSteps(state);
      status := Transition(Initialized);
    }

    /** Takes over the simulation time and every output that is known and convertible. */
    method ApplyOutputSnapshot(snapshot: OutputSnapshot)
      requires ValidModel(model)
      modifies this`currentTime, this`cached
      ensures currentTime == snapshot.simTime && cached == AbsorbedAll(model, old(cached), snapshot.values)
      ensures OutputsTaken(model, old(cached), cached, snapshot.values)
      ensures AllCached(model, old(cached)) ==> AllCached(model, cached)
    {
      hide OutputsTaken;
      AbsorbedAreTaken(model, cached, snapshot.values);
      hide ConvertJsonValue, FindByName, ValidModel;
      currentTime := snapshot.simTime;
      var i := 0;
      while i < |snapshot.values|
        invariant 0 <= i <= |snapshot.values|
        invariant currentTime == snapshot.simTime
        invariant cached == AbsorbedAll(model, old(cached), snapshot.values[..i])
        invariant AllCached(model, old(cached)) ==> AllCached(model, cached)
      {
        var output := snapshot.values[i];
        assert snapshot.values[..i + 1][..i] == snapshot.values[..i];
        var variable := FindByName(model, output.key);
        if variable.Some? {
          var converted := ConvertJsonValue(output.value, variable.value);
          if converted.Some? {
            cached := cached[variable.value.valueReference := converted.value];
          }
        }
        i := i + 1;
      }
      assert snapshot.values[..i] == snapshot.values;
    }

    /** Hands the pending inputs over, if there are any. */
    method FlushInputs() returns (status: Result<()>)
      requires Valid() && gateway != null && Simulating(state)
      modifies this`pending, this`state, this`lastError, gateway, gateway.transport
      ensures Valid()
      ensures status.Failure? ==> state == Error && old(pending) != map[]
      ensures status.Success? ==> Flushes(old(Sent()), Sent(), gateway.sessionId, old(pending))
      ensures status.Success? && old(pending) == map[] ==>
                gateway.issued == old(gateway.issued) && gateway.transport.inbox == old(gateway.transport.inbox)
      ensures status.Success? && old(pending) != map[] ==>
                && gateway.issued == old(gateway.issued) + 1
                && gateway.transport.inbox == LeftUnread(gateway.issued, old(gateway.transport.inbox))
      ensures status.Success? ==> state == old(state) && pending == map[] && gateway.sessionId == old(gateway.sessionId)
    {
      hide Coherent, Added, Flushes, OpenSession, RemoteInputs, GatewayClient.Valid, Answers, OneMore, ValidModel,
           AllCached, AllSuit, LeftUnread;
      ghost var before, connected := gateway.log, gateway.transport.connected;
      if pending == map[] {
        NothingFlushed(before, gateway.sessionId);
        return Success(());
      }
      status := gateway.SendInputs(pending);
      FlushIsCoherent(state, before, gateway.log, status.Success?, connected, gateway.transport.connected,
                      gateway.sessionId, pending, direct);
      if status.Failure? {
        state, lastError := Error, status.code;
        return;
      }
      NoneSuits(model);
      pending := map[];
    }

    /**
     A step that succeeds ran on exactly the last value set for each variable, in the session whose
     initialization was acknowledged; one that fails leaves the runtime in the error state.
     */
    method DoStep(stepSize: real) returns (status: Result<()>)
      requires Valid()
      modifies Footprint()
      ensures Valid() && gateway == old(gateway) && direct == old(direct) && model == old(model)
      ensures CanMove(old(state), state)
      ensures (config, experiment) == old((config, experiment))
      ensures old(gateway) == null ==> status == Failure("RUNTIME_NOT_CONFIGURED") && state == old(state)
      ensures old(gateway) != null && !Simulating(old(state)) ==>
                status == Failure("STATE_ERROR") && state == old(state) && Sent() == old(Sent())
      ensures old(gateway) != null && Simulating(old(state)) ==>
                state == if status.Success? then Running else Error
      ensures status.Success? ==>
                && gateway != null && pending == map[]
                && StepsWith(old(Sent()), Sent(), gateway.sessionId, old(pending), stepSize)
                && OpenSession(Sent()) == Some(gateway.sessionId)
                && RemoteInputs(Sent()) == direct
      ensures status.Success? ==>
                var snapshot := SnapshotAwaited(
                  old(if gateway == null then 0 else gateway.issued),
                  old(if gateway == null then [] else gateway.transport.inbox), old(pending) != map[]);
                && currentTime == snapshot.simTime && cached == AbsorbedAll(model, old(cached), snapshot.values)
                && OutputsTaken(model, old(cached), cached, snapshot.values)
    {
      hide Ordered, OpenSession, RemoteInputs, GatewayClient.Valid, Answers, OneMore, ValidModel, AllCached, AllSuit,
           AbsorbedAll, OutputsTaken, Awaited, LeftUnread, SnapshotOf;
      if gateway == null {
        return Failure(NOT_CONFIGURED);
      }
      if state != Initialized && state != Running {
        return Failure(STATE_ERROR);
      }
      status := FlushInputs();
      if status.Failure? {
        return;
      }
      status := StepOnly(stepSize);
    }

    method StepOnly(stepSize: real) returns (status: Result<()>)
      requires Valid() && gateway != null && Simulating(state) && pending == map[]
      modifies this`state, this`currentTime, this`cached, this`lastError, gateway, gateway.transport
      ensures Valid()
      ensures state == if status.Success? then Running else Error
      ensures status.Success? ==>
                && gateway.sessionId == old(gateway.sessionId)
                && Steps(old(Sent()), Sent(), gateway.sessionId, stepSize)
                && OpenSession(Sent()) == Some(gateway.sessionId) && RemoteInputs(Sent()) == direct
      ensures status.Success? ==>
                var snapshot := SnapshotAwaited(old(gateway.issued), old(gateway.transport.inbox), false);
                && currentTime == snapshot.simTime && cached == AbsorbedAll(model, old(cached), snapshot.values)
                && OutputsTaken(model, old(cached), cached, snapshot.values)
    {
      hide Ordered, OpenSession, RemoteInputs, Coherent, GatewayClient.Valid, Answers, OneMore, ValidModel, AllCached,
           AllSuit, Added, AbsorbedAll, OutputsTaken, Awaited, SnapshotOf;
      ghost var before, connected := gateway.log, gateway.transport.connected;
      var outputs := gateway.StepBy(stepSize);
      if outputs.Failure? {
        ErrorIsCoherent(state, before, gateway.log, StepRequest(gateway.sessionId, stepSize),
                        connected, gateway.transport.connected, gateway.sessionId, pending, direct);
        state, lastError := Error, outputs.code;
        return Failure(outputs.code);
      }
      StepWasAdded(before, gateway.log, gateway.sessionId, stepSize);
      StepIsCoherent(state, before, gateway.log, gateway.sessionId, direct, stepSize);
      ApplyOutputSnapshot(outputs.value);
      if state == Initialized {
        status := Transition(Running);
        if status.Failure? {
          return;
        }
      }
      status := Success(());
    }

    /** Without a gateway there is nothing to do; a failure leaves the state, but the connection is gone. */
    method TerminateRuntime() returns (status: Result<()>)
      requires Valid()
      modifies Footprint()
      ensures Valid() && gateway == old(gateway)
      ensures CanMove(old(state), state)
      ensures (config, experiment) == old((config, experiment))
      ensures old(gateway) == null ==> status.Success? && state == old(state)
      ensures old(gateway) != null ==>
                && !gateway.transport.connected
                && state == (if status.Success? then Terminated else old(state))
                && pending == old(pending) && direct == old(direct) && cached == old(cached)
      ensures old(gateway) != null && old(gateway.transport.connected) ==>
                && Added(old(Sent()), Sent(), TerminateRequest(old(gateway.sessionId)), status.Success?)
                && gateway.sessionId == ""
      ensures old(gateway) != null && !old(gateway.transport.connected) ==> status.Success? && Sent() == old(Sent())
    {
      hide Coherent, Added, OpenSession, RemoteInputs, GatewayClient.Valid, Answers, OneMore, ValidModel, AllCached,
           AllSuit;
      if gateway == null {
        return Success(());
      }
      ghost var before, id, connected := gateway.log, gateway.sessionId, gateway.transport.connected;
      status := gateway.TerminateSession();
      TerminateIsCoherent(state, before, gateway.log, status.Success?, connected, id, gateway.sessionId,
                          pending, direct);
      if status.Failure? {
        lastError := status.code;
        return;
      }
      state := Terminated;
    }

    /** A reset forgets every input. Without a connection the simulation is not told. */
    method Reset() returns (status: Result<()>)
      requires Valid()
      modifies Footprint()
      ensures Valid() && gateway == old(gateway) && model == old(model)
      ensures CanMove(old(state), state)
      ensures (config, experiment) == old((config, experiment))
      ensures status.Success? ==>
                && state == Instantiated && pending == map[] && direct == map[]
                && cached == Seeded(model, |model.variables|) && IsSeeded(model, cached)
                && currentTime == experiment.startTime
      ensures status.Failure? ==>
                && state == Error && gateway != null && old(gateway.transport.connected)
                && cached == old(cached)
      ensures old(gateway != null && gateway.transport.connected) ==>
                Added(old(Sent()), Sent(), ResetRequest(old(gateway.sessionId)), status.Success?)
      ensures !old(gateway != null && gateway.transport.connected) ==> status.Success? && Sent() == old(Sent())
    {
      hide Coherent, Added, OpenSession, RemoteInputs, GatewayClient.Valid, Answers, OneMore, ValidModel, AllCached,
           AllSuit, Seeded, IsSeeded;
      if gateway != null {
        status := TellReset();
        if status.Failure? {
          return;
        }
      }
      SeedCache();
      SeededAll(model);
      pending, direct := map[], map[];
      NoneSuits(model);
      currentTime := experiment.startTime;
      state := Instantiated;
      status := Success(());
    }

    /** The request of a reset, if there is a connection. */
    method TellReset() returns (status: Result<()>)
      requires Valid() && gateway != null
      modifies this`state, this`lastError, gateway, gateway.transport
      ensures gateway.Valid() && (status.Failure? ==> Valid())
      ensures Coherent(Instantiated, gateway.log, gateway.transport.connected, gateway.sessionId, map[], map[])
      ensures old(gateway.transport.connected) ==>
                Added(old(Sent()), Sent(), ResetRequest(old(gateway.sessionId)), status.Success?)
      ensures !old(gateway.transport.connected) ==> status.Success? && Sent() == old(Sent())
      ensures state == if status.Success? then old(state) else Error
    {
      hide Added, OpenSession, RemoteInputs, GatewayClient.Valid, Answers, OneMore, ValidModel, AllCached, AllSuit;
      if !gateway.transport.connected {
        return Success(());
      }
      ghost var before := gateway.log;
      status := gateway.ResetSession();
      AddedKeepsOrder(before, gateway.log, ResetRequest(gateway.sessionId), status.Success?);
      if status.Failure? {
        state, lastError := Error, status.code;
      }
    }

    /** The pending inputs are converted back by the other side without a loss. */
    lemma PendingSurvivesWire(name: string) returns (i: nat)
      requires Valid() && name in pending
      ensures i < |model.variables| && model.variables[i].name == name
      ensures ConvertJsonValue(ToJsonValue(pending[name]), model.variables[i]) == Some(pending[name])
    {
      hide ValueFits, ConvertJsonValue, ToJsonValue, Coherent;
      assert SuitsSome(model, name, pending[name]);
      i :| && 0 <= i < |model.variables| && model.variables[i].name == name
           && ValueFits(pending[name], model.variables[i]);
      WireRoundTrip(pending[name], model.variables[i]);
    }

    method SetValue(variable: VariableInfo, value: ScalarValue)
      requires Valid() && variable in model.variables && ValueFits(value, variable)
      modifies this`cached, this`pending, this`direct
      ensures Valid()
      ensures cached == Apply(old(cached), Write(variable, value))
      ensures pending == old(pending)[variable.name := value] && direct == old(direct)[variable.name := value]
    {
      hide Ordered, OpenSession, RemoteInputs, GatewayClient.Valid, Answers, OneMore, ValidModel, AllSuit, ValueFits;
      OneMoreSuits(model, pending, variable, value);
      cached := cached[variable.valueReference := value];
      pending := pending[variable.name := value];
      direct := direct[variable.name := value];
      if gateway != null {
        assert RemoteInputs(gateway.log) + pending
            == (RemoteInputs(gateway.log) + old(pending))[variable.name := value];
      }
    }

    /** The numeric setters: the writes of `SetValues`, to the cache and to the pending inputs alike. */
    method SetNumericValues(
        references: array?<int>, count: nat, values: array?<Numeric>, valueCount: nat, element: Element)
      returns (status: Result<()>)
      requires Valid()
      requires references != null ==> count <= references.Length
      requires values != null ==> Width(count, valueCount) <= values.Length
      requires values != null ==> AllConform(element, values[..])
      modifies this`cached, this`pending, this`direct
      ensures Valid()
      ensures references == null || values == null ==>
                status == Failure("INVALID_ARGUMENT") && (cached, pending, direct) == old((cached, pending, direct))
      ensures references != null && values != null ==>
                var width := Width(count, valueCount);
                var outcome := SetValues(model, old(cached), references[..count], values[..width], element);
                && status == outcome.status
                && cached == ApplyAll(old(cached), outcome.writes)
                && pending == NamedAll(old(pending), outcome.writes)
                && direct == NamedAll(old(direct), outcome.writes)
      ensures references != null && values != null ==>
                var given := if valueCount == 0 then count else valueCount;
                exists writes: seq<Write> ::
                  && IsChecked(model, old(cached), references[..count], values[..given], element, writes, status)
                  && Assigned(old(cached), cached, ReferencesOf(writes), ValuesOf(writes))
                  && Assigned(old(pending), pending, NamesOf(writes), ValuesOf(writes))
                  && Assigned(old(direct), direct, NamesOf(writes), ValuesOf(writes))
    {
      if references == null || values == null {
        return Failure(INVALID_ARGUMENT);
      }
      hide SetFrom, ExpectedCount, Valid, IsChecked, Assigned;
      ghost var outcome := SetValues(model, cached, references[..count], values[..Width(count, valueCount)], element);
      SetValuesIs(model, cached, references[..count], values[..Width(count, valueCount)], element);
      WritesAreAssigned(cached, pending, outcome.writes);
      WritesAreAssigned(cached, direct, outcome.writes);
      var listed, width := references[..count], Width(count, valueCount);
      var expected := ExpectedValueCount(model, cached, listed);
      if expected != width {
        return Failure(INVALID_ARGUMENT);
      }
      status := SetEach(listed, values[..width], element);
    }

    method SetEach(references: seq<int>, values: seq<Numeric>, element: Element) returns (status: Result<()>)
      requires Valid() && AllConform(element, values)
      modifies this`cached, this`pending, this`direct
      ensures Valid()
      ensures var outcome := SetFrom(model, old(cached), references, values, element);
              && status == outcome.status
              && cached == ApplyAll(old(cached), outcome.writes)
              && pending == NamedAll(old(pending), outcome.writes)
              && direct == NamedAll(old(direct), outcome.writes)
    {
      hide SetFrom, GatewayClient.Valid, Coherent, AllCached, AllSuit, ValueFits, NextVariable, FlatSize, Stored,
           ApplyAll, NamedAll, FindByValueReference, ValidModel, Continued;
      var offset, index := 0, 0;
      ghost var outcome := SetFrom(model, cached, references, values, element);
      ghost var done: seq<Write> := [];
      assert references[0..] == references && values[0..] == values;
      NothingDone(cached, pending, direct, outcome);
      while index < |references|
        invariant 0 <= index <= |references| && 0 <= offset <= |values|
        invariant Valid() && ValidModel(model)
        invariant outcome == Continued(done, SetFrom(model, cached, references[index..], values[offset..], element))
        invariant Wrote(old(cached), old(pending), old(direct), done)
      {
        SetUnfold(model, cached, references, index, values, offset, element);
        var variable := NextVariable(model, references[index], element);
        if variable.Failure? {
          NothingLater(done, variable.code);
          return Failure(variable.code);
        }
        var size := ResolveVariableFlatSize(model, cached, variable.value);
        if size == 0 || offset + size > |values| {
          NothingLater(done, INVALID_ARGUMENT);
          return Failure(INVALID_ARGUMENT);
        }
        var value := StoredValue(variable.value, values[offset..offset + size], element);
        if value.None? {
          NothingLater(done, TYPE_MISMATCH);
          return Failure(TYPE_MISMATCH);
        }
        ElementFits(model, references[index], values[offset..offset + size], element);
        SetValue(variable.value, value.value);
        ghost var write := Write(variable.value, value.value);
        OneMoreDone(old(cached), old(pending), old(direct), done, write,
                    SetFrom(model, cached, references[index + 1..], values[offset + size..], element));
        done := done + [write];
        offset := offset + size;
        index := index + 1;
      }
      NothingLeft(model, cached, done, references[index..], values[offset..], element);
      status := Success(());
    }

    ghost predicate Wrote(cache: Cache, waiting: Inputs, last: Inputs, done: seq<Write>)
      reads this
    {
      && cached == ApplyAll(cache, done)
      && pending == NamedAll(waiting, done) && direct == NamedAll(last, done)
    }
  }

  lemma NothingDone(cache: Cache, waiting: Inputs, last: Inputs, outcome: SetOutcome)
    ensures ApplyAll(cache, []) == cache && NamedAll(waiting, []) == waiting && NamedAll(last, []) == last
    ensures Continued([], outcome) == outcome
  {
    assert [] + outcome.writes == outcome.writes;
  }

  lemma NothingLater(done: seq<Write>, code: string)
    ensures Continued(done, SetOutcome([], Failure(code))) == SetOutcome(done, Failure(code))
  {
    assert done + [] == done;
  }

  lemma NothingLeft(
      model: ModelDescription, cache: Cache, done: seq<Write>, references: seq<int>, values: seq<Numeric>,
      element: Element)
    requires ValidModel(model) && AllConform(element, values) && references == []
    ensures Continued(done, SetFrom(model, cache, references, values, element)) == SetOutcome(done, Success(()))
  {
    assert done + [] == done;
  }

  lemma OneMoreDone(cache: Cache, waiting: Inputs, last: Inputs, done: seq<Write>, write: Write, later: SetOutcome)
    ensures ApplyAll(cache, done + [write]) == Apply(ApplyAll(cache, done), write)
    ensures NamedAll(waiting, done + [write]) == NamedAll(waiting, done)[write.variable.name := write.value]
    ensures NamedAll(last, done + [write]) == NamedAll(last, done)[write.variable.name := write.value]
    ensures Continued(done, Continued([write], later)) == Continued(done + [write], later)
  {
    ApplyOneMore(cache, done, write);
    NamedOneMore(waiting, done, write);
    NamedOneMore(last, done, write);
    Associate(done, [write], later.writes);
  }

  lemma {:induction false} ApplyOneMore(cache: Cache, done: seq<Write>, write: Write)
    ensures ApplyAll(cache, done + [write]) == Apply(ApplyAll(cache, done), write)
    decreases |done|
  {
    if done == [] {
      assert done + [write] == [write];
    } else {
      assert (done + [write])[1..] == done[1..] + [write];
      ApplyOneMore(Apply(cache, done[0]), done[1..], write);
    }
  }

  lemma {:induction false} NamedOneMore(inputs: Inputs, done: seq<Write>, write: Write)
    ensures NamedAll(inputs, done + [write]) == NamedAll(inputs, done)[write.variable.name := write.value]
    decreases |done|
  {
    if done == [] {
      assert done + [write] == [write];
    } else {
      assert (done + [write])[1..] == done[1..] + [write];
      NamedOneMore(inputs[done[0].variable.name := done[0].value], done[1..], write);
    }
  }

  lemma {:induction false} WritesAreAssigned(cache: Cache, inputs: Inputs, writes: seq<Write>)
    ensures Assigned(cache, ApplyAll(cache, writes), ReferencesOf(writes), ValuesOf(writes))
    ensures Assigned(inputs, NamedAll(inputs, writes), NamesOf(writes), ValuesOf(writes))
    decreases |writes|
  {
    hide Assigned;
    if writes == [] {
      NothingAssigned(cache);
      NothingAssigned(inputs);
      assert ReferencesOf(writes) == [] && NamesOf(writes) == [] && ValuesOf(writes) == [];
    } else {
      var n := |writes| - 1;
      var fewer, last := writes[..n], writes[n];
      WritesAreAssigned(cache, inputs, fewer);
      assert writes == fewer + [last];
      ApplyOneMore(cache, fewer, last);
      NamedOneMore(inputs, fewer, last);
      var reference, name := last.variable.valueReference, last.variable.name;
      OneMoreAssigned(cache, ApplyAll(cache, fewer), ReferencesOf(fewer), ValuesOf(fewer), reference, last.value);
      OneMoreAssigned(inputs, NamedAll(inputs, fewer), NamesOf(fewer), ValuesOf(fewer), name, last.value);
      assert ReferencesOf(writes) == ReferencesOf(fewer) + [reference] && NamesOf(writes) == NamesOf(fewer) + [name];
      assert ValuesOf(writes) == ValuesOf(fewer) + [last.value];
    }
  }

  lemma NothingAssigned<K(!new)>(before: map<K, ScalarValue>)
    ensures Assigned(before, before, [], [])
  {
  }

  /** One variable of a set call. */
  lemma SetUnfold(
      model: ModelDescription, cache: Cache, references: seq<int>, i: nat, values: seq<Numeric>, offset: nat,
      element: Element)
    requires ValidModel(model) && AllConform(element, values) && i < |references| && offset <= |values|
    ensures var next := NextVariable(model, references[i], element);
            var outcome := SetFrom(model, cache, references[i..], values[offset..], element);
            && (next.Failure? ==> outcome == SetOutcome([], Failure(next.code)))
            && (next.Success? ==>
                  var size := FlatSize(model, cache, next.value);
                  if size == 0 || offset + size > |values| then outcome == SetOutcome([], Failure(INVALID_ARGUMENT))
                  else
                    var value := Stored(next.value, values[offset..offset + size], element);
                    if value.None? then outcome == SetOutcome([], Failure(TYPE_MISMATCH))
                    else
                      var write := Write(next.value, value.value);
                      outcome == Continued([write], SetFrom(model, Apply(cache, write), references[i + 1..],
                                                            values[offset + size..], element)))
  {
    hide FlatSize, Stored, Accepts;
    var next := NextVariable(model, references[i], element);
    if next.Success? {
      var size := FlatSize(model, cache, next.value);
      if offset + size <= |values| {
        assert values[offset..][..size] == values[offset..offset + size];
        assert values[offset..][size..] == values[offset + size..];
      }
      assert references[i..][1..] == references[i + 1..];
    }
  }

  /** A setter looks variables up in the model, and stores what fits them. */
  lemma ElementFits(model: ModelDescription, reference: int, numbers: seq<Numeric>, element: Element)
    requires ValidModel(model) && numbers != [] && AllConform(element, numbers)
    requires NextVariable(model, reference, element).Success?
    requires Stored(NextVariable(model, reference, element).value, numbers, element).Some?
    ensures var variable := NextVariable(model, reference, element).value;
            variable in model.variables && ValueFits(Stored(variable, numbers, element).value, variable)
  {
    hide Stored, ValueFits;
    StoredFits(NextVariable(model, reference, element).value, numbers, element);
  }

  lemma FreshIsCoherent(state: State, sessionId: string)
    ensures Coherent(state, [], false, sessionId, map[], map[])
  {
  }

  lemma CreateIsCoherent(
      before: Log, after: Log, config: RuntimeConfig, connected: bool, now: bool, sessionId: string, created: string,
      pending: Inputs, direct: Inputs)
    requires Coherent(Instantiated, before, connected, sessionId, pending, direct)
    requires exists ok :: Added(before, after, CreateRequest(config), ok)
    ensures Coherent(Error, after, now, created, pending, direct)
    ensures Coherent(SessionCreated, after, now, created, pending, direct)
  {
    if after != before {
      AddedEffect(before, after, CreateRequest(config), after[|before|].acknowledged);
    }
  }

  /** What the reply to a step says: its request is the second one if inputs are sent before it. */
  ghost function SnapshotAwaited(issued: nat, inbox: seq<string>, flush: bool): OutputSnapshot {
    var reply := if flush then Awaited(issued + 2, LeftUnread(issued + 1, inbox)) else Awaited(issued + 1, inbox);
    if reply.Success? then SnapshotOf(reply.value) else OutputSnapshot(0.0, [])
  }

  /** The wire traffic of a step: the pending inputs, if any, and then the step, both acknowledged. */
  ghost predicate StepsWith(before: Log, after: Log, sessionId: string, pending: Inputs, stepSize: real) {
    exists middle: Log :: Flushes(before, middle, sessionId, pending) && Steps(middle, after, sessionId, stepSize)
  }

  ghost predicate Flushes(before: Log, after: Log, sessionId: string, pending: Inputs) {
    if pending == map[] then after == before
    else after != before && Added(before, after, InputsRequest(sessionId, pending), true)
  }

  ghost predicate Steps(before: Log, after: Log, sessionId: string, stepSize: real) {
    after != before && Added(before, after, StepRequest(sessionId, stepSize), true)
  }

  lemma StepWasAdded(before: Log, after: Log, sessionId: string, stepSize: real)
    requires Added(before, after, StepRequest(sessionId, stepSize), true)
    ensures Steps(before, after, sessionId, stepSize)
  {
  }

  lemma StepIsCoherent(state: State, before: Log, after: Log, sessionId: string, direct: Inputs, stepSize: real)
    requires Coherent(state, before, true, sessionId, map[], direct) && Simulating(state)
    requires Steps(before, after, sessionId, stepSize)
    ensures Coherent(Running, after, true, sessionId, map[], direct)
    ensures OpenSession(after) == Some(sessionId) && RemoteInputs(after) == direct
  {
    hide Ordered, OpenSession, RemoteInputs;
    AddedEffect(before, after, StepRequest(sessionId, stepSize), true);
    assert RemoteInputs(before) + map[] == RemoteInputs(before);
  }

  lemma InitializeIsCoherent(
      before: Log, after: Log, sessionId: string, config: RuntimeConfig, experiment: Experiment, ok: bool,
      connected: bool, now: bool, pending: Inputs, direct: Inputs)
    requires Coherent(SessionCreated, before, connected, sessionId, pending, direct)
    requires Added(before, after, InitializeRequest(sessionId, config, experiment, pending), ok)
    ensures ok ==> Coherent(Initialized, after, now, sessionId, map[], direct)
    ensures ok ==> OpenSession(after) == Some(sessionId) && RemoteInputs(after) == direct
    ensures !ok ==> Coherent(Error, after, now, sessionId, pending, direct)
  {
    hide Ordered, OpenSession, RemoteInputs;
    var asked := InitializeRequest(sessionId, config, experiment, pending);
    AddedKeepsOrder(before, after, asked, ok);
    if ok {
      AddedEffect(before, after, asked, ok);
      assert pending + map[] == pending;
    }
  }

  lemma NothingFlushed(log: Log, sessionId: string)
    ensures Flushes(log, log, sessionId, map[])
  {
  }

  lemma FlushIsCoherent(
      state: State, before: Log, after: Log, ok: bool, connected: bool, now: bool, sessionId: string,
      pending: Inputs, direct: Inputs)
    requires Coherent(state, before, connected, sessionId, pending, direct) && Simulating(state) && pending != map[]
    requires Added(before, after, InputsRequest(sessionId, pending), ok) && (!connected ==> after == before)
    ensures ok ==> Coherent(state, after, now, sessionId, map[], direct) && Flushes(before, after, sessionId, pending)
    ensures !ok ==> Coherent(Error, after, now, sessionId, pending, direct)
  {
    hide Ordered, OpenSession, RemoteInputs;
    AddedKeepsOrder(before, after, InputsRequest(sessionId, pending), ok);
    if ok {
      AddedEffect(before, after, InputsRequest(sessionId, pending), ok);
      assert RemoteInputs(after) + map[] == RemoteInputs(after);
    }
  }

  /** Without its connection, a session that was not terminated is as good as terminated. */
  lemma TerminateIsCoherent(
      state: State, before: Log, after: Log, ok: bool, connected: bool, sessionId: string, cleared: string,
      pending: Inputs, direct: Inputs)
    requires Coherent(state, before, connected, sessionId, pending, direct)
    requires after == before || Added(before, after, TerminateRequest(sessionId), ok)
    ensures Coherent(state, after, false, cleared, pending, direct)
    ensures Coherent(Terminated, after, false, cleared, pending, direct)
  {
    hide Ordered, OpenSession, RemoteInputs;
    if after != before {
      AddedKeepsOrder(before, after, TerminateRequest(sessionId), ok);
      AddedEffect(before, after, TerminateRequest(sessionId), ok);
    }
  }

  /** Whatever was added, an error claims no more than the order of the requests. */
  lemma ErrorIsCoherent(
      state: State, before: Log, after: Log, asked: Request, connected: bool, now: bool, sessionId: string,
      pending: Inputs, direct: Inputs)
    requires Coherent(state, before, connected, sessionId, pending, direct) && Simulating(state)
    requires Added(before, after, asked, false) && asked.sessionId == sessionId && (!connected ==> after == before)
    ensures Coherent(Error, after, now, sessionId, pending, direct)
  {
    AddedKeepsOrder(before, after, asked, false);
  }

  function NamedAll(inputs: Inputs, writes: seq<Write>): Inputs
    decreases |writes|
  {
    if writes == [] then inputs
    else NamedAll(inputs[writes[0].variable.name := writes[0].value], writes[1..])
  }

  ghost function Continued(done: seq<Write>, later: SetOutcome): SetOutcome {
    SetOutcome(done + later.writes, later.status)
  }
}
