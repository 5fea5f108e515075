/**
 The requests of the gateway client, and the JSON messages that they are sent as: which member of a
 message says what.
 */
module Messages {
  import opened Common
  import opened Json
  import opened JsonRoundTrip
  import opened JsonAcceptance
  import opened Values

  type Members = seq<Member>

  // ---------------------------------------------------------------------------------------------
  // Reading members

  function FindMember(members: Members, key: string): Option<Json> {
    if members == [] then None
    else if members[0].key == key then Some(members[0].value)
    else FindMember(members[1..], key)
  }

  function JsonString(members: Members, key: string, fallback: string := ""): string {
    match FindMember(members, key)
    case Some(String(text)) => text
    case _ => fallback
  }

  function JsonNumber(members: Members, key: string, fallback: real): real {
    match FindMember(members, key)
    case Some(Number(value)) => value
    case _ => fallback
  }

  /** In a map, a member is found exactly if it is there; what is not there, or of another type, is the fallback. */
  lemma {:induction false} FoundIff(members: Members, key: string, value: Json)
    requires Sorted(members)
    ensures FindMember(members, key) == Some(value) <==> Member(key, value) in members
  {
    if members != [] {
      var head, tail := members[0], members[1..];
      assert members == [head] + tail;
      FoundIff(tail, key, value);
      if head.key == key && Member(key, value) in tail {
        var j :| 0 <= j < |tail| && tail[j] == Member(key, value);
        assert Before(members[0].key, members[j + 1].key);
        NotBeforeItself(key);
      }
    }
  }

  lemma StringRead(members: Members, key: string, fallback: string)
    requires Sorted(members)
    ensures forall text | Member(key, Json.String(text)) in members :: JsonString(members, key, fallback) == text
    ensures (forall text :: Member(key, Json.String(text)) !in members) ==>
              JsonString(members, key, fallback) == fallback
  {
    hide FindMember, Sorted;
    forall value ensures FindMember(members, key) == Some(value) <==> Member(key, value) in members {
      FoundIff(members, key, value);
    }
  }

  lemma {:induction false} NotBeforeItself(x: string)
    ensures !Before(x, x)
  {
    if x != "" {
      NotBeforeItself(x[1..]);
    }
  }

  // ---------------------------------------------------------------------------------------------
  // Requests

  datatype Kind = Create | Initialize | SetInputs | Step | Reset | Terminate

  datatype TimeMode = SimTime | RealTime

  datatype RuntimeConfig = RuntimeConfig(
    gatewayUrl: string, labId: string, reservationKey: string, sessionTicket: string, timeMode: TimeMode)

  datatype Experiment = Experiment(startTime: real, stopTime: real, stepSize: real)

  /** What the requests that open a session carry besides. */
  datatype Details =
    | NoDetails
    | Ticket(labId: string, reservationKey: string, sessionTicket: string)
    | Options(timeMode: TimeMode, experiment: Experiment)

  datatype Request = Request(
    kind: Kind, requestId: string, sessionId: string, inputs: map<string, ScalarValue>, deltaT: real, details: Details)

  // The requests, yet without an id.

  function CreateRequest(config: RuntimeConfig): Request {
    Request(Create, "", "", map[], 0.0, Ticket(config.labId, config.reservationKey, config.sessionTicket))
  }

  function InitializeRequest(
      sessionId: string, config: RuntimeConfig, experiment: Experiment, inputs: map<string, ScalarValue>): Request
  {
    Request(Initialize, "", sessionId, inputs, 0.0, Options(config.timeMode, experiment))
  }

  function InputsRequest(sessionId: string, values: map<string, ScalarValue>): Request {
    Request(SetInputs, "", sessionId, values, 0.0, NoDetails)
  }

  function StepRequest(sessionId: string, deltaT: real): Request {
    Request(Step, "", sessionId, map[], deltaT, NoDetails)
  }

  function ResetRequest(sessionId: string): Request {
    Request(Reset, "", sessionId, map[], 0.0, NoDetails)
  }

  function TerminateRequest(sessionId: string): Request {
    Request(Terminate, "", sessionId, map[], 0.0, NoDetails)
  }

  // ---------------------------------------------------------------------------------------------
  // What a message says

  /** The value is an object, a map, with members for precisely these keys. */
  ghost predicate HasKeys(json: Json, keys: set<string>) {
    json.Object? && Sorted(json.members) && forall key :: FindMember(json.members, key).Some? <==> key in keys
  }

  ghost predicate Says(json: Json, key: string, value: Json) {
    json.Object? && FindMember(json.members, key) == Some(value)
  }

  ghost predicate SaysText(json: Json, key: string, text: string) {
    Says(json, key, Json.String(text))
  }

  /** The object has each input under its name, in the form that its values are sent in. */
  ghost predicate IsInputs(json: Json, inputs: map<string, ScalarValue>) {
    HasKeys(json, inputs.Keys) && forall name | name in inputs :: Says(json, name, ToJsonValue(inputs[name]))
  }

  ghost predicate IsOptions(json: Json, timeMode: TimeMode, experiment: Experiment, inputs: map<string, ScalarValue>) {
    && HasKeys(json, {"timeMode", "startTime", "stopTime", "stepSize"} + if inputs == map[] then {} else {"inputs"})
    && SaysText(json, "timeMode", if timeMode == SimTime then "simtime" else "realtime")
    && Says(json, "startTime", Json.Number(experiment.startTime))
    && Says(json, "stopTime", Json.Number(experiment.stopTime))
    && Says(json, "stepSize", Json.Number(experiment.stepSize))
    && (inputs != map[] ==> exists values :: Says(json, "inputs", values) && IsInputs(values, inputs))
  }

  ghost predicate IsClient(json: Json) {
    && HasKeys(json, {"name", "version"})
    && SaysText(json, "name", "decentralabs-proxy-runtime") && SaysText(json, "version", "0.1.0")
  }

  /** The kinds of requests that open a session carry details of their own. */
  predicate WellMade(request: Request) {
    && (request.kind == Create ==> request.details.Ticket?)
    && (request.kind == Initialize ==> request.details.Options?)
  }

  /** The message says what the request asks for, and nothing else. */
  ghost predicate Represents(json: Json, request: Request)
    requires WellMade(request)
  {
    var Request(kind, requestId, sessionId, inputs, deltaT, details) := request;
    && SaysText(json, "requestId", requestId)
    && (kind != Create ==> SaysText(json, "sessionId", sessionId))
    && match kind
       case Create =>
         && HasKeys(json, {"type", "requestId", "labId", "reservationKey", "sessionTicket", "client"})
         && SaysText(json, "type", "session.create") && SaysText(json, "labId", details.labId)
         && SaysText(json, "reservationKey", details.reservationKey)
         && SaysText(json, "sessionTicket", details.sessionTicket)
         && exists client :: Says(json, "client", client) && IsClient(client)
       case Initialize =>
         && HasKeys(json, {"type", "requestId", "sessionId", "options"}) && SaysText(json, "type", "sim.initialize")
         && exists options ::
              Says(json, "options", options) && IsOptions(options, details.timeMode, details.experiment, inputs)
       case SetInputs =>
         && HasKeys(json, {"type", "requestId", "sessionId", "values"}) && SaysText(json, "type", "sim.setInputs")
         && exists values :: Says(json, "values", values) && IsInputs(values, inputs)
       case Step =>
         && HasKeys(json, {"type", "requestId", "sessionId", "deltaT"}) && SaysText(json, "type", "sim.step")
         && Says(json, "deltaT", Json.Number(deltaT))
       case Reset =>
         HasKeys(json, {"type", "requestId", "sessionId"}) && SaysText(json, "type", "sim.reset")
       case Terminate =>
         HasKeys(json, {"type", "requestId", "sessionId"}) && SaysText(json, "type", "session.terminate")
  }

  // ---------------------------------------------------------------------------------------------
  // Building messages

  /** A `JsonObject` made from a list of members. */
  function ObjectOf(fields: Members): Json {
    Json.Object(Folded(fields, []))
  }

  function Folded(fields: Members, members: Members): Members
    decreases |fields|
  {
    if fields == [] then members else Folded(fields[1..], Emplaced(members, fields[0].key, fields[0].value))
  }

  lemma EmplacedFinds(members: Members, key: string, value: Json, other: string)
    requires Sorted(members)
    ensures Sorted(Emplaced(members, key, value))
    ensures FindMember(Emplaced(members, key, value), other) ==
            if FindMember(members, other).None? && other == key then Some(value) else FindMember(members, other)
  {
    hide Emplaced, FindMember, Sorted;
    var more := Emplaced(members, key, value);
    EmplacedStaysSorted(members, key, value);
    forall v: Json ensures FindMember(more, other) == Some(v) <==>
                           || FindMember(members, other) == Some(v)
                           || (other == key && v == value && FindMember(members, key).None?)
    {
      FoundIff(more, other, v);
      FoundIff(members, other, v);
      EmplacedHolds(members, key, value, Member(other, v));
      NoneHasIff(members, key);
    }
    if FindMember(more, other).Some? {
      var v := FindMember(more, other).value;
      assert FindMember(more, other) == Some(v);
    }
    if FindMember(members, other).Some? {
      var v := FindMember(members, other).value;
      assert FindMember(members, other) == Some(v);
    }
  }

  lemma {:induction false} NoneHasIff(members: Members, key: string)
    ensures NoneHas(members, key) <==> FindMember(members, key).None?
  {
    if members != [] {
      NoneHasIff(members[1..], key);
      assert members == [members[0]] + members[1..];
      assert members[0] in members;
    }
  }

  /** In an object made from a list, the first member with a key counts. */
  lemma {:induction false} FoldedFinds(fields: Members, members: Members, key: string)
    requires Sorted(members)
    ensures Sorted(Folded(fields, members))
    ensures FindMember(Folded(fields, members), key) ==
            if FindMember(members, key).Some? then FindMember(members, key) else FindMember(fields, key)
    decreases |fields|
  {
    if fields != [] {
      hide Emplaced, Sorted;
      EmplacedFinds(members, fields[0].key, fields[0].value, key);
      FoldedFinds(fields[1..], Emplaced(members, fields[0].key, fields[0].value), key);
    }
  }

  lemma ObjectFinds(fields: Members)
    ensures ObjectOf(fields).Object? && Sorted(ObjectOf(fields).members)
    ensures forall key :: FindMember(ObjectOf(fields).members, key) == FindMember(fields, key)
  {
    NothingIsSorted();
    FoldedFinds(fields, [], "");
    forall key ensures FindMember(ObjectOf(fields).members, key) == FindMember(fields, key) {
      FoldedFinds(fields, [], key);
    }
  }

  lemma {:induction false} FoundAt(fields: Members, key: string)
    ensures forall i | 0 <= i < |fields| && fields[i].key == key && (forall j | 0 <= j < i :: fields[j].key != key) ::
              FindMember(fields, key) == Some(fields[i].value)
    ensures FindMember(fields, key).Some? <==> exists i :: 0 <= i < |fields| && fields[i].key == key
  {
    if fields != [] {
      FoundAt(fields[1..], key);
      assert forall i | 0 < i < |fields| :: fields[i] == fields[1..][i - 1];
    }
  }

  ghost predicate DistinctKeys(fields: Members) {
    forall i, j | 0 <= i < j < |fields| :: fields[i].key != fields[j].key
  }

  ghost predicate HasKey(fields: Members, key: string) {
    exists i :: 0 <= i < |fields| && fields[i].key == key
  }

  /** An object made from a list with different keys says exactly what the list says. */
  lemma ObjectSays(fields: Members, keys: set<string>)
    requires DistinctKeys(fields) && forall key :: key in keys <==> HasKey(fields, key)
    ensures HasKeys(ObjectOf(fields), keys)
    ensures forall i | 0 <= i < |fields| :: Says(ObjectOf(fields), fields[i].key, fields[i].value)
  {
    hide FindMember, Sorted;
    var members := ObjectOf(fields).members;
    ObjectFinds(fields);
    forall key ensures FindMember(members, key).Some? <==> key in keys {
      FoundAt(fields, key);
    }
    forall i | 0 <= i < |fields| ensures FindMember(members, fields[i].key) == Some(fields[i].value) {
      FoundAt(fields, fields[i].key);
    }
  }

  /** `ToJsonObject`: one member for each input, in whatever order they come. */
  method ToJsonObject(inputs: map<string, ScalarValue>) returns (json: Json)
    ensures IsInputs(json, inputs)
  {
    hide ToJsonValue, Emplaced, Sorted, FindMember;
    var members: Members := [];
    var rest := inputs;
    NothingIsSorted();
    NothingFound();
    while rest != map[]
      invariant Sorted(members) && forall name | name in rest :: name in inputs && rest[name] == inputs[name]
      invariant forall name :: FindMember(members, name) ==
                               if name in inputs && name !in rest then Some(ToJsonValue(inputs[name])) else None
      decreases |rest|
    {
      var name :| name in rest;
      forall other ensures FindMember(Emplaced(members, name, ToJsonValue(inputs[name])), other) ==
                           if other == name then Some(ToJsonValue(inputs[name])) else FindMember(members, other)
      {
        EmplacedFinds(members, name, ToJsonValue(inputs[name]), other);
      }
      EmplacedFinds(members, name, ToJsonValue(inputs[name]), name);
      members := Emplaced(members, name, ToJsonValue(inputs[name]));
      rest := rest - {name};
    }
    json := Json.Object(members);
  }

  lemma NothingFound()
    ensures forall key :: FindMember([], key) == None
  {
  }

  function TimeModeText(mode: TimeMode): string {
    match mode case SimTime => "simtime" case RealTime => "realtime"
  }

  lemma KeysOfThree(fields: Members)
    requires |fields| == 3
    ensures forall key :: key in {fields[0].key, fields[1].key, fields[2].key} <==> HasKey(fields, key)
  {
  }

  lemma KeysOfFour(fields: Members)
    requires |fields| == 4
    ensures forall key :: key in {fields[0].key, fields[1].key, fields[2].key, fields[3].key} <==> HasKey(fields, key)
  {
  }

  method BuildOptions(timeMode: TimeMode, experiment: Experiment, inputs: map<string, ScalarValue>)
    returns (options: Json)
    ensures IsOptions(options, timeMode, experiment, inputs)
  {
    hide ObjectOf, IsInputs, FindMember, Sorted;
    var fields := [
      Member("timeMode", Json.String(TimeModeText(timeMode))),
      Member("startTime", Json.Number(experiment.startTime)),
      Member("stopTime", Json.Number(experiment.stopTime)),
      Member("stepSize", Json.Number(experiment.stepSize))];
    KeysOfFour(fields);
    ghost var keys := {"timeMode", "startTime", "stopTime", "stepSize"};
    if inputs != map[] {
      var values := ToJsonObject(inputs);
      ghost var fewer := fields;
      fields := fields + [Member("inputs", values)];
      assert forall i | 0 <= i < 4 :: fields[i] == fewer[i];
      OneMoreKey(fewer, Member("inputs", values));
      keys := keys + {"inputs"};
      assert Says(ObjectOf(fields), fields[4].key, fields[4].value) by {
        ObjectSays(fields, keys);
      }
    }
    options := ObjectOf(fields);
    ObjectSays(fields, keys);
    assert Says(options, fields[0].key, fields[0].value) && Says(options, fields[1].key, fields[1].value);
    assert Says(options, fields[2].key, fields[2].value) && Says(options, fields[3].key, fields[3].value);
  }

  lemma OneMoreKey(fields: Members, field: Member)
    ensures forall key :: HasKey(fields + [field], key) <==> HasKey(fields, key) || key == field.key
  {
    forall key ensures HasKey(fields + [field], key) <==> HasKey(fields, key) || key == field.key {
      var more := fields + [field];
      assert more[|fields|] == field;
      if HasKey(fields, key) {
        var i :| 0 <= i < |fields| && fields[i].key == key;
        assert more[i].key == key;
      }
    }
  }

  method BuildMessage(request: Request) returns (message: Json)
    requires WellMade(request)
    ensures Represents(message, request)
  {
    match request.kind {
      case Create => message := BuildCreate(request);
      case Initialize =>
        var options := BuildOptions(request.details.timeMode, request.details.experiment, request.inputs);
        message := BuildForSession("sim.initialize", request, [Member("options", options)]);
      case SetInputs =>
        var values := ToJsonObject(request.inputs);
        message := BuildForSession("sim.setInputs", request, [Member("values", values)]);
      case Step =>
        message := BuildForSession("sim.step", request, [Member("deltaT", Json.Number(request.deltaT))]);
      case Reset =>
        message := BuildForSession("sim.reset", request, []);
      case Terminate =>
        message := BuildForSession("session.terminate", request, []);
    }
  }

  method BuildForSession(kind: string, request: Request, more: Members) returns (message: Json)
    requires |more| <= 1 && (more != [] ==> more[0].key !in {"type", "requestId", "sessionId"})
    ensures HasKeys(message, {"type", "requestId", "sessionId"} + if more == [] then {} else {more[0].key})
    ensures SaysText(message, "type", kind) && SaysText(message, "requestId", request.requestId)
    ensures SaysText(message, "sessionId", request.sessionId)
    ensures more != [] ==> Says(message, more[0].key, more[0].value)
  {
    hide ObjectOf, FindMember, Sorted;
    var fields := [
      Member("type", Json.String(kind)),
      Member("requestId", Json.String(request.requestId)),
      Member("sessionId", Json.String(request.sessionId))];
    ghost var keys := {"type", "requestId", "sessionId"};
    KeysOfThree(fields);
    if more != [] {
      OneMoreKey(fields, more[0]);
      keys := keys + {more[0].key};
      fields := fields + [more[0]];
      assert fields[3] == more[0];
    }
    message := ObjectOf(fields);
    assert fields[0].key == "type" && fields[1].key == "requestId" && fields[2].key == "sessionId";
    ObjectSays(fields, keys);
  }

  method BuildCreate(request: Request) returns (message: Json)
    requires request.kind == Create && request.details.Ticket?
    ensures Represents(message, request)
  {
    hide ObjectOf, FindMember, Sorted;
    var Ticket(labId, reservationKey, sessionTicket) := request.details;
    var name := [Member("name", Json.String("decentralabs-proxy-runtime")), Member("version", Json.String("0.1.0"))];
    var client := ObjectOf(name);
    assert IsClient(client) by {
      KeysOfTwo(name);
      ObjectSays(name, {"name", "version"});
      assert Says(client, name[0].key, name[0].value) && Says(client, name[1].key, name[1].value);
    }
    var fields := [
      Member("type", Json.String("session.create")),
      Member("requestId", Json.String(request.requestId)),
      Member("labId", Json.String(labId)),
      Member("reservationKey", Json.String(reservationKey)),
      Member("sessionTicket", Json.String(sessionTicket)),
      Member("client", client)];
    message := ObjectOf(fields);
    KeysOfSix(fields);
    ObjectSays(fields, {"type", "requestId", "labId", "reservationKey", "sessionTicket", "client"});
    assert Says(message, fields[0].key, fields[0].value) && Says(message, fields[1].key, fields[1].value);
    assert Says(message, fields[2].key, fields[2].value) && Says(message, fields[3].key, fields[3].value);
    assert Says(message, fields[4].key, fields[4].value) && Says(message, fields[5].key, fields[5].value);
  }

  lemma KeysOfTwo(fields: Members)
    requires |fields| == 2
    ensures forall key :: key in {fields[0].key, fields[1].key} <==> HasKey(fields, key)
  {
  }

  lemma KeysOfSix(fields: Members)
    requires |fields| == 6
    ensures forall key ::
              key in {fields[0].key, fields[1].key, fields[2].key, fields[3].key, fields[4].key, fields[5].key} <==>
              HasKey(fields, key)
  {
  }
}
