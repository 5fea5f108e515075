/**
 The request/response client of the proxy runtime: one message a request, and the reply found among
 whatever else arrives by its request id.
 */
module Gateway {
  import opened Common
  import opened Json
  import opened Values
  import opened Messages
  import Decimal
  import JsonParser
  import JsonRoundTrip

  const PROTOCOL_ERROR := "GATEWAY_PROTOCOL_ERROR"
  const SESSION_CLOSED_ERROR := "GATEWAY_SESSION_CLOSED"

  const SESSION_CREATED := "session.created"
  const SESSION_CLOSED := "session.closed"
  const SIM_STATE := "sim.state"
  const SIM_OUTPUTS := "sim.outputs"
  const SIM_INPUTS_UPDATED := "sim.inputs.updated"
  const ERROR := "error"

  /** How many messages one request waits through. */
  const MAX_MESSAGES := 32

  // ---------------------------------------------------------------------------------------------
  // Reading replies

  function ParseResponseObject(payload: string): Result<Members> {
    match JsonParser.ParsedJson(payload)
    case Failure(code) => Failure(code)
    case Success(Object(members)) => Success(members)
    case Success(_) => Failure(PROTOCOL_ERROR)
  }

  function EnsureResponseType(response: Members, expected: string): Result<()> {
    if JsonString(response, "type") == expected then Success(())
    else if JsonString(response, "type") == ERROR then Failure(JsonString(response, "code", "GATEWAY_ERROR"))
    else Failure(PROTOCOL_ERROR)
  }

  /** A response that the loop passes over while it waits for the reply to `id`. */
  predicate PassedOver(response: Result<Members>, id: string) {
    && response.Success?
    && JsonString(response.value, "requestId") != id
    && JsonString(response.value, "type") != SESSION_CLOSED
  }

  /** What a request for `id` gets out of the messages that arrive, and how many of them it takes. */
  datatype Reply = Reply(result: Result<Members>, taken: nat)

  function ReplyAmong(id: string, responses: seq<Result<Members>>, attempts: nat): (reply: Reply)
    ensures reply.taken <= |responses| && reply.taken <= attempts
    decreases attempts
  {
    if attempts == 0 then Reply(Failure(PROTOCOL_ERROR), 0)
    else if responses == [] then Reply(Failure(RECEIVE_FAILED), 0)
    else
      var response := responses[0];
      if response.Failure? then Reply(response, 1)
      else if id == "" || JsonString(response.value, "requestId") == id then Reply(response, 1)
      else if JsonString(response.value, "type") == SESSION_CLOSED then Reply(Failure(SESSION_CLOSED_ERROR), 1)
      else
        var later := ReplyAmong(id, responses[1..], attempts - 1);
        Reply(later.result, later.taken + 1)
  }

  /** The messages, each taken for a response. */
  function Responses(inbox: seq<string>): (responses: seq<Result<Members>>)
    ensures |responses| == |inbox|
  {
    seq(|inbox|, i requires 0 <= i < |inbox| => ParseResponseObject(inbox[i]))
  }

  function ReplyTo(id: string, inbox: seq<string>, attempts: nat): (reply: Reply)
    ensures reply.taken <= |inbox| && reply.taken <= attempts
  {
    ReplyAmong(id, Responses(inbox), attempts)
  }

  /** A reply that is taken for request `id` carries that id, and only other messages came before it. */
  lemma {:induction false} ReplyCarriesItsId(id: string, responses: seq<Result<Members>>, attempts: nat)
    requires id != "" && ReplyAmong(id, responses, attempts).result.Success?
    ensures var reply := ReplyAmong(id, responses, attempts);
            && 0 < reply.taken <= attempts && reply.taken <= |responses|
            && responses[reply.taken - 1] == reply.result
            && JsonString(reply.result.value, "requestId") == id
            && forall i | 0 <= i < reply.taken - 1 :: PassedOver(responses[i], id)
    decreases attempts
  {
    hide JsonString;
    if JsonString(responses[0].value, "requestId") != id {
      ReplyCarriesItsId(id, responses[1..], attempts - 1);
      var reply := ReplyAmong(id, responses, attempts);
      forall i | 0 <= i < reply.taken - 1 ensures PassedOver(responses[i], id) {
        if i > 0 {
          assert responses[i] == responses[1..][i - 1];
        }
      }
    }
  }

  /** Conversely, a reply within the first messages is found, whatever harmless messages precede it. */
  lemma {:induction false} ReplyIsFound(id: string, responses: seq<Result<Members>>, attempts: nat, n: nat)
    requires id != "" && n < |responses| && n < attempts
    requires forall i | 0 <= i < n :: PassedOver(responses[i], id)
    requires responses[n].Success? && JsonString(responses[n].value, "requestId") == id
    ensures ReplyAmong(id, responses, attempts) == Reply(responses[n], n + 1)
    decreases attempts
  {
    hide JsonString;
    if n > 0 {
      assert PassedOver(responses[0], id);
      forall i | 0 <= i < n - 1 ensures PassedOver(responses[1..][i], id) {
        assert responses[1..][i] == responses[i + 1];
      }
      ReplyIsFound(id, responses[1..], attempts - 1, n - 1);
    }
  }

  /** What ends the wait, if anything does: the first message that is not passed over, or the lack of one. */
  lemma {:induction false} ReplyOfAnyInbox(id: string, responses: seq<Result<Members>>, attempts: nat, n: nat)
    requires id != "" && n <= attempts && n <= |responses|
    requires forall i | 0 <= i < n :: PassedOver(responses[i], id)
    requires n < attempts && n < |responses| ==> !PassedOver(responses[n], id)
    ensures var reply := ReplyAmong(id, responses, attempts);
            if n == attempts then reply == Reply(Failure("GATEWAY_PROTOCOL_ERROR"), n)
            else if n == |responses| then reply == Reply(Failure("TRANSPORT_RECEIVE_FAILED"), n)
            else
              var response := responses[n];
              reply == Reply(if response.Success? && JsonString(response.value, "requestId") != id
                             then Failure("GATEWAY_SESSION_CLOSED") else response, n + 1)
    decreases attempts
  {
    hide JsonString;
    if n > 0 {
      assert PassedOver(responses[0], id);
      forall i | 0 <= i < n - 1 ensures PassedOver(responses[1..][i], id) {
        assert responses[1..][i] == responses[i + 1];
      }
      ReplyOfAnyInbox(id, responses[1..], attempts - 1, n - 1);
    }
  }

  /** A message is passed over exactly if it is an object with another id that does not close the session. */
  lemma PassedOverIff(message: string, id: string)
    ensures PassedOver(ParseResponseObject(message), id) <==>
            exists members ::
              && JsonParser.ParsedJson(message) == Success(Json.Object(members))
              && JsonString(members, "requestId") != id && JsonString(members, "type") != "session.closed"
    ensures forall members :: ParseResponseObject(message) == Success(members) <==>
                              JsonParser.ParsedJson(message) == Success(Json.Object(members))
  {
    hide JsonString, JsonParser.ParsedJson;
  }

  /** The members of a reply are those of a map. */
  lemma ResponsesAreMaps(payload: string)
    ensures ParseResponseObject(payload).Success? ==> Sorted(ParseResponseObject(payload).value)
  {
    hide Sorted;
    JsonRoundTrip.ParsedIsWellFormed(payload);
  }

  // ---------------------------------------------------------------------------------------------
  // Request ids

  const COUNTER_LIMIT := 0x1_0000_0000_0000_0000

  /** The id of the n-th request of a client; the counter has 64 bits. */
  function RequestId(n: nat): string {
    "req-" + Decimal.ToString(n % COUNTER_LIMIT)
  }

  /** Two requests share an id exactly when they are a multiple of 2^64 requests apart. */
  lemma SameIdIff(m: nat, n: nat)
    ensures RequestId(m) == RequestId(n) <==> m % COUNTER_LIMIT == n % COUNTER_LIMIT
  {
    hide Decimal.ToString, Decimal.ParseUnsigned;
    var x, y := m % COUNTER_LIMIT, n % COUNTER_LIMIT;
    Decimal.RoundTrip(x);
    Decimal.RoundTrip(y);
    assert RequestId(m)[4..] == Decimal.ToString(x) && RequestId(n)[4..] == Decimal.ToString(y);
  }

  /**
   A reply to one request is never taken for another: what request n accepts as its reply cannot
   carry the id of any other request of the same client, as long as there are fewer than 2^64.
   */
  lemma LateReplyIsIgnored(m: nat, n: nat, responses: seq<Result<Members>>, attempts: nat)
    requires m < COUNTER_LIMIT && n < COUNTER_LIMIT && m != n
    ensures var reply := ReplyAmong(RequestId(n), responses, attempts);
            reply.result.Success? ==> JsonString(reply.result.value, "requestId") != RequestId(m)
  {
    hide ReplyAmong, RequestId, JsonString, PassedOver;
    assert RequestId(m) != RequestId(n) by {
      SameIdIff(m, n);
    }
    if ReplyAmong(RequestId(n), responses, attempts).result.Success? {
      IdIsNotEmpty(n);
      ReplyCarriesItsId(RequestId(n), responses, attempts);
    }
  }

  lemma IdIsNotEmpty(n: nat)
    ensures RequestId(n) != ""
  {
  }

  // ---------------------------------------------------------------------------------------------
  // What the gateway has been asked, and what it has acknowledged

  /** A request that went out, the number it had, and whether the expected answer came back. */
  datatype Exchange = Exchange(request: Request, number: nat, acknowledged: bool)

  type Log = seq<Exchange>

  predicate EndsSession(kind: Kind) {
    kind == Create || kind == Reset || kind == Terminate
  }

  predicate NeedsSession(kind: Kind) {
    kind == SetInputs || kind == Step
  }

  /** The session that is initialized after these exchanges, if any. */
  function OpenSession(log: Log): Option<string> {
    if log == [] then None
    else
      var last := log[|log| - 1];
      if EndsSession(last.request.kind) then None
      else if last.request.kind == Initialize then
        if last.acknowledged then Some(last.request.sessionId) else None
      else OpenSession(log[..|log| - 1])
  }

  /** The input values that the remote simulation holds after these exchanges. */
  function RemoteInputs(log: Log): map<string, ScalarValue> {
    if log == [] then map[]
    else
      var last := log[|log| - 1];
      if EndsSession(last.request.kind) then map[]
      else if last.request.kind == Initialize then if last.acknowledged then last.request.inputs else map[]
      else if last.request.kind == SetInputs && last.acknowledged then
        RemoteInputs(log[..|log| - 1]) + last.request.inputs
      else RemoteInputs(log[..|log| - 1])
  }

  /** Inputs and steps only ever went to an initialized session. */
  ghost predicate Ordered(log: Log) {
    forall i | 0 <= i < |log| && NeedsSession(log[i].request.kind) ::
      OpenSession(log[..i]) == Some(log[i].request.sessionId)
  }

  /** Requests are numbered in the order in which they were made, and carry the id of their number. */
  ghost predicate Numbered(log: Log, issued: nat) {
    && (forall i | 0 <= i < |log| ::
          0 < log[i].number <= issued && log[i].request.requestId == RequestId(log[i].number))
    && (forall i, j | 0 <= i < j < |log| :: log[i].number < log[j].number)
  }

  /** In full: the initialization that a step rests on was acknowledged, and nothing has ended its session since. */
  lemma {:induction false} StepFollowsInitialize(log: Log, i: nat)
    requires Ordered(log) && i < |log| && NeedsSession(log[i].request.kind)
    ensures exists j | 0 <= j < i ::
              && InitializesFor(log[j], log[i].request.sessionId)
              && forall k | j < k < i :: !EndsSession(log[k].request.kind)
  {
    var j := OpenedBy(log[..i]);
    assert InitializesFor(log[j], log[i].request.sessionId);
    forall k | j < k < i ensures !EndsSession(log[k].request.kind) {
      assert log[..i][k] == log[k];
    }
  }

  predicate InitializesFor(exchange: Exchange, sessionId: string) {
    exchange.request.kind == Initialize && exchange.acknowledged && exchange.request.sessionId == sessionId
  }

  lemma {:induction false} OpenedBy(log: Log) returns (j: nat)
    requires OpenSession(log).Some?
    ensures j < |log| && InitializesFor(log[j], OpenSession(log).value)
    ensures forall k | j < k < |log| :: !EndsSession(log[k].request.kind)
  {
    var n := |log| - 1;
    if log[n].request.kind == Initialize {
      j := n;
    } else {
      j := OpenedBy(log[..n]);
      forall k | j < k < n ensures !EndsSession(log[k].request.kind) {
        assert log[..n][k] == log[k];
      }
    }
  }

  /** An acknowledged request that gives `name` a value. */
  predicate Writes(exchange: Exchange, name: string) {
    && (exchange.request.kind == Initialize || exchange.request.kind == SetInputs)
    && exchange.acknowledged && name in exchange.request.inputs
  }

  /** Each remote input is what the last acknowledged request that mentions it said. */
  lemma {:induction false} RemoteInputIsLastWritten(log: Log, name: string) returns (j: nat)
    requires name in RemoteInputs(log)
    ensures j < |log| && Writes(log[j], name) && RemoteInputs(log)[name] == log[j].request.inputs[name]
    ensures forall k | j < k < |log| :: !Writes(log[k], name) && !EndsSession(log[k].request.kind)
  {
    var n := |log| - 1;
    if Writes(log[n], name) {
      j := n;
    } else {
      j := RemoteInputIsLastWritten(log[..n], name);
      forall k | j < k < n ensures !Writes(log[k], name) && !EndsSession(log[k].request.kind) {
        assert log[..n][k] == log[k];
      }
    }
  }

  /** No two requests of a client's life share an id, up to 2^64 of them. */
  lemma IdsNeverRepeat(log: Log, issued: nat, i: nat, j: nat)
    requires Numbered(log, issued) && issued < COUNTER_LIMIT && i < j < |log|
    ensures log[i].request.requestId != log[j].request.requestId
  {
    SameIdIff(log[i].number, log[j].number);
  }

  // ---------------------------------------------------------------------------------------------
  // The transport, message by message; its frames are the subject of another module

  class MessageTransport {
    var connected: bool
    var url: string
    var inbox: seq<string>
    /** The messages that went out, as they were before printing. */
    var sent: seq<Json>

    constructor ()
      ensures !connected && sent == []
    {
      connected, url, inbox, sent := false, "", [], [];
    }

    /** Connecting may fail; what the server will say on the new connection is anybody's guess. */
    method Connect(url: string) returns (ok: bool)
      modifies this
      ensures connected == ok && this.url == url && sent == old(sent)
    {
      ok := *;
      connected, inbox := ok, *;
      this.url := url;
    }

    method SendText(message: Json) returns (status: Result<()>)
      modifies this`sent
      ensures status.Success? ==> connected && sent == old(sent) + [message]
      ensures status.Failure? ==> sent == old(sent)
    {
      if !connected {
        return Failure(NOT_CONNECTED);
      }
      var ok: bool := *;
      if !ok {
        return Failure(SEND_FAILED);
      }
      sent := sent + [message];
      status := Success(());
    }

    /** The next message; when there is none, or a ping cannot be answered, the connection is gone. */
    method ReceiveText() returns (text: Result<string>)
      requires connected
      modifies this`connected, this`inbox
      ensures text.Success? ==>
                connected && old(inbox) != [] && text.value == old(inbox)[0] && inbox == old(inbox)[1..]
      ensures text.Failure? ==> !connected && (text.code != SEND_FAILED ==> old(inbox) == [])
    {
      var answered: bool := *;
      if inbox == [] || !answered {
        connected := false;
        return Failure(if answered then RECEIVE_FAILED else SEND_FAILED);
      }
      text := Success(inbox[0]);
      inbox := inbox[1..];
    }

    method Close()
      modifies this`connected, this`inbox
      ensures !connected
    {
      connected, inbox := false, [];
    }
  }

  // ---------------------------------------------------------------------------------------------
  // The client

  datatype OutputSnapshot = OutputSnapshot(simTime: real, values: Members)

  /** At most one exchange was added, for what was asked, and it was if the call succeeded. */
  ghost predicate Added(before: Log, after: Log, asked: Request, ok: bool) {
    || (after == before && !ok)
    || (|after| == |before| + 1 && before == after[..|before|]
        && var exchange := after[|before|];
           && exchange.request == asked.(requestId := exchange.request.requestId)
           && exchange.acknowledged == ok)
  }

  function SnapshotOf(response: Members): OutputSnapshot {
    OutputSnapshot(
      JsonNumber(response, "simTime", 0.0),
      match FindMember(response, "values") case Some(Object(members)) => members case _ => [])
  }

  /** The two members of a reply that a step reads. */
  lemma SnapshotReads(response: Members)
    requires Sorted(response)
    ensures var snapshot := SnapshotOf(response);
            && (forall t | Member("simTime", Json.Number(t)) in response :: snapshot.simTime == t)
            && ((forall t :: Member("simTime", Json.Number(t)) !in response) ==> snapshot.simTime == 0.0)
            && (forall values | Member("values", Json.Object(values)) in response :: snapshot.values == values)
            && ((forall values :: Member("values", Json.Object(values)) !in response) ==> snapshot.values == [])
  {
    hide FindMember, Sorted;
    forall key, value ensures FindMember(response, key) == Some(value) <==> Member(key, value) in response {
      FoundIff(response, key, value);
    }
  }

  /** The reply that request number `number` gets, and the messages that it leaves unread. */
  function Awaited(number: nat, inbox: seq<string>): Result<Members> {
    ReplyTo(RequestId(number), inbox, 32).result
  }

  function LeftUnread(number: nat, inbox: seq<string>): seq<string> {
    inbox[ReplyTo(RequestId(number), inbox, 32).taken..]
  }

  lemma RepresentsId(message: Json, request: Request)
    requires WellMade(request) && Represents(message, request)
    ensures SaysText(message, "requestId", request.requestId)
  {
  }

  // What the messages of the client ask for, by the members that the gateway looks at.

  ghost predicate AsksToCreate(message: Json, config: RuntimeConfig) {
    && SaysText(message, "type", "session.create") && SaysText(message, "labId", config.labId)
    && SaysText(message, "reservationKey", config.reservationKey)
    && SaysText(message, "sessionTicket", config.sessionTicket)
  }

  ghost predicate AsksToInitialize(
      message: Json, sessionId: string, config: RuntimeConfig, experiment: Experiment,
      inputs: map<string, ScalarValue>)
  {
    && SaysText(message, "type", "sim.initialize") && SaysText(message, "sessionId", sessionId)
    && exists options :: Says(message, "options", options) && IsOptions(options, config.timeMode, experiment, inputs)
  }

  ghost predicate AsksToSet(message: Json, sessionId: string, inputs: map<string, ScalarValue>) {
    && SaysText(message, "type", "sim.setInputs") && SaysText(message, "sessionId", sessionId)
    && exists values :: Says(message, "values", values) && IsInputs(values, inputs)
  }

  ghost predicate AsksToStep(message: Json, sessionId: string, deltaT: real) {
    && SaysText(message, "type", "sim.step") && SaysText(message, "sessionId", sessionId)
    && Says(message, "deltaT", Json.Number(deltaT))
  }

  ghost predicate AsksFor(message: Json, kind: string, sessionId: string) {
    SaysText(message, "type", kind) && SaysText(message, "sessionId", sessionId)
  }

  const NO_EXPERIMENT := Experiment(0.0, 0.0, 0.0)
  const NO_CONFIG := RuntimeConfig("", "", "", "", SimTime)

  /** One more message was sent. */
  ghost predicate OneMore(before: seq<Json>, after: seq<Json>) {
    |after| == |before| + 1 && after[..|before|] == before
  }

  /** The messages of the six requests. */
  lemma MessagesAsk(
      message: Json, requestId: string, sessionId: string, config: RuntimeConfig, experiment: Experiment,
      inputs: map<string, ScalarValue>, deltaT: real)
    ensures Represents(message, CreateRequest(config).(requestId := requestId)) ==> AsksToCreate(message, config)
    ensures Represents(message, InitializeRequest(sessionId, config, experiment, inputs).(requestId := requestId)) ==>
              AsksToInitialize(message, sessionId, config, experiment, inputs)
    ensures Represents(message, InputsRequest(sessionId, inputs).(requestId := requestId)) ==>
              AsksToSet(message, sessionId, inputs)
    ensures Represents(message, StepRequest(sessionId, deltaT).(requestId := requestId)) ==>
              AsksToStep(message, sessionId, deltaT)
    ensures Represents(message, ResetRequest(sessionId).(requestId := requestId)) ==>
              AsksFor(message, "sim.reset", sessionId)
    ensures Represents(message, TerminateRequest(sessionId).(requestId := requestId)) ==>
              AsksFor(message, "session.terminate", sessionId)
  {
    hide FindMember, Sorted, IsOptions, IsInputs, IsClient;
  }

  /** The reply to request number `number` is of this type. */
  ghost predicate Answers(number: nat, inbox: seq<string>, expected: string) {
    var reply := Awaited(number, inbox);
    reply.Success? && JsonString(reply.value, "type") == expected
  }

  class GatewayClient {
    const transport: MessageTransport
    var requestCounter: nat
    var sessionId: string

    /** How many requests were ever made, and those that went out. */
    ghost var issued: nat
    ghost var log: Log

    ghost predicate Valid()
      reads this
    {
      requestCounter == issued % COUNTER_LIMIT && Numbered(log, issued)
    }

    constructor (transport: MessageTransport)
      ensures Valid() && this.transport == transport && log == [] && sessionId == ""
    {
      this.transport := transport;
      requestCounter, sessionId := 0, "";
      issued, log := 0, [];
    }

    predicate IsConnected()
      reads this, transport
    {
      transport.connected
    }

    method EnsureConnected(url: string) returns (status: Result<()>)
      modifies transport
      ensures status.Success? ==> transport.connected
      ensures !old(transport.connected) ==> transport.url == url
      ensures transport.sent == old(transport.sent)
      ensures old(transport.connected) ==> status.Success? && transport.inbox == old(transport.inbox)
    {
      if transport.connected {
        return Success(());
      }
      var ok := transport.Connect(url);
      status := if ok then Success(()) else Failure(CONNECT_FAILED);
    }

    method NextRequestId() returns (id: string)
      requires Valid()
      modifies this`requestCounter, this`issued
      ensures Valid() && issued == old(issued) + 1 && id == RequestId(issued)
      ensures id == "req-" + Decimal.ToString(issued % 0x1_0000_0000_0000_0000)
    {
      hide RequestId;
      issued := issued + 1;
      requestCounter := (requestCounter + 1) % COUNTER_LIMIT;
      CounterIsIssued(issued - 1);
      id := "req-" + Decimal.ToString(requestCounter);
      IdOfCounter(issued);
    }

    /** Sends a request and waits for its reply; `went` tells whether it left at all. */
    method SendRequest(request: Json, ghost requestId: string) returns (result: Result<Members>, ghost went: bool)
      requires SaysText(request, "requestId", requestId) && requestId != ""
      modifies transport
      ensures went ==> old(transport.connected) && transport.sent == old(transport.sent) + [request]
      ensures went ==>
                result == ReplyTo(requestId, old(transport.inbox), 32).result
                || (result.Failure? && !transport.connected)
      ensures !went ==> result.Failure? && transport.sent == old(transport.sent)
      ensures result.Success? ==> transport.connected
      ensures result.Success? ==>
                var taken := ReplyTo(requestId, old(transport.inbox), 32).taken;
                transport.inbox == old(transport.inbox)[taken..]
      ensures !old(transport.connected) ==> !transport.connected
      ensures transport.url == old(transport.url)
    {
      hide ReplyTo, ParseResponseObject;
      went := false;
      if !transport.connected {
        return Failure(NOT_CONNECTED), false;
      }
      var id := JsonString(request.members, "requestId");
      assert id == requestId;
      hide JsonString;
      var status := transport.SendText(request);
      if status.Failure? {
        return Failure(status.code), false;
      }
      went := true;
      ghost var inbox := transport.inbox;
      var attempt := 0;
      while attempt < MAX_MESSAGES
        invariant 0 <= attempt <= MAX_MESSAGES && transport.connected
        invariant attempt <= |inbox| && transport.inbox == inbox[attempt..]
        invariant ReplyTo(id, inbox, MAX_MESSAGES)
               == Later(ReplyTo(id, transport.inbox, MAX_MESSAGES - attempt), attempt)
        invariant transport.sent == old(transport.sent) + [request] && transport.url == old(transport.url)
      {
        ReplyStep(id, transport.inbox, MAX_MESSAGES - attempt);
        var reply := transport.ReceiveText();
        if reply.Failure? {
          return Failure(reply.code), true;
        }
        var response := ParseResponseObject(reply.value);
        if response.Failure? {
          return response, true;
        }
        if JsonString(response.value, "requestId") == id {
          return response, true;
        }
        if JsonString(response.value, "type") == SESSION_CLOSED {
          return Failure(SESSION_CLOSED_ERROR), true;
        }
        attempt := attempt + 1;
      }
      ReplyStep(id, transport.inbox, 0);
      result := Failure(PROTOCOL_ERROR);
    }

    /** One request of any kind: numbered, sent, its reply checked for the expected type. */
    method Exchanged(asked: Request, expected: string) returns (result: Result<Members>)
      requires Valid() && WellMade(asked)
      modifies this`requestCounter, this`issued, this`log, transport
      ensures Valid() && sessionId == old(sessionId)
      ensures Added(old(log), log, asked, result.Success?)
      ensures result.Success? ==> transport.connected && EnsureResponseType(result.value, expected).Success?
      ensures issued == old(issued) + 1 && transport.url == old(transport.url)
      ensures result.Success? ==> result == Awaited(issued, old(transport.inbox))
      ensures result.Success? ==> transport.inbox == LeftUnread(issued, old(transport.inbox))
      ensures !old(transport.connected) ==> log == old(log) && result.Failure? && !transport.connected
      ensures transport.connected && log != old(log) ==>
                var reply := Awaited(issued, old(transport.inbox));
                result ==
                if reply.Failure? || JsonString(reply.value, "type") == expected then reply
                else if JsonString(reply.value, "type") == "error" then
                  Failure(JsonString(reply.value, "code", "GATEWAY_ERROR"))
                else Failure("GATEWAY_PROTOCOL_ERROR")
      ensures log == old(log) ==> transport.sent == old(transport.sent)
      ensures log != old(log) ==>
                && OneMore(old(transport.sent), transport.sent)
                && Represents(transport.sent[|old(transport.sent)|], asked.(requestId := RequestId(issued)))
    {
      hide ReplyTo, RequestId, JsonString, Represents;
      var id := NextRequestId();
      IdIsNotEmpty(issued);
      var request := asked.(requestId := id);
      var message := BuildMessage(request);
      RepresentsId(message, request);
      ghost var went;
      result, went := SendRequest(message, id);
      if result.Success? {
        var typed := EnsureResponseType(result.value, expected);
        if typed.Failure? {
          result := Failure(typed.code);
        }
      }
      if went {
        log := log + [Exchange(request, issued, result.Success?)];
      }
    }

    /** A reply without a session id is a failure, though the gateway has acknowledged the request. */
    method CreateSession(config: RuntimeConfig) returns (status: Result<()>)
      requires Valid()
      modifies this, transport
      ensures Valid()
      ensures status.Success? ==> transport.connected && sessionId != ""
      ensures status.Success? ==> Added(old(log), log, CreateRequest(config), true)
      ensures status.Failure? ==> exists ok :: Added(old(log), log, CreateRequest(config), ok)
      ensures status.Success? && old(transport.connected) ==>
                var reply := Awaited(old(issued) + 1, old(transport.inbox));
                && Answers(old(issued) + 1, old(transport.inbox), "session.created")
                && sessionId == JsonString(reply.value, "sessionId")
      ensures status.Success? && !old(transport.connected) ==> transport.url == config.gatewayUrl
      ensures transport.sent == old(transport.sent) ||
              (OneMore(old(transport.sent), transport.sent) &&
               AsksToCreate(transport.sent[|old(transport.sent)|], config))
      ensures status.Success? ==> transport.sent != old(transport.sent)
    {
      hide JsonString, EnsureResponseType, Awaited, LeftUnread, Represents, AsksToCreate;
      var connection := EnsureConnected(config.gatewayUrl);
      if connection.Failure? {
        assert Added(old(log), log, CreateRequest(config), false);
        return connection;
      }
      var response := Exchanged(CreateRequest(config), SESSION_CREATED);
      if log != old(log) {
        MessagesAsk(transport.sent[|old(transport.sent)|], RequestId(issued), "", config, NO_EXPERIMENT, map[], 0.0);
      }
      if response.Failure? {
        return Failure(response.code);
      }
      sessionId := JsonString(response.value, "sessionId");
      if sessionId == "" {
        return Failure(PROTOCOL_ERROR);
      }
      status := Success(());
    }

    method InitializeSession(config: RuntimeConfig, experiment: Experiment, inputs: map<string, ScalarValue>)
      returns (status: Result<()>)
      requires Valid()
      modifies this`requestCounter, this`issued, this`log, transport
      ensures Valid() && sessionId == old(sessionId)
      ensures Added(old(log), log, InitializeRequest(sessionId, config, experiment, inputs), status.Success?)
      ensures status.Success? ==> transport.connected
      ensures !old(transport.connected) ==> log == old(log)
      ensures status.Success? ==> Answers(old(issued) + 1, old(transport.inbox), "sim.state")
      ensures status.Failure? && transport.connected && log != old(log) ==>
                !Answers(old(issued) + 1, old(transport.inbox), "sim.state")
      ensures transport.sent == old(transport.sent) ||
              (OneMore(old(transport.sent), transport.sent) &&
               AsksToInitialize(transport.sent[|old(transport.sent)|], sessionId, config, experiment, inputs))
      ensures status.Success? ==> transport.sent != old(transport.sent)
    {
      hide Awaited, LeftUnread, JsonString, Represents, AsksToInitialize;
      var response := Exchanged(InitializeRequest(sessionId, config, experiment, inputs), SIM_STATE);
      if log != old(log) {
        MessagesAsk(transport.sent[|old(transport.sent)|], RequestId(issued),
                    sessionId, config, experiment, inputs, 0.0);
      }
      status := if response.Success? then Success(()) else Failure(response.code);
    }

    /** An empty map is not worth a message. */
    method SendInputs(values: map<string, ScalarValue>) returns (status: Result<()>)
      requires Valid()
      modifies this`requestCounter, this`issued, this`log, transport
      ensures Valid() && sessionId == old(sessionId)
      ensures values == map[] ==>
                && status.Success? && log == old(log) && issued == old(issued)
                && transport.connected == old(transport.connected) && transport.inbox == old(transport.inbox)
      ensures values != map[] && status.Success? ==>
                issued == old(issued) + 1 && transport.inbox == LeftUnread(issued, old(transport.inbox))
      ensures values != map[] ==> Added(old(log), log, InputsRequest(sessionId, values), status.Success?)
      ensures values != map[] && status.Success? ==> transport.connected
      ensures !old(transport.connected) ==> log == old(log)
      ensures values != map[] && status.Success? ==>
                Answers(old(issued) + 1, old(transport.inbox), "sim.inputs.updated")
      ensures status.Failure? && transport.connected && log != old(log) ==>
                !Answers(old(issued) + 1, old(transport.inbox), "sim.inputs.updated")
      ensures transport.sent == old(transport.sent) ||
              (OneMore(old(transport.sent), transport.sent) &&
               AsksToSet(transport.sent[|old(transport.sent)|], sessionId, values))
      ensures status.Success? && values != map[] ==> transport.sent != old(transport.sent)
    {
      hide Awaited, LeftUnread, JsonString, Represents, AsksToSet;
      if values == map[] {
        return Success(());
      }
      var response := Exchanged(InputsRequest(sessionId, values), SIM_INPUTS_UPDATED);
      if log != old(log) {
        MessagesAsk(transport.sent[|old(transport.sent)|], RequestId(issued),
                    sessionId, NO_CONFIG, NO_EXPERIMENT, values, 0.0);
      }
      status := if response.Success? then Success(()) else Failure(response.code);
    }

    method StepBy(deltaT: real) returns (snapshot: Result<OutputSnapshot>)
      requires Valid()
      modifies this`requestCounter, this`issued, this`log, transport
      ensures Valid() && sessionId == old(sessionId)
      ensures Added(old(log), log, StepRequest(sessionId, deltaT), snapshot.Success?)
      ensures snapshot.Success? ==> transport.connected
      ensures !old(transport.connected) ==> log == old(log) && snapshot.Failure?
      ensures snapshot.Success? ==>
                var reply := Awaited(old(issued) + 1, old(transport.inbox));
                reply.Success? && snapshot.value == SnapshotOf(reply.value)
      ensures snapshot.Success? ==> Answers(old(issued) + 1, old(transport.inbox), "sim.outputs")
      ensures snapshot.Failure? && transport.connected && log != old(log) ==>
                !Answers(old(issued) + 1, old(transport.inbox), "sim.outputs")
      ensures transport.sent == old(transport.sent) ||
              (OneMore(old(transport.sent), transport.sent) &&
               AsksToStep(transport.sent[|old(transport.sent)|], sessionId, deltaT))
      ensures snapshot.Success? ==> transport.sent != old(transport.sent)
    {
      hide Awaited, LeftUnread, JsonString, Represents, AsksToStep;
      var response := Exchanged(StepRequest(sessionId, deltaT), SIM_OUTPUTS);
      if log != old(log) {
        MessagesAsk(transport.sent[|old(transport.sent)|], RequestId(issued),
                    sessionId, NO_CONFIG, NO_EXPERIMENT, map[], deltaT);
      }
      if response.Failure? {
        return Failure(response.code);
      }
      snapshot := Success(SnapshotOf(response.value));
    }

    method ResetSession() returns (status: Result<()>)
      requires Valid()
      modifies this`requestCounter, this`issued, this`log, transport
      ensures Valid() && sessionId == old(sessionId)
      ensures Added(old(log), log, ResetRequest(sessionId), status.Success?)
      ensures status.Success? ==> Answers(old(issued) + 1, old(transport.inbox), "sim.state")
      ensures status.Failure? && transport.connected && log != old(log) ==>
                !Answers(old(issued) + 1, old(transport.inbox), "sim.state")
      ensures transport.sent == old(transport.sent) ||
              (OneMore(old(transport.sent), transport.sent) &&
               AsksFor(transport.sent[|old(transport.sent)|], "sim.reset", sessionId))
      ensures status.Success? ==> transport.sent != old(transport.sent)
    {
      hide Awaited, LeftUnread, JsonString, Represents, AsksFor;
      var response := Exchanged(ResetRequest(sessionId), SIM_STATE);
      if log != old(log) {
        MessagesAsk(transport.sent[|old(transport.sent)|], RequestId(issued),
                    sessionId, NO_CONFIG, NO_EXPERIMENT, map[], 0.0);
      }
      status := if response.Success? then Success(()) else Failure(response.code);
    }

    /** Without a connection there is nothing to terminate; with one, it is closed whatever the answer. */
    method TerminateSession() returns (status: Result<()>)
      requires Valid()
      modifies this, transport
      ensures Valid() && !transport.connected
      ensures !old(transport.connected) ==> status.Success? && log == old(log) && sessionId == old(sessionId)
      ensures old(transport.connected) ==>
                Added(old(log), log, TerminateRequest(old(sessionId)), status.Success?) && sessionId == ""
      ensures old(transport.connected) && status.Success? ==>
                Answers(old(issued) + 1, old(transport.inbox), "session.closed")
      ensures transport.sent == old(transport.sent) ||
              (OneMore(old(transport.sent), transport.sent) &&
               AsksFor(transport.sent[|old(transport.sent)|], "session.terminate", old(sessionId)))
      ensures status.Success? && old(transport.connected) ==> transport.sent != old(transport.sent)
    {
      hide Awaited, LeftUnread, JsonString, Represents, AsksFor;
      if !transport.connected {
        return Success(());
      }
      var response := Exchanged(TerminateRequest(sessionId), SESSION_CLOSED);
      if log != old(log) {
        MessagesAsk(transport.sent[|old(transport.sent)|], RequestId(issued),
                    sessionId, NO_CONFIG, NO_EXPERIMENT, map[], 0.0);
      }
      transport.Close();
      sessionId := "";
      status := if response.Success? then Success(()) else Failure(response.code);
    }
  }

  lemma CounterIsIssued(issued: nat)
    ensures (issued % COUNTER_LIMIT + 1) % COUNTER_LIMIT == (issued + 1) % COUNTER_LIMIT
  {
  }

  lemma IdOfCounter(n: nat)
    ensures RequestId(n) == "req-" + Decimal.ToString(n % COUNTER_LIMIT)
  {
  }

  ghost function Later(reply: Reply, taken: nat): Reply {
    Reply(reply.result, reply.taken + taken)
  }

  lemma ReplyStep(id: string, inbox: seq<string>, attempts: nat)
    requires id != ""
    ensures attempts == 0 ==> ReplyTo(id, inbox, attempts) == Reply(Failure(PROTOCOL_ERROR), 0)
    ensures attempts > 0 && inbox == [] ==> ReplyTo(id, inbox, attempts) == Reply(Failure(RECEIVE_FAILED), 0)
    ensures attempts > 0 && inbox != [] ==>
              var response := ParseResponseObject(inbox[0]);
              ReplyTo(id, inbox, attempts) ==
              if response.Failure? || JsonString(response.value, "requestId") == id then Reply(response, 1)
              else if JsonString(response.value, "type") == SESSION_CLOSED then Reply(Failure(SESSION_CLOSED_ERROR), 1)
              else Later(ReplyTo(id, inbox[1..], attempts - 1), 1)
  {
    hide ParseResponseObject, JsonString;
    if inbox != [] {
      assert Responses(inbox)[1..] == Responses(inbox[1..]);
    }
  }
}
