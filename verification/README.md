# Verified model of the FMU proxy runtime, the ops-worker queues and the session limiter

This Dafny project models the parts of the repository whose correctness is hard to see from any one
function, and proves what they promise.

**The native FMU proxy runtime (C++).** Base64 and XML-entity codecs; decimal text of 64-bit integers; the
JSON printer and the recursive-descent parser; RFC 6455 frames, and the transport that reassembles text
messages from chunks; the request/response client; the model description's indexes, flat sizes and flat
buffers; the session state machine with its value cache and its write-behind inputs.

**The durable queues of the ops worker (Python and SQL).** The session-observation outbox with its 60-second
lease and compare-and-set claims, the token-revocation queue that feeds it, and the scheduler that starts
reservations. Each SQL transaction is a step over a table of rows; any number of workers interleave and
crash between steps, and a claim's select and its updates are two steps with anything in between.

**The sliding-window limit on realtime sessions (Python).**

## How to read it

| files | subject |
|---|---|
| `Base64`, `XmlEntities`, `Decimal` | codecs: a specification, the loop that computes it, and the laws |
| `Json`, `JsonParser`, `JsonRoundTrip` | printer and parser as methods over a stream and a cursor; what a round trip returns |
| `JsonGrammar`, `JsonNumerals`, `JsonReading`, `JsonAcceptance` | a grammar of its own for documents, and that the parser accepts precisely that |
| `WebSocketFrames`, `Transport`, `MessageStreams` | frame layouts; the transport class; whole server streams in any chunking |
| `Values`, `WireForms`, `WireText` | integer ranges, values to JSON and back, what JSON carries which value, and down to the text of a message |
| `GatewayMessages`, `GatewayClient`, `SessionState` | the messages of the client, the client, the transition table |
| `FlatValues`, `FlatLaws`, `FlatBuffers`, `ProxyRuntime` | flat arrays and what their calls mean, the loops over buffers, the runtime |
| `Outbox`, `OutboxProtocol`, `OutboxLease`, `OutboxFairness` | the table's transactions; safety over all runs; the lease; no starvation |
| `Revocation`, `Scheduler`, `RateLimiter` | the other queue, the scheduler, the limiter |

Code that changes state is a method of a class, proved against a function or a predicate; what the source
promises is then proved about that. Ghost fields hold histories: the requests that went out and whether they
were acknowledged, the inputs that writing through would have made, the dispatches of each reservation, the
acceptances of each key.

Most operations are stated twice: by a function that follows the source, and by a relation that says what the
operation does without that function; the lemmas between them are what makes either worth reading.

Some results are not what one might expect:

* The five entity passes equal a single scan on all texts exactly if `&amp;` is decoded last, in whatever
  order the others run (`XmlEntities.AmpersandLastIff`).
* `std::stoull` takes a minus sign and wraps, so a server's integer is taken exactly or refused, except for a
  negative one that wraps into the range of an unsigned type (`Values.TakenExactlyIff`). A UInt32 variable
  takes the text of -(2^64 - 1) for 1 (`Values.NegativeTextIsTaken`).
* A printed JSON value is read back unchanged exactly when its strings and keys hold no control character
  other than \b \f \n \r \t (`JsonRoundTrip.RoundTripIff`); the parser turns the others into `?`.
* The JSON parser accepts more than RFC 8259 does: leading zeros, `1.`, `-.5`, any four characters behind \u, bare
  control characters and form feeds between tokens; and nothing else than that (`JsonAcceptance.ParsesIff`).
* The handshake's header block is read under every chunking exactly when it ends within 16385 bytes
  (`MessageStreams.HeadersReadIff`): it is refused only once more than 16384 bytes have come without its end.
* Request ids are unique only modulo 2^64 (`Gateway.SameIdIff`).
* The runtime assigns its state in places without asking the transition table; what a call can make of the
  state is `SessionState.CanMove`, and still nothing simulates without a created session
  (`SessionState.SimulatingNeedsSession`).
* A lease keeps workers apart exactly if every claim is marked within 60 seconds of the recorded time of its
  lock, which is 59 seconds from the claim itself, because the record has whole seconds
  (`OutboxLease.LeaseExcludesIff`). Batches whose requests take at most that long together are safe
  (`OutboxLease.ShortBatchesExclude`); 20 requests of 5 seconds, the defaults, are not covered by this.
* Revocations are never taken back exactly if at most one job runs at a time (`Revocation.RevocationsStayIff`):
  the updates after an answer look at nothing but the hash.
* Operations are recorded in a column of whole seconds. The next dispatch is sure to keep the full cooldown
  exactly if the record is not stored as a time before the dispatch itself, or the window is over
  (`Scheduler.FullCooldownIff`, `Scheduler.NextApartIff`); otherwise it can come up to half a second early
  (`Scheduler.CooldownCanFallShort`). The losses do not add up: the bound on the number of dispatches holds
  all the same (`Scheduler.AtMostSoMany`).

## Model

| member | source | states |
|---|---|---|
| Base64.Encode | fmu-proxy-runtime-src/src/gateway_client.cpp:18-51 | The encoder's loop and its two kinds of final group produce the encoding of section 4 of RFC 4648 |
| Base64.Decode | fmu-proxy-runtime-src/src/runtime.cpp:36-77 | The decoder's loop computes the group-wise decoding, and fails exactly where that does |
| Base64.DecodeCompacting | fmu-proxy-runtime-src/src/model_description.cpp:67-118 | The other decoder computes the same of the text without its white space |
| Base64.RoundTrip | fmu-proxy-runtime-src/src/gateway_client.cpp:18-51 | Decoding an encoding gives back every byte sequence |
| Base64.EncodingIsInjective | fmu-proxy-runtime-src/src/gateway_client.cpp:18-51 | Different byte sequences have different encodings |
| Base64.EncodedShape | fmu-proxy-runtime-src/src/gateway_client.cpp:18-51 | The length is four times the number of started groups of three; `=` stands at the end only, as often as octets are missing |
| Base64.DecodersAgree | fmu-proxy-runtime-src/src/model_description.cpp:67-118 | On text without white space the two decoders agree |
| Base64.EncodingSays | fmu-proxy-runtime-src/src/gateway_client.cpp:18-51 | Group by group, the characters stand in the alphabet of the RFC for the 24 bits of three octets; the last ones are `=` where octets are missing |
| Base64.GroupIsDecodedIff | fmu-proxy-runtime-src/src/runtime.cpp:36-77 | A group is decoded exactly if it has two digits and then two digits or `=`: to the octets of its 24 bits, without those that an `=` stands for, wherever it stands |
| Base64.GroupsApart | fmu-proxy-runtime-src/src/runtime.cpp:36-77 | What a text decodes to is what its groups decode to, one after the other, and nothing if one of them does not decode |
| Base64.SpaceDoesNotMatter | fmu-proxy-runtime-src/src/model_description.cpp:80-85 | White space of any of the six kinds, anywhere in a text, makes no difference to the second decoder |
| XmlEntities.Decode | fmu-proxy-runtime-src/src/model_description.cpp:27-43 | The five search-and-replace passes, with their moving cursor, compute one left-to-right scan for all five entities |
| XmlEntities.NextPass | fmu-proxy-runtime-src/src/model_description.cpp:35-41 | A pass for one more entity turns the scan for the earlier ones into the scan for all of them, if no earlier decoding can complete it |
| XmlEntities.PassesAreOneScan | fmu-proxy-runtime-src/src/model_description.cpp:28-42 | The five passes, one after the other, equal a single left-to-right scan on every text |
| XmlEntities.AmpersandLastIff | fmu-proxy-runtime-src/src/model_description.cpp:28-34 | For every order of the five passes, they equal the single scan on all texts if and only if `&amp;` is last |
| XmlEntities.DecodesTwice | fmu-proxy-runtime-src/src/model_description.cpp:28-34 | With any other entity last, an entity whose ampersand is escaped is decoded twice |
| XmlEntities.DecodedStep | fmu-proxy-runtime-src/src/model_description.cpp:28-34 | Each of the five references of section 4.6 of XML 1.0 becomes its character; any other character stays |
| XmlEntities.EscapedIsDecoded | fmu-proxy-runtime-src/src/model_description.cpp:27-43 | Every text, with its special characters written as references, is decoded to itself |
| Decimal.RoundTrip | fmu-proxy-runtime-src/src/gateway_client.cpp:67-97 | Every signed 64-bit integer, printed by `to_string`, is read back by `stoll`, and every unsigned one by `stoull` |
| Decimal.SignedOfText | fmu-proxy-runtime-src/src/runtime.cpp:110-133 | What `stoll` makes of the text of any integer whatever: that integer, or nothing outside 64 bits |
| Decimal.UnsignedOfText | fmu-proxy-runtime-src/src/runtime.cpp:135-158 | What `stoull` makes of it: negative integers above -2^64 wrap around, larger ones are refused |
| Decimal.ParsedLine | fmu-proxy-runtime-src/src/runtime.cpp:110-158 | What both parsers make of white space, a sign, digits and whatever follows: the number within their range, wrapped for an unsigned minus, or nothing |
| Decimal.NumberIsPositional | fmu-proxy-runtime-src/src/runtime.cpp:110-158 | Digits count by their place: those before count ten times for each one behind |
| Decimal.OnlyDigits | fmu-proxy-runtime-src/src/gateway_client.cpp:13-14 | The digits that `to_string` writes are the only ones for the number without a superfluous zero in front |
| Json.EscapeJsonString | fmu-proxy-runtime-src/src/json.cpp:88-123 | The loop over the characters computes the escaped text |
| Json.SerializeValue | fmu-proxy-runtime-src/src/json.cpp:356-397 | Exactly the specified text of the value is appended to the stream |
| Json.SerializeJson | fmu-proxy-runtime-src/src/json.cpp:405-409 | The stream ends up holding the text of the value and nothing else |
| JsonAcceptance.PrintedStandsFor | fmu-proxy-runtime-src/src/json.cpp:88-123 | Piece by piece, section 7 of RFC 8259 takes the escaped text for the original, control characters as the hexadecimal number of their code |
| JsonParser.Parser.Parse | fmu-proxy-runtime-src/src/json.cpp:129-140 | The cursor's parse of a whole document agrees with the functional one: same value, or failure where that has none |
| JsonParser.Parser.ParseValue | fmu-proxy-runtime-src/src/json.cpp:142-166 | The value at the cursor and the cursor's new place agree with the functional parse of the text that is left; success moves the cursor forward |
| JsonParser.Parser.ParseObject | fmu-proxy-runtime-src/src/json.cpp:168-201 | The members up to the closing brace; of equal keys the first counts |
| JsonParser.Parser.ParseArray | fmu-proxy-runtime-src/src/json.cpp:203-227 | The items up to the closing bracket |
| JsonParser.Parser.ParseString | fmu-proxy-runtime-src/src/json.cpp:229-282 | The unescaped body of a string, with `?` for every \u escape |
| JsonParser.Parser.ParseNumber | fmu-proxy-runtime-src/src/json.cpp:304-335 | The longest number token is consumed, and its exact value found; `JsonAcceptance.FractionIsExact` and `ExponentShifts` say which that is |
| JsonParser.ParseJson | fmu-proxy-runtime-src/src/json.cpp:401-403 | On any text, the method agrees with the functional parse, which `JsonAcceptance.ParsesIff` characterizes |
| JsonAcceptance.ParsesIff | fmu-proxy-runtime-src/src/json.cpp:125-403 | The parser succeeds on a text with a value if and only if the text spells a valid document of that meaning, by a grammar written down apart from the parser |
| JsonReading.DocumentIsRead | fmu-proxy-runtime-src/src/json.cpp:142-335 | Every valid document is read, with its meaning, and what follows it is left |
| JsonAcceptance.TokenWasDocument | fmu-proxy-runtime-src/src/json.cpp:142-335 | Whatever is read was the spelling of a valid document of that meaning |
| JsonAcceptance.FractionIsExact | fmu-proxy-runtime-src/src/json.cpp:304-335 | A number with a point, times ten to the number of its places, is the number of all its digits; a minus negates it |
| JsonAcceptance.ExponentShifts | fmu-proxy-runtime-src/src/json.cpp:304-335 | An exponent multiplies or divides what stands before it by a power of ten |
| JsonAcceptance.ObjectHolds | fmu-proxy-runtime-src/src/json.cpp:168-201 | An object has a member exactly if the first of its fields with that key means it; its keys are in order |
| JsonAcceptance.EmplacedHolds | fmu-proxy-runtime-src/src/json.cpp:190-190 | Adding a member adds it exactly if its key is new, and takes no other away |
| JsonAcceptance.BeforeIff | fmu-proxy-runtime-src/src/json.cpp:378-388 | Keys are in the order of a dictionary |
| JsonRoundTrip.ParsePrinted | fmu-proxy-runtime-src/src/json.cpp:125-397 | Every printed value is read back as itself, with the lost control characters turned into `?` |
| JsonRoundTrip.SanitizedIff | fmu-proxy-runtime-src/src/json.cpp:88-123 | That loss changes a value exactly if some string or key of it, at any depth, has such a character |
| JsonRoundTrip.RoundTripIff | fmu-proxy-runtime-src/src/json.cpp:125-397 | Printing and parsing is the identity on precisely the plain values |
| JsonRoundTrip.ParsedIsWellFormed | fmu-proxy-runtime-src/src/json.cpp:168-201 | Whatever is parsed, every object in it has its keys in order and none twice |
| WebSocketFrames.ServerFrameRoundTrip | fmu-proxy-runtime-src/src/transport_linux.cpp:346-405 | A server frame with any length form that fits, followed by anything, is decoded to itself and leaves what follows |
| WebSocketFrames.ClientFrameRoundTrip | fmu-proxy-runtime-src/src/transport_linux.cpp:930-972 | Sections 5.2 and 5.3 of RFC 6455 give back FIN, opcode and payload from the client's bytes, for every key |
| WebSocketFrames.ShortestForm | fmu-proxy-runtime-src/src/transport_linux.cpp:938-957 | The chosen length form fits and no shorter one does |
| WebSocketFrames.MaskedTwice | fmu-proxy-runtime-src/src/transport_linux.cpp:958-966 | Masking twice with one key gives back the payload |
| WebSocketFrames.FrameIsRead | fmu-proxy-runtime-src/src/transport_linux.cpp:346-405 | Octet by octet: whatever first octets, extended length, key and data make up a frame, that frame is read from them |
| WebSocketFrames.FrameWasThere | fmu-proxy-runtime-src/src/transport_linux.cpp:346-405 | Whenever a frame is read, its octets are at the beginning of the stream |
| WebSocketFrames.XorIsBitwise | fmu-proxy-runtime-src/src/transport_linux.cpp:963-966 | A masked bit is set exactly if the payload and the key differ there |
| Transport.WebSocketTransport.SendFrame | fmu-proxy-runtime-src/src/transport_linux.cpp:930-972 | The buffer, XORed in place, is the masked frame for some key in the shortest form; nothing else is written |
| Transport.WebSocketTransport.ReadHttpHeaders | fmu-proxy-runtime-src/src/transport_linux.cpp:879-903 | The block up to the terminator is returned; the bytes after it are kept for the frames |
| Transport.WebSocketTransport.ReadExact | fmu-proxy-runtime-src/src/transport_linux.cpp:905-928 | The next bytes of the stream and no others are consumed, whatever the chunks |
| Transport.WebSocketTransport.Connect | fmu-proxy-runtime-src/src/transport_linux.cpp:286-324 | After a successful handshake the unread stream begins right behind the header block |
| Transport.WebSocketTransport.ReadFrame | fmu-proxy-runtime-src/src/transport_linux.cpp:346-405 | One frame is read exactly if the unread stream begins with a whole unmasked frame, and the rest stays unread |
| Transport.WebSocketTransport.ReceiveText | fmu-proxy-runtime-src/src/transport_linux.cpp:337-468 | The message, the pongs written, the remaining stream and the error are those of the reassembly of the byte stream; chunk boundaries do not matter |
| MessageStreams.MessageReceived | fmu-proxy-runtime-src/src/transport_linux.cpp:346-468 | A well-formed message, fragmented in any way with control frames in between, is reassembled, each ping answered by one pong of its payload, and what follows is left |
| MessageStreams.AllMessagesReceived | fmu-proxy-runtime-src/src/transport_linux.cpp:337-468 | Successive calls on a stream of well-formed messages return exactly these, in order |
| MessageStreams.BeginningReceived | fmu-proxy-runtime-src/src/transport_linux.cpp:346-468 | The fragments, pings and pongs at the beginning of a message are taken, whatever comes then |
| MessageStreams.DataIsTaken | fmu-proxy-runtime-src/src/transport_linux.cpp:438-462 | A data frame continues or ends the message; a text frame does so even where a continuation is due |
| MessageStreams.BrokenOff | fmu-proxy-runtime-src/src/transport_linux.cpp:346-468 | A close frame, one out of place, a masked one or the end of the stream breaks a message off with its own error, after the pings up to there |
| MessageStreams.HeaderEndIff | fmu-proxy-runtime-src/src/transport_linux.cpp:879-903 | A header block ends behind the first CR LF CR LF |
| MessageStreams.ShortHeadersAreRead | fmu-proxy-runtime-src/src/transport_linux.cpp:879-903 | A header block whose end comes early enough is read under every chunking |
| MessageStreams.LongHeadersCanFail | fmu-proxy-runtime-src/src/transport_linux.cpp:879-903 | For any later end there is a chunking under which it is refused |
| MessageStreams.HeadersReadIff | fmu-proxy-runtime-src/src/transport_linux.cpp:879-903 | Every chunking succeeds if and only if the block ends within 16385 bytes |
| MessageStreams.MessagesAfterHandshake | fmu-proxy-runtime-src/src/transport_linux.cpp:879-928 | Messages that arrive together with the header block, however split, are received like all others: successive calls return exactly these |
| MessageStreams.NextText | fmu-proxy-runtime-src/src/transport_linux.cpp:337-468 | Message by message, a connection hands out the texts that its stream holds; only an unanswered ping can end it earlier |
| MessageStreams.InboxOfMessages | fmu-proxy-runtime-src/src/transport_linux.cpp:337-468 | The texts that a stream of messages holds are theirs, and then whatever follows |
| MessageStreams.ConnectAndReceive | fmu-proxy-runtime-src/src/transport_linux.cpp:286-468 | Connecting and then receiving returns exactly the messages, in order, with one pong a ping, for every chunking; all that can fail is the connection or a pong |
| Values.NormalizeIff | fmu-proxy-runtime-src/src/runtime.cpp:160-203 | An integer is accepted exactly if it is in [-2^(b-1), 2^(b-1)) or [0, 2^b) for the b bits that the declared type has, by its name, and stored as it is, without a sign exactly for the unsigned types |
| Values.CastIff | fmu-proxy-runtime-src/src/runtime.cpp:205-261 | A getter returns exactly the stored integer, and refuses exactly when it is outside the bits of the declared or the requested type, or stored without a sign for a type that has one |
| Values.BoundsIff | fmu-proxy-runtime-src/src/runtime.cpp:79-108 | The table of bounds gives each declared type the range of its bits, and 64 bits with a sign to all other names |
| Values.NormalizeThenCast | fmu-proxy-runtime-src/src/runtime.cpp:160-261 | What was stored through one width is returned through it |
| Values.WireRoundTrip | fmu-proxy-runtime-src/src/gateway_client.cpp:54-97 | Every value that fits its variable, scalar or array of any type, survives the conversion to JSON and back |
| Values.ConvertedFits | fmu-proxy-runtime-src/src/runtime.cpp:263-442 | Whatever JSON arrives, a converted value is of the variable's type and within its range |
| WireForms.TakenIsCarried | fmu-proxy-runtime-src/src/runtime.cpp:110-442 | From any JSON, a variable gets a value if and only if the JSON carries it, by a relation written down apart from the conversions: kind by kind, element by element, integers as text or as numbers within 2^-52 of one |
| WireForms.SentAs | fmu-proxy-runtime-src/src/gateway_client.cpp:12-97 | What is sent carries the value; real numbers go as numbers, flags as flags, integers and binaries as text |
| Values.TextOfInteger | fmu-proxy-runtime-src/src/runtime.cpp:110-203 | What becomes of the text of any integer that a server sends: the integer if it is in the declared range, what wraps into it, or nothing |
| Values.TakenExactlyIff | fmu-proxy-runtime-src/src/runtime.cpp:110-203 | It is taken exactly or refused if and only if it does not wrap into an unsigned type |
| Values.NegativeTextIsTaken | fmu-proxy-runtime-src/src/runtime.cpp:135-158 | An input for which that fails |
| WireText.SurvivesTextIff | fmu-proxy-runtime-src/src/gateway_client.cpp:99-105 | Printed into a message and parsed out of its text, a value comes back exactly if its strings are plain |
| Messages.BuildMessage | fmu-proxy-runtime-src/src/gateway_client.cpp:199-369 | The message of each of the six requests has the members that the protocol asks for, by name, with the values of the request, and no others |
| Messages.ToJsonObject | fmu-proxy-runtime-src/src/gateway_client.cpp:99-105 | One member for each input, under its name, with the value as it is sent |
| WireText.MessageArrivesIff | fmu-proxy-runtime-src/src/gateway_client.cpp:157-168 | The text of a message is read back as the message if and only if it holds no control character outside \b \f \n \r \t |
| Gateway.ReplyCarriesItsId | fmu-proxy-runtime-src/src/gateway_client.cpp:170-196 | An accepted reply carries the request's id, is among the first 32 messages, and none before it matched or closed the session |
| Gateway.ReplyIsFound | fmu-proxy-runtime-src/src/gateway_client.cpp:170-196 | A matching reply behind fewer than 32 harmless messages is found |
| Gateway.ReplyOfAnyInbox | fmu-proxy-runtime-src/src/gateway_client.cpp:170-196 | For any messages at all: the first one that is not passed over ends the wait, as reply or as error; else the lack of messages or the 32nd does |
| Gateway.PassedOverIff | fmu-proxy-runtime-src/src/gateway_client.cpp:107-119 | A message is passed over exactly if it is an object with another id that does not close the session |
| Gateway.SnapshotReads | fmu-proxy-runtime-src/src/gateway_client.cpp:294-301 | A step reads `simTime` and `values` of its reply, if they are a number and an object, and takes 0 and nothing otherwise |
| Gateway.LateReplyIsIgnored | fmu-proxy-runtime-src/src/gateway_client.cpp:181-184 | What one request accepts never carries the id of another request |
| Gateway.SameIdIff | fmu-proxy-runtime-src/src/gateway_client.cpp:152-155 | Two ids are equal exactly if their requests are a multiple of 2^64 apart |
| Gateway.IdsNeverRepeat | fmu-proxy-runtime-src/src/gateway_client.cpp:152-155 | No two requests of one client share an id, up to 2^64 of them |
| Gateway.StepFollowsInitialize | fmu-proxy-runtime-src/src/gateway_client.cpp:232-303 | Behind every inputs or step request in an ordered log lies an acknowledged initialization of the same session, with no create, reset or terminate since |
| Gateway.RemoteInputIsLastWritten | fmu-proxy-runtime-src/src/gateway_client.cpp:232-276 | Each remote input is what the last acknowledged request that mentions it said |
| Gateway.GatewayClient.NextRequestId | fmu-proxy-runtime-src/src/gateway_client.cpp:152-155 | The id is "req-" and the number of requests made so far, modulo 2^64 |
| Gateway.GatewayClient.SendRequest | fmu-proxy-runtime-src/src/gateway_client.cpp:157-197 | The loop's result and the messages it consumes are those of the search for the reply |
| Gateway.GatewayClient.CreateSession | fmu-proxy-runtime-src/src/gateway_client.cpp:199-230 | A success leaves a connection, to the configured address unless there was one, and the session id that the reply carries; one message with type, lab, reservation and ticket went out and was answered by `session.created` |
| Gateway.GatewayClient.InitializeSession | fmu-proxy-runtime-src/src/gateway_client.cpp:232-257 | At most one message, for the current session, with the configured time mode, the experiment and the inputs in its options; it succeeds exactly if `sim.state` answers, as long as the connection holds |
| Gateway.GatewayClient.SendInputs | fmu-proxy-runtime-src/src/gateway_client.cpp:259-276 | Nothing is sent for an empty map; otherwise the same, with the inputs as `values` and `sim.inputs.updated` as the answer |
| Gateway.GatewayClient.StepBy | fmu-proxy-runtime-src/src/gateway_client.cpp:278-303 | The same for a step by `deltaT`, answered by `sim.outputs`; the snapshot is that of the reply to this very request |
| Gateway.GatewayClient.Exchanged | fmu-proxy-runtime-src/src/gateway_client.cpp:121-197 | Any request: one message that represents it, the reply to its id, and the error that the reply's type stands for; success exactly if the type is the expected one, as long as the connection holds |
| Gateway.GatewayClient.ResetSession | fmu-proxy-runtime-src/src/gateway_client.cpp:337-349 | The same for a reset |
| Gateway.GatewayClient.TerminateSession | fmu-proxy-runtime-src/src/gateway_client.cpp:351-369 | The connection is closed and the session forgotten whatever the answer; without a connection nothing happens |
| SessionState.SimulatingNeedsSession | fmu-proxy-runtime-src/src/runtime.cpp:640-821 | No sequence of calls simulates without having passed from a created session to initialized; every call of the runtime makes one of these moves |
| SessionState.EnteredOnlyFrom | fmu-proxy-runtime-src/src/session_state.cpp:5-34 | For each state, from where the table lets it be entered |
| FlatValues.LookupFindsFirst | fmu-proxy-runtime-src/src/model_description.cpp:528-530 | The reference index finds the first variable declared with a reference, if there is one |
| FlatLaws.NameFindsFirst | fmu-proxy-runtime-src/src/model_description.cpp:528-530 | The same for the name index |
| FlatValues.ModelIsValid | fmu-proxy-runtime-src/src/model_description.cpp:434-448 | Both indexes always lead to a variable with the key asked for |
| FlatValues.SetWritesPrefix | fmu-proxy-runtime-src/src/runtime.cpp:851-915 | A set call writes listed variables from the front, and all of them exactly if it succeeds |
| FlatValues.StoredThenFetched | fmu-proxy-runtime-src/src/runtime.cpp:864-912 | What is stored for one variable is handed out again element by element |
| FlatValues.StoredFits | fmu-proxy-runtime-src/src/runtime.cpp:864-912 | What a setter stores is of the variable's type and within its declared range |
| FlatValues.GetReadsSet | fmu-proxy-runtime-src/src/runtime.cpp:838-917 | The loop of a getter reads back the buffer that the loop of a setter consumed, though sizes are looked up anew each time |
| FlatValues.SetThenGet | fmu-proxy-runtime-src/src/runtime.cpp:1086-1163 | A successful set and a get of the same width return the same buffer, for a list without repeats of which no member is an extent of another |
| FlatLaws.SetCallIs | fmu-proxy-runtime-src/src/runtime.cpp:851-915 | A set call: one write after the other, of as many elements as its variable has after the earlier ones, the elements of all writes being the front of the buffer; it stops at the first variable that is unknown, of the wrong kind, without enough values or given one out of its range, with the error for that |
| FlatLaws.GetCallIs | fmu-proxy-runtime-src/src/runtime.cpp:1086-1163 | A get call: the elements of all listed values, one after the other, if each is there, of the right kind and number and in range; else the error of the first that is not |
| FlatLaws.StoredElements | fmu-proxy-runtime-src/src/runtime.cpp:864-912 | A value is stored exactly if all its numbers are in the declared range, and its elements are those numbers |
| FlatLaws.FetchedElements | fmu-proxy-runtime-src/src/runtime.cpp:1104-1160 | A value is handed out exactly if it has the right number of elements, all within the declared and the requested type: as those elements |
| FlatLaws.SizesMultiply | fmu-proxy-runtime-src/src/runtime.cpp:606-619 | Sizes of dimensions multiply; an unknown or negative extent makes them zero |
| FlatLaws.CountsAdd | fmu-proxy-runtime-src/src/runtime.cpp:621-638 | Counts of references add up; one that is unknown or without elements makes them zero |
| FlatLaws.ExtentSources | fmu-proxy-runtime-src/src/runtime.cpp:583-604 | An extent is the fixed one, else the cached value of its variable, else the start value of that variable or of the one it names |
| FlatLaws.ToInt32Iff | fmu-proxy-runtime-src/src/runtime.cpp:444-465 | A value stands for the 32-bit integer nearest to it, halves away from zero |
| FlatBuffers.ResolveVariableFlatSize | fmu-proxy-runtime-src/src/runtime.cpp:606-619 | The product of the extents, or 0 as soon as one is unknown or negative |
| FlatBuffers.ExpectedValueCount | fmu-proxy-runtime-src/src/runtime.cpp:621-638 | The sum of the flat sizes, or 0 if a reference is unknown or a size is 0 |
| FlatBuffers.NormalizeElements | fmu-proxy-runtime-src/src/runtime.cpp:880-909 | The element loop stores all integers, or none if one is out of range |
| FlatBuffers.FillIntegers | fmu-proxy-runtime-src/src/runtime.cpp:1138-1160 | The element loop fills exactly the variable's places, or reports that one integer does not fit |
| FlatBuffers.GetNumericValues | fmu-proxy-runtime-src/src/runtime.cpp:1086-1163 | A success fills the caller's buffer with the elements of the listed values; no place at or behind the expected count is ever written; errors are those of the first failing variable |
| Runtime.SeededAll | fmu-proxy-runtime-src/src/runtime.cpp:519-581 | After seeding, every variable that can be looked up has a value |
| Runtime.AddedEffect | fmu-proxy-runtime-src/src/gateway_client.cpp:232-369 | What one more exchange does to the open session, the remote inputs and the order of the log |
| Runtime.StepIsCoherent | fmu-proxy-runtime-src/src/runtime.cpp:758-792 | After an acknowledged step with nothing pending, the inputs it ran on are those of direct writing |
| Runtime.FlushIsCoherent | fmu-proxy-runtime-src/src/runtime.cpp:765-773 | Handing the pending inputs over leaves the sum of remote and pending inputs as it was; failing to is an error |
| Runtime.TerminateIsCoherent | fmu-proxy-runtime-src/src/runtime.cpp:794-805 | A session that could not be terminated is as good as terminated, once its connection is gone |
| Runtime.ProxyRuntime.constructor | fmu-proxy-runtime-src/src/runtime.cpp:479-484 | A new runtime satisfies the invariant |
| Runtime.ProxyRuntime.Transition | fmu-proxy-runtime-src/src/runtime.cpp:497-505 | The state changes exactly if the table allows it |
| Runtime.ProxyRuntime.SeedCache | fmu-proxy-runtime-src/src/runtime.cpp:519-581 | One variable after the other gets its start value or zeros that fit it, an array if it has more than one element by then |
| Runtime.ProxyRuntime.Configure | fmu-proxy-runtime-src/src/runtime.cpp:640-692 | Failures while reading change nothing; otherwise configuration, model, client, cache and inputs are new even if the transition is refused, which happens in all but four states |
| Runtime.ProxyRuntime.EnterInitializationMode | fmu-proxy-runtime-src/src/runtime.cpp:702-721 | From instantiated, with one acknowledged create request, to a created session, or to the error state, and from nowhere else; the connecting states are never left visible |
| Runtime.ProxyRuntime.ExitInitializationMode | fmu-proxy-runtime-src/src/runtime.cpp:723-740 | On success one acknowledged request has initialized the session with the experiment last set up and exactly the inputs set so far, and none is pending |
| Runtime.ProxyRuntime.ApplyOutputSnapshot | fmu-proxy-runtime-src/src/runtime.cpp:742-756 | Time is taken over; each variable has the last convertible output for it; every other value stays |
| Runtime.ProxyRuntime.DoStep | fmu-proxy-runtime-src/src/runtime.cpp:758-792 | A successful step sent the pending inputs, if any, and then the step, both acknowledged, in the initialized session; it ran on exactly the last value set for each variable; each variable has the last convertible output of the reply for it, and every other value stays; a failure ends in the error state |
| Runtime.ProxyRuntime.TerminateRuntime | fmu-proxy-runtime-src/src/runtime.cpp:794-805 | One terminate request goes out exactly over a connection, which is then closed; a failure leaves the state, but the invariant still rules out that a step is sent |
| Runtime.ProxyRuntime.Reset | fmu-proxy-runtime-src/src/runtime.cpp:807-821 | A connected simulation is told; on success all inputs are forgotten and the cache is seeded anew; a failure is the error state |
| Runtime.ProxyRuntime.SetValue | fmu-proxy-runtime-src/src/runtime.cpp:823-827 | The invariant that pending inputs over remote inputs are the direct ones is kept |
| Runtime.ProxyRuntime.SetNumericValues | fmu-proxy-runtime-src/src/runtime.cpp:837-917 | The count is checked first; then the writes of a set call are made up to the first variable that stops it, and each variable has the last value written to it, in the cache, among the pending inputs and among the direct ones |
| Runtime.AbsorbedAreTaken | fmu-proxy-runtime-src/src/runtime.cpp:742-756 | For any outputs: each variable has the last convertible one for it, and nothing else changes |
| Runtime.WritesAreAssigned | fmu-proxy-runtime-src/src/runtime.cpp:823-827 | For any writes: each reference and each name has the last value written to it, and nothing else changes |
| Runtime.SeededIsSeeded | fmu-proxy-runtime-src/src/runtime.cpp:519-581 | Seeding goes through the variables in order, each value a start value or zeros of the size that the cache gives it by then |
| Runtime.ProxyRuntime.PendingSurvivesWire | fmu-proxy-runtime-src/src/gateway_client.cpp:99-105 | In every reachable state, each pending input converts to JSON and back without loss |
| Outbox.Database.Enqueue | ops-worker/worker.py:3632-3699 | A new key adds one pending row, due at once; a failed row is reopened, due at once and without attempts; a retry is due at once; a row that is pending, sending or sent stays, and so do all others |
| Outbox.Database.Claim | ops-worker/worker.py:3716-3765 | The first free rows, as many as the limit allows, by time and id, are locked now and returned with their attempts: those that wait and whose time has come, and those whose lock is older than 60 seconds; of the others, stale ones wait again and all else stays |
| Outbox.EnqueuedIs | ops-worker/worker.py:3645-3694 | The same about the table, and keys stay unique |
| Outbox.ClaimIs | ops-worker/worker.py:3716-3765 | The same about the table, for any rows, time and limit |
| Outbox.MarksSettle | ops-worker/worker.py:3768-3811 | Either mark leaves all other rows alone and its own row no longer being sent: sent and otherwise as it was, or failed exactly at the limit, or due again after the delay, with one attempt more than was remembered |
| OutboxProtocol.DeliveredKeeps | ops-worker/worker.py:3768-3782 | Marking a confirmed record as delivered keeps the invariant on rows, and what has been sent |
| OutboxProtocol.FailureKeeps | ops-worker/worker.py:3785-3811 | A failure mark keeps the bounds on attempts and what has been sent, however old the count it writes back |
| Outbox.Database.Deliver | ops-worker/worker.py:3854-3902 | A whole claim, and then every claimed row is settled by its own answer, the retry delay counted from a time during the delivery; none stays locked; other rows keep what the claim left them |
| Outbox.SelectedAreFirst | ops-worker/worker.py:3733-3746 | A selection is sorted, without repeats, all due; a due row left out is behind a full batch |
| Outbox.RetryDelayGrows | ops-worker/worker.py:3339-3340 | The delay is 5 seconds, then doubles with each attempt, and is 300 from the seventh on |
| OutboxProtocol.StepKeepsInvariant | ops-worker/worker.py:3632-3811 | The invariant on rows and on what workers remember is inductive, in any interleaving |
| OutboxProtocol.Safety | ops-worker/worker.py:3632-3902 | In every run a sent row was confirmed by an answer for its own observation and stays sent, no row disappears or changes its observation, and attempts reach the limit exactly in failed rows |
| OutboxLease.StepKeepsExclusion | ops-worker/worker.py:3719-3761 | Exclusion is inductive while locks are no older than the lease |
| OutboxLease.LeaseExcludes | ops-worker/worker.py:3719-3811 | If no lock that is held is older than the lease, by its recorded time, no two workers ever hold the same row |
| OutboxLease.LeaseExcludesIff | ops-worker/worker.py:3719-3811 | Marking every claim within some number of seconds keeps workers apart in every run if and only if that is at most 60 from the recorded time, or 59 from the claim |
| OutboxLease.ShortBatchesExclude | ops-worker/worker.py:3865-3901 | Workers are kept apart whenever the batch size times the longest request is at most 59 seconds |
| OutboxLease.LateWorkerIsOvertaken | ops-worker/worker.py:3719-3732 | For any longer limit, a run within it in which two workers hold one row |
| OutboxFairness.AheadNeverGains | ops-worker/worker.py:3722-3762 | No step adds a row ahead of one whose time has strictly passed |
| OutboxFairness.ClaimTakesBatch | ops-worker/worker.py:3733-3761 | A claim that leaves the row waiting takes a full batch from those ahead, whatever happens between its select and its updates |
| OutboxFairness.NoStarvation | ops-worker/worker.py:3716-3811 | The row is claimed within (rows ahead / batch) + 1 claims |
| Revocation.RevocationQueue.Enqueue | ops-worker/worker.py:3351-3415 | A new token is queued, due at once; a failed one may be tried again at once, without attempts; one that waits gets its new details and expiry; a revoked one stays, and so do all others |
| Revocation.EnqueuedIs | ops-worker/worker.py:3374-3409 | The same about the queue, and hashes stay unique |
| Revocation.SelectedMayBeAsked | ops-worker/worker.py:3578-3590 | A selection holds only tokens that have expired and are due, at most 100; one that is left out is behind a full batch |
| Revocation.NeverTooEarly | ops-worker/worker.py:3578-3607 | In every run with any number of jobs, no token is asked to be deleted that its job had not found expired before |
| Revocation.ProcessedRow | ops-worker/worker.py:3592-3628 | An answer changes only the token's own row: revoked, or failed exactly at the limit, or due again after the delay of the outbox |
| Revocation.ObservedCommutes | ops-worker/worker.py:3554-3563 | The mark of an observed token commutes with both updates of a job, a second one changes nothing, and the first only the token's own row |
| Revocation.ReconciledRow | ops-worker/worker.py:3545-3554 | Evidence about a token that the outbox does not have adds one row for it, with the details read and its hash as key and session |
| Revocation.ObservedKept | ops-worker/worker.py:3545-3563 | No step marks a token as observed that the outbox does not have |
| Revocation.OutboxKeepsKeys | ops-worker/worker.py:3632-3811 | No step of the outbox protocol loses a key |
| Revocation.StepKeepsInvariant | ops-worker/worker.py:3351-3629 | With one job at a time the queue's invariant is inductive, and no step takes a revocation back |
| Revocation.Safety | ops-worker/worker.py:3578-3629 | In every run a revoked token was answered with 204 or 404 before and stays revoked, attempts stay within the limit, and an observed token is in the outbox |
| Revocation.RevocationsStayIff | ops-worker/worker.py:3578-3629 | Every run with some number of jobs keeps every revocation if and only if that number is at most one |
| Revocation.SecondJobTakesBack | ops-worker/worker.py:3602-3628 | With any larger number of jobs, a run that takes a revocation back |
| Scheduler.DispatchesApart | ops-worker/worker.py:3134-3167 | Dispatches of one reservation are more than the cooldown apart, less at most half a second, and without that loss if the record is not stored as a time before the dispatch |
| Scheduler.FullCooldownIff | mysql/002-labstation-ops.sql:45-61 | Every later time that the record allows is more than the cooldown after the dispatch if and only if the record is not stored as a time before the dispatch |
| Scheduler.NextApartIff | ops-worker/worker.py:3134-3167 | Every possible next dispatch keeps the full cooldown if and only if that holds or the window is over |
| Scheduler.CooldownCanFallShort | mysql/002-labstation-ops.sql:45-61 | Two dispatches that the scans allow, closer than the cooldown |
| Scheduler.StoredApart | ops-worker/worker.py:3134-3167 | Recorded times are at least whole cooldowns apart, so the losses do not add up |
| Scheduler.AtMostSoMany | ops-worker/worker.py:3134-3167 | With a positive cooldown, at most (start_lead + lookback) / retry_cooldown + 1 dispatches |
| Scheduler.Orchestrator.DispatchStart | ops-worker/worker.py:3205-3235 | One dispatch is recorded, at its rounded time, whatever the host answers and also when there is none; it continues the reservation's chain; only a success makes a confirmed reservation active |
| Scheduler.Orchestrator.ScanOnce | ops-worker/worker.py:3116-3132 | Only confirmed reservations are started whose start is within lead and lookback of the scan and that have no operation within the cooldown; each of these is started once, unless a full batch of earlier ones is; the only change of status is to active; one operation is recorded for each |
| Scheduler.AnswerMayStart | ops-worker/worker.py:3134-3167 | The same about the rows that the query selects |
| Scheduler.Orchestrator.StartsAreBounded | ops-worker/worker.py:3116-3167 | The bound holds in every reachable state |
| RateLimiter.SessionManager.AllowSessionCreate | fmu-runner/realtime_ws.py:645-655 | Refused exactly if the limit-th last acceptance is less than 60 seconds ago or the limit allows none; the bucket is the accepted history cut to the last 60 seconds |
| RateLimiter.SessionManager.EveryMinute | fmu-runner/realtime_ws.py:645-655 | In every reachable state, every half-open interval of 60 seconds holds at most the limit |
| RateLimiter.AtMostLimit | fmu-runner/realtime_ws.py:650-655 | Spaced acceptances keep every interval within the limit, wherever it begins |
| RateLimiter.SpacedIff | fmu-runner/realtime_ws.py:650-655 | The spacing that the code keeps is exactly that bound on all intervals |

## Left out

- Json.SerializeValue: prints integral numbers below 10^15 in magnitude only; other numbers are printed with 15 digits, which is a matter of rounding.
- Json.SerializeJson: likewise.
- WireText.SurvivesTextIff: likewise, for values that hold real numbers.
- Values.WireRoundTrip: takes numbers as exact reals; infinities, rounding and the comparisons of doubles with the bounds of 64-bit integers are not modelled.
- Runtime.ProxyRuntime.Configure: gets the decoded path, the configuration and the loaded model as parameters; files, URIs, the instance name and the logger are not modelled.
- Runtime.ProxyRuntime.SetNumericValues: stands for the numeric setters; those for booleans, strings and binaries follow the same loop with simpler elements, and the one for clocks takes one value a reference, without a count check and without flat sizes.
- Gateway.GatewayClient.CreateSession: messages are carried as JSON values, as they are before printing; `WireText.MessageArrivesIff` is about their text, for the numbers that the printer prints exactly. `sim.getOutputs` is not modelled, since the runtime does not use it.
- Transport.WebSocketTransport.Connect: sockets, TLS, DNS, timeouts and the accept key are an arbitrary answer of the other side.
- MessageStreams.AllMessagesReceived: is about well-formed streams; malformed ones get the outcome that the reassembly specifies, which tolerates some of them. A comment at `ReceiveText` calls messages bounded; the code has no such bound, and neither has the model.
- OutboxProtocol.Safety: attempts are bounded but may go down, because a late worker writes back the count that it had read. A transaction takes effect or raises; one whose commit is in doubt is not modelled.
- OutboxLease.LeaseExcludesIff: workers and database read one clock, the database in whole seconds. The outbox's schema is not part of this model; its `next_attempt_at` is taken to keep fractions.
- Revocation.Safety: times are whole seconds; cipher texts, user names and the evidence from the connection history are not modelled; reconciling may pick any row, which allows more than the code does.
- Scheduler.Orchestrator.StartsAreBounded: assumes one scheduler, start times that do not change and records that are stored; ending reservations follows the same pattern and is left out.
- RateLimiter.SessionManager.AllowSessionCreate: assumes a clock that does not go back.
- FlatBuffers.ResolveVariableFlatSize: products and sums of sizes are natural numbers; `size_t` does not overflow.
- JsonParser.Parser.ParseNumber: gives the exact value of a token; the rounding, overflow and underflow of `strtod` are not modelled.
- JsonParser.Parser.ParseValue: the depth of the recursion is not limited by a stack.
- Scanning the model description's XML with regular expressions, building the proxy's own XML, and the FMI C interfaces.
- Concurrency slots of the FMU runner, its request cache, and everything behind HTTP: Guacamole, Lab Station, BaSyx, model execution.
