# LanTalk: a model of the chat protocol and its parts

LanTalk is a peer-to-peer chat program for a local network. This project models the parts of it
that decide whether a message arrives, and proves what they promise.

`dafny verify dfyconfig.toml` checks all of it.

## How the pieces fit

| file | what it models |
|---|---|
| `Text.dfy` | `std::string::find`, decimal printing, `stoi`, `stoll`, `stoul` |
| `FlatJson.dfy` | finding a field of a flat object by raw substring search |
| `Message.dfy` | `ChatMessage`, its printer and its scanner (escapes of section 7 of RFC 8259) |
| `SessionJson.dfy` | the session's own JSON helpers and the HELLO, AUTH_REQUEST and AUTH_RESPONSE payloads |
| `Protocol.dfy` | frame header, frames, and the incremental `FrameReader` against a one-shot parse |
| `Transport.dfy` | concurrent `Connection::send` calls over one socket in partial writes, composed with the reader |
| `Connection.dfy` | one connection: `send`, `disconnect`, and `recvLoop` |
| `ReceiveRate.dfy` | what `recvLoop` lets through and when it ends: order, rate limit, bursts |
| `MessageQueue.dfy` | the bounded queue as a monitor with two condition variables, over all interleavings |
| `Config.dfy`, `ConfigFile.dfy` | the configuration, `set`, `save` and `load` |
| `ChatSession.dfy` | the session object with its two maps, tied to one small automaton per connection |
| `Answers.dfy` | what a session sends, records and announces on each event, in the texts of the protocol |
| `SessionHistory.dfy` | what every run of a session keeps |
| `TwoParty.dfy` | two sessions joined by two first-in-first-out channels, for any two configurations |
| `Identity.dfy` | whom a session takes its peer for, in its entries, its announcements and in `sendTo` |
| `LostChats.dfy` | for which configurations a chat can be lost |
| `Handshake.dfy` | how the handshake of two sessions ends, and that it ends |
| `TwoSessions.dfy` | two whole sessions, joined by a byte stream each way, as runs of the two-party model |
| `EndToEnd.dfy` | a message from one session's user to the other's message callback, through every layer |
| `Discovery.dfy` | the announce packet and the table of a scan |
| `Authentication.dfy` | challenge and response with HMAC (section 2 of RFC 2104) as a parameter |

Each loop and each object of the source is a method or a class here, proved against a function; what the
program promises is then proved about these functions. `ChatSession.ChatSession` keeps a ghost trace of all
calls, and its invariant says that every entry of its maps, every frame it put on a wire, every peer event
and every message it handed out is what the automaton of that connection gives on the trace. The histories
are therefore about the object itself, and `TwoSessions.JointIsDuo` makes the two-party runs about two of them.

`EndToEnd.ChannelCarriesPackets` is what makes the channels of the two-party model bytes in arbitrary chunks;
`Transport.SentFramesArriveInOrder` is what makes them frames of several sending threads in partial writes, and
`Transport.SendIsSteps` says that its steps are those of the `sendAll` loop.

## Assumptions

- Frames and disconnects carry the id that `addConnection` assigned, as `src/chat/chat_session.hpp:53-55`
  describes. `src/main.cpp:88-96` and `src/main.cpp:212-214` pass an empty id instead.
- Each handler, `addConnection` together with its HELLO, and `disconnect` is one step.
- A socket that fails once fails for good. The answers of `::send` and `recv`, the clock, the random ids, the
  host name and HMAC are parameters.
- `unsigned long` has 64 bits; digits are ASCII; file contents and payloads are sequences of octets.

## What the proofs turned up

- A chat survives its wire text if and only if both ids are non-empty and no string field ends in a backslash:
  the closing-quote test of `src/chat/message.cpp:58` looks back one character, so the escaped backslash at the
  end of a value hides the closing quote (`Message.MessageRoundTrip`).
- The session's own scanner resolves escapes, but not the `\u` ones its printer writes, so a value comes back if
  and only if it has no control character except newline, return and tab (`SessionJson.FieldRoundTrip`). A
  secret with such a character never authenticates, even against itself
  (`Handshake.ControlSecretNeverAuthenticates`).
- A raw substring search finds a field if and only if no earlier field imitates its key, between two of its quotes
  or together with the next key (`FlatJson.FieldFound`). A search for a text field can
  only be led astray in an object with a key that is a single `:`, and the program has none. A key with a control byte is never found (`SessionJson.JsonStrRoundTrip`).
- Exactly which pairs of configurations can lose a well-formed chat on a registered connection: two sides with
  device ids of which one asks for authentication and the other does not, or both ask and one accepts the other's
  answer without being accepted itself, for instance because only one of them has a secret
  (`LostChats.NoChatDroppedExactly`). The runs that lose one are `LostChats.EarlyChatIsLost` (six moves) and
  `LostChats.RefusedChatIsLost` (eleven). A side without a device id never says a well-formed chat, because every
  chat carries its sender's id and an empty one is refused (`Message.RefusedExactly`); but its chat frames do arrive
  before it is authenticated, if it asks for no authentication itself and the other side has a device id.
- A handshake that nothing disturbs ends with both sides authenticated if and only if both have a device id and
  each side that asks accepts the answer of the other (`Handshake.HandshakeOutcome`).
- A header's `reserved` field is never sent; a header with a value there does not come back
  (`Protocol.HeaderRoundTrip`). `README.md:251` of the repository shows two reserved bytes on the wire; the code
  sends twelve bytes without them.
- The frames that a throwing call of `feed` completed are lost with it (`Protocol.DeliveredBeforeViolation`).
- `README.md:262` of the repository says that peers sending more than 100 frames a second are disconnected. The
  loop ends for the rate if and only if a chunk closes a window, by coming a second or more after the last check,
  and the window held more than 100 frames (`ReceiveRate.EndsForItsReason`, `ReceiveRate.StaysRunning`). So any
  number of frames within a second passes (`ReceiveRate.AnyBurstPasses`) until another chunk comes a second after
  the start (`ReceiveRate.NextChunkPunishes`), and a peer that sends 101 frames in two chunks, however far apart
  beyond a second, is cut off (`ReceiveRate.SlowPeerIsPunished`).
- A HELLO that is handled for an id without a connection leaves a peer entry that has none, authenticated if no
  authentication is asked for, and no ping round removes it (`SessionHistory.LateHelloLeavesOrphan`,
  `SessionHistory.OrphansExactly`).
- A session knows its peer by what HELLO says, so `sendTo` finds a peer by its configured device id if and only if
  that id has no unreadable control character (`Identity.NamedByOwnId`).
- After `disconnect` a send that had already passed its first test may still return true, but only when its last
  byte was written before the socket was closed (`Transport.NothingAfterClose`).
- The announce packet names the platform of the build, not the configured one, and a device id over 36 bytes or
  with a NUL arrives cut (`Discovery.AnnounceRoundTrip`).
- A saved configuration is loaded back if and only if every string fits on one line without blanks around it
  and the device id and the display name are not empty (`ConfigFile.ConfigRoundTrip`). A port outside 16 bits in
  the file is silently reduced, and a number that `stoi` rejects ends `load` with an exception after the earlier
  lines took effect (`ConfigFile.ConfigStore.Load`).
- `disconnect` does not report to the session; a connection closed here keeps its entry until a ping fails.
- `docs/protocol.md:8-10` and `docs/security.md:3` speak of discovery port 31337 and of TLS; the code has neither.

## Model

| member | source | states |
|---|---|---|
| Text.BytesRoundTrip | src/network/protocol.cpp:106-119 | a payload text copied into a frame and out again is the same text |
| Text.ReadPrinted | src/chat/message.cpp:46-74 | an integer printed by `to_string` is read back with its sign and magnitude |
| Text.NumberWritten | src/chat/message.cpp:64-78 | blanks, at most one sign, digits and anything behind them are read as the sign and the digits |
| FlatJson.FieldHidesKey | src/chat/message.cpp:51-55 | some position inside a rendered field matches the search for another key iff its value, or the gap to the next key, imitates that key |
| FlatJson.FieldFound | src/chat/chat_session.cpp:44-48 | the search for a field's key, with or without the opening quote of the value, finds that field's own start iff no earlier field imitates the key |
| FlatJson.NothingImitates | src/chat/chat_session.cpp:44-48 | in an object without a key that is a single colon nothing imitates a quoted search, whatever the values are; without a key that starts with a colon nothing imitates a number search |
| FlatJson.ColonKeyFound | src/chat/chat_session.cpp:44-48 | the key `:` is found iff no earlier text field has the value `:` |
| Message.EscapeJson | src/chat/message.cpp:10-21 | the escaping loop computes the specified escape of its input |
| Message.UnescapeJson | src/chat/message.cpp:23-39 | the unescaping loop computes the specified inverse, with unknown escapes standing for themselves |
| Message.UnescapeEscape | src/chat/message.cpp:10-39 | escapes are self-delimiting: unescaping an escaped text gives the text and goes on behind it |
| Message.ExtractJsonString | src/chat/message.cpp:51-62 | the loop computes the specified field reader, which stops at the first quote that does not follow a backslash; `Message.StringFieldRead`, `Message.ValueRead` and `Message.AbsentFields` say what that reader gives |
| Message.ValueRead | src/chat/message.cpp:57-61 | from an opening quote the value is read exactly when it does not end in a backslash |
| Message.StringFieldRead | src/chat/message.cpp:51-62 | a string field that no earlier field imitates is recovered iff its value does not end in a backslash |
| Message.ExtractJsonInt | src/chat/message.cpp:64-78 | the number scanner reads the run of digits and signs, and gives 0 where `stoll` throws |
| Message.IntFieldRead | src/chat/message.cpp:64-78 | every 64-bit timestamp survives printing and scanning |
| Message.NoNumber | src/chat/message.cpp:64-78 | a number field without a number is 0 |
| Message.NumberThere | src/chat/message.cpp:64-78 | a number that does not fit in 64 bits is 0, every other one is itself |
| Message.ParseMessage | src/chat/message.cpp:80-89 | `fromJson` computes the specified message or refusal; `Message.AbsentFields` and `Message.MessageRoundTrip` say which |
| Message.AbsentFields | src/chat/message.cpp:51-89 | any text: where `"msgId":"` or `"senderId":"` occurs nowhere the message is refused; where `"senderName":"` or `"text":"` occurs nowhere that field is empty; where `"timestampUtc":` occurs nowhere the time is 0; an accepted message has both ids |
| Message.EscapesAreJson | src/chat/message.cpp:10-39 | quote, backslash, newline, return and tab have their escapes of section 7 of RFC 8259, every other character stands for itself |
| Message.ToJsonIsObject | src/chat/message.cpp:41-49 | the printed message is a flat object of five escaped fields |
| Message.RefusedExactly | src/chat/message.cpp:41-89 | a printed message is refused iff one of its two ids is empty, whatever its other fields hold |
| Message.MessageRoundTrip | src/chat/message.cpp:41-89 | a message comes back unchanged iff both ids are non-empty and no string field ends in a backslash |
| SessionJson.JsonEscape | src/chat/chat_session.cpp:15-36 | the escaping loop, with `\u` escapes for the other control characters |
| SessionJson.ReadString | src/chat/chat_session.cpp:44-69 | the scanning loop resolves escapes up to the first unescaped quote |
| SessionJson.ScanEscape | src/chat/chat_session.cpp:15-69 | scanning an escaped value ends at its own closing quote, whatever follows |
| SessionJson.GarbledLength | src/chat/chat_session.cpp:28-62 | what is read differs from the value, and is longer, exactly when it has an unreadable control character |
| SessionJson.ControlEscapeIsCode | src/chat/chat_session.cpp:28-32 | the other control characters are written as `\u` and their code in four hexadecimal digits |
| SessionJson.FieldRoundTrip | src/chat/chat_session.cpp:38-69 | a field that no earlier field imitates is recovered iff its value has no control character but newline, return and tab |
| SessionJson.JsonStrRoundTrip | src/chat/chat_session.cpp:15-69 | in any object of `jsonStr` fields with distinct keys without quotes and backslashes, none a single colon, a value is recovered iff its key has no control byte and the value only readable ones, whatever the other fields are; under a key with a control byte only the empty value |
| SessionJson.AbsentKey | src/chat/chat_session.cpp:44-48 | a key that occurs nowhere in a text, in quotes and before a colon and a quote, has the empty value |
| SessionJson.HelloRead | src/chat/chat_session.cpp:266-284 | HELLO carries the three identity fields to the other side |
| SessionJson.HelloPort | src/chat/chat_session.cpp:266-279 | HELLO carries the listening port |
| SessionJson.AuthRequestRead | src/chat/chat_session.cpp:299-309 | AUTH_REQUEST carries its challenge |
| SessionJson.AuthResponseRead | src/chat/chat_session.cpp:381-394 | AUTH_RESPONSE carries its response, whatever the device id is |
| SessionJson.AuthResponseDevice | src/chat/chat_session.cpp:369-391 | AUTH_RESPONSE carries the device id, whatever the response is |
| Protocol.TypeFromByte | src/network/protocol.cpp:36-56 | a byte read as a known type is that type's own byte |
| Protocol.TypeCodes | src/network/protocol.hpp:17-36 | each type has the byte the protocol gives it, and every other byte is unknown |
| Protocol.HeaderLayout | src/network/protocol.cpp:58-70 | magic, version, type, length and flags stand at their offsets, most significant byte first |
| Protocol.FrameLayout | src/network/protocol.cpp:98-115 | a frame of the program is 4C 54 4C 41 01, its type, its length, two zeros and the payload |
| Protocol.HeaderRead | src/network/protocol.cpp:72-96 | twelve bytes are accepted iff they begin with 4C 54 4C 41 01, and type, length and flags are read from their offsets |
| Protocol.HeaderRoundTrip | src/network/protocol.cpp:58-96 | a header comes back iff magic and version are the protocol's and `reserved` is zero |
| Protocol.HeaderBytesRoundTrip | src/network/protocol.cpp:58-96 | accepted header bytes are printed back iff their type is known or 0xFF |
| Protocol.FillHeader | src/network/protocol.cpp:58-70 | the buffer filled at fixed offsets holds the specified twelve bytes |
| Protocol.FrameReader.constructor | src/network/protocol.cpp:121-122 | a new reader waits for a header with an empty buffer |
| Protocol.FrameReader.Feed | src/network/protocol.cpp:124-158 | one call returns and leaves behind what parsing held bytes and new bytes at once gives, or throws where that has an error |
| Protocol.FrameReader.Reset | src/network/protocol.cpp:160-163 | after a reset the reader is as new |
| Protocol.ParseAppend | src/network/protocol.cpp:124-158 | parsing a stream in two pieces is parsing it at once, and an error stays where it was |
| Protocol.AfterIsParse | src/network/protocol.cpp:124-158 | what a reader holds depends on the bytes it was fed, not on how they were cut |
| Protocol.ChunkingIndependence | src/network/protocol.cpp:124-158 | for a well-formed stream no call throws and the frames of all calls are those of the one-shot parse, for every split |
| Protocol.ViolationPoint | src/network/protocol.cpp:133-140 | for a malformed stream exactly the calls from the one with the twelfth byte of the first bad header on throw, always the same error |
| Protocol.ErrorKind | src/network/protocol.cpp:124-140 | the error of a malformed stream is what is wrong with the twelve bytes behind its valid frames: the magic or the version, or else the length |
| Protocol.DeliveredBeforeViolation | src/network/protocol.cpp:124-158 | the frames handed out are those completed before the first throwing call, a prefix of the valid ones |
| Protocol.ReaderAccounting | src/network/protocol.cpp:124-158 | bytes fed equal the delivered frames, the pending header and the buffer; the buffer is below what is awaited, which is within the limit |
| Protocol.ParseStream | src/network/protocol.cpp:98-158 | the bytes of frames made by `create` within the limit parse to exactly these frames with nothing left |
| Transport.TcpSocket.SendAll | src/network/tcp_socket.cpp:136-153 | it succeeds iff the socket is valid and the answers before the first failure take all bytes; what was taken is on the wire once and in order |
| Transport.OfferedIs | src/network/tcp_socket.cpp:136-153 | what the answers before the first failure take is the sum of the partial writes; retries cost nothing and nothing counts after the failure |
| Transport.SendIsSteps | src/network/connection.cpp:30-35 | a send that gets the mutex is one run of the steps lock, writes, return or fail, with the wire and the result of `sendAll` |
| Transport.RunKeeps | src/network/connection.cpp:30-35 | in every interleaving one sender writes at a time and the wire is the returned frames and the holder's part |
| Transport.SentFramesArriveInOrder | src/network/connection.cpp:30-35 | for any interleaving, partial writes, failures and chunks the received frames are a prefix of the frames in mutex order, and all of them once every byte is read, no send is open and the socket is; `Transport.NothingAfterClose` says what closing does |
| Transport.EndsOpen | src/network/connection.cpp:41-48 | `disconnect` closes the socket and stops further calls, a refused write ends the use of the socket and gives up the mutex, and neither touches the wire |
| Transport.ReturnsWhenComplete | src/network/tcp_socket.cpp:136-153 | a send in progress returns true iff its whole frame is written, and fails only before |
| Transport.NothingAfterClose | src/network/connection.cpp:30-48 | after `disconnect` or a refused write the wire never changes again in any continuation; at most the holder of the mutex still returns true, and only when all bytes of its frame were on the wire by then; after `disconnect` no call of send begins |
| Connection.Connection.Send | src/network/connection.cpp:30-35 | the frame goes on the wire iff the connection runs and its socket still takes data, and the result says so |
| Connection.Connection.Disconnect | src/network/connection.cpp:41-48 | a connection that still runs sends one DISCONNECT with the reason if its socket takes data, and stops; later calls change nothing |
| Connection.Connection.RecvLoop | src/network/connection.cpp:63-105 | frames handed over, bytes held, clock, counter, exit and report to the session are those of the specified run over the events, and so is the frame with which it ends, which `ReceiveRate.FarewellFrame` gives |
| ReceiveRate.StaysRunning | src/network/connection.cpp:63-105 | the loop survives any events iff all are data without a hang-up, the bytes are well formed and every window that the clock closed held at most 100 frames |
| ReceiveRate.EndsForItsReason | src/network/connection.cpp:63-105 | otherwise it ends at the first harmful event, for exactly the reason that event gives; for the rate iff that event closes a window with more than 100 frames |
| ReceiveRate.FarewellFrame | src/network/connection.cpp:41-105 | over all events: on a usable link without a hang-up the loop sends one DISCONNECT iff it ends for the rate or a protocol error, with "Rate limit exceeded" or the text of what is wrong with the first bad header; a hang-up in the last event sends its own reason; otherwise nothing is sent |
| ReceiveRate.NothingLost | src/network/connection.cpp:78-85 | whatever ends it, the frames handed over are those of the chunks used, in order, once each |
| ReceiveRate.RateBound | src/network/connection.cpp:87-95 | while the loop survives, the frames up to the last check are at most 100 for each full second since the start, and the last check is less than a second before the latest chunk |
| ReceiveRate.BurstGoesUnpunished | src/network/connection.cpp:87-95 | no number of well-formed frames within the first second ends the loop |
| ReceiveRate.AnyBurstPasses | src/network/connection.cpp:87-95 | for every n there is a burst of n frames, each in a chunk of twelve bytes and all at one moment, that the loop survives |
| ReceiveRate.NextChunkPunishes | src/network/connection.cpp:87-95 | after a burst the next chunk ends the loop for the rate iff it comes a second after the start or later and the total exceeds 100 |
| ReceiveRate.SlowPeerIsPunished | src/network/connection.cpp:87-95 | a peer that sends m frames in one chunk, waits any time of a second or more and sends n in another is cut off iff m + n exceeds 100 |
| MessageQueue.MessageQueue.Push | src/chat/message_queue.cpp:7-15 | a message is appended iff there is room |
| MessageQueue.MessageQueue.Pop | src/chat/message_queue.cpp:17-26 | the oldest message is returned and removed, or nothing when empty |
| MessageQueue.MessageQueue.Drain | src/chat/message_queue.cpp:54-61 | the callback gets every pending message, oldest first, and the queue is empty |
| MessageQueue.NoLostWakeup | src/chat/message_queue.cpp:7-61 | in every reachable state with timeouts and barging, while producers sleep the free slots are at most the woken producers, and likewise for consumers and items |
| MessageQueue.NobodySleepsInVain | src/chat/message_queue.cpp:7-61 | when every woken thread has run, sleepers mean a full or an empty queue, and never both kinds sleep |
| MessageQueue.FifoOverAllRuns | src/chat/message_queue.cpp:7-61 | over all interleavings what left the queue and what is in it are what was pushed, in order, within the bound |
| MessageQueue.WokenProducerPushes | src/chat/message_queue.cpp:7-15 | a woken producer that finds room pushes the message it waited with |
| MessageQueue.WokenConsumerPops | src/chat/message_queue.cpp:17-26 | a woken consumer that finds a message takes the oldest one |
| MessageQueue.CallsAreSteps | src/chat/message_queue.cpp:7-26 | a call on the free monitor appends its message or takes the oldest one, or sleeps exactly where the object's method gives up, with its message kept |
| MessageQueue.ExpiredGivesUp | src/chat/message_queue.cpp:7-26 | in every reachable state a timed-out producer of a full queue gives up and pushes nothing, and so does a timed-out consumer of an empty one; a thread woken too early sleeps on |
| MessageQueue.OfferIsItsCall | src/chat/message_queue.cpp:7-15 | over all runs, what a waiting producer will push is the message of the call that it has been waiting in ever since |
| ChatSession.ChatSession.constructor | src/chat/chat_session.cpp:73 | a new session has the empty history |
| ChatSession.ChatSession.Start | src/chat/chat_session.cpp:245-249 | the session runs from here on |
| ChatSession.ChatSession.Stop | src/chat/chat_session.cpp:251-262 | a running session disconnects every connection and forgets all |
| ChatSession.ChatSession.AddConnection | src/chat/chat_session.cpp:102-128 | a running session registers the connection with a new peer and sends HELLO; otherwise nothing happens |
| ChatSession.ChatSession.OnFrame | src/chat/chat_session.cpp:196-224 | a frame moves the automaton of its own connection and no other, and hands out what that connection hears; `Answers.FrameAnswered` and `Answers.EntryFollows` say how |
| ChatSession.ChatSession.HandleHello | src/chat/chat_session.cpp:281-328 | HELLO without an id disconnects; otherwise the peer is recorded under the names it gives (`Answers.EntryFollows`) and asked to authenticate, or accepted |
| ChatSession.ChatSession.HandleAuthRequest | src/chat/chat_session.cpp:369-391 | a request is answered with the secret, or with `ok` when there is none |
| ChatSession.ChatSession.HandleAuthResponse | src/chat/chat_session.cpp:393-425 | a known connection is authenticated and announced, or refused and disconnected; an unknown one is left alone |
| ChatSession.ChatSession.HandleChatMessage | src/chat/chat_session.cpp:330-351 | the callback gets a well-formed chat of an authenticated peer and nothing else |
| ChatSession.ChatSession.OnDisconnect | src/chat/chat_session.cpp:226-243 | both entries go, and an authenticated peer is announced as gone |
| ChatSession.ChatSession.ReceiverDisconnects | src/network/connection.cpp:92-103 | a connection closed here for a protocol error or the rate limit keeps its entries |
| ChatSession.ChatSession.SocketBreaks | src/network/tcp_socket.cpp:141-149 | a socket that fails changes one connection and nothing the session recorded |
| ChatSession.ChatSession.Broadcast | src/chat/chat_session.cpp:156-174 | exactly the usable connections of authenticated peers get one CHAT_MESSAGE with the id, the time, the text and the session's own identity; nothing else goes out |
| ChatSession.ChatSession.SendTo | src/chat/chat_session.cpp:130-154 | the message, with its text and the session's own identity, goes to the first authenticated peer with this id in the order of the map, if there is one and its connection is usable, and to nobody else; the result says whether it went out |
| ChatSession.LessIs | src/chat/chat_session.cpp:130-141 | the order of the map is lexicographic |
| ChatSession.ChatSession.PingLoopRound | src/chat/chat_session.cpp:427-446 | one round removes exactly the connections whose ping failed |
| ChatSession.ChatSession.Peers | src/chat/chat_session.cpp:176-185 | the list has each authenticated connection's peer exactly once |
| ChatSession.ChatSession.PeerCount | src/chat/chat_session.cpp:187-194 | the count is the length of that list |
| Answers.RunningIs | src/chat/chat_session.cpp:245-262 | a session runs iff it was started and not stopped since |
| Answers.AddIntroduces | src/chat/chat_session.cpp:102-279 | a running session registers a connection with a blank entry and sends a HELLO that reads as its own identity and port; one that does not run takes none |
| Answers.FrameAnswered | src/chat/chat_session.cpp:196-425 | after any history an open connection answers every frame with exactly these frames and texts, and is hung up by exactly an invalid HELLO, a refused answer or a DISCONNECT |
| Answers.EventAnswered | src/chat/chat_session.cpp:130-446 | and it sends exactly this on every other event: PING, the chat of a broadcast or of a `sendTo` with its id, the DISCONNECT of `stop` |
| Answers.SilentOnceClosed | src/chat/chat_session.cpp:102-446 | after any history nothing goes out on a connection that is gone, hung up or broken, until it is added again |
| Answers.EntryFollows | src/chat/chat_session.cpp:102-446 | after any history each event leaves in the entry of a peer, and announces about it, exactly what HELLO said, the accepted answer or the loss decided |
| SessionHistory.DecisionStep | src/chat/chat_session.cpp:102-425 | an event changes a peer's state, and announces it up or gone, exactly as that event decides |
| SessionHistory.HistoryDecides | src/chat/chat_session.cpp:196-425 | for every run a recorded state is the one that the latest decisive event of the connection's history gives, and there is no entry iff there is none |
| SessionHistory.CallbackReceivesAuthenticatedChats | src/chat/chat_session.cpp:330-351 | for every run the callback has received exactly the well-formed chats that arrived while the history said AUTHENTICATED, in order |
| SessionHistory.SessionInvariant | src/chat/chat_session.cpp:226-425 | in every run each connection has a peer entry, and each gone notice follows an up notice since it was last added |
| SessionHistory.OrphansExactly | src/chat/chat_session.cpp:226-328 | a peer entry has no connection iff a HELLO with an id came in for an id without a connection and since then that id was not added, not reported lost, and the session not stopped |
| SessionHistory.PingsLeaveOrphans | src/chat/chat_session.cpp:427-446 | no number of ping rounds changes such an entry |
| SessionHistory.LateHelloLeavesOrphan | src/chat/chat_session.cpp:226-328 | added, lost, HELLO: an authenticated peer without a connection, whatever ping rounds follow |
| SessionHistory.BroadcastReachesAuthenticated | src/chat/chat_session.cpp:156-174 | after any run a broadcast puts one CHAT_MESSAGE with its id, time, text and sender on exactly the usable connections of authenticated peers and changes nothing else |
| TwoParty.RunKeeps | src/chat/chat_session.cpp:102-425 | for any two configurations the invariant on both wires, HELLO before request before answer before chat, and on both states holds in every run |
| TwoParty.NoChatDropped | src/chat/chat_session.cpp:330-351 | unless the configurations can lose chats, in every run a side that still has the connection has handed out every well-formed chat that arrived, in order |
| TwoParty.ChatArrivesAuthenticated | src/chat/chat_session.cpp:156-174 | with safe configurations, when the next frame of a registered connection is a chat its sender is already authenticated there |
| TwoParty.HandshakeSucceeds | src/chat/chat_session.cpp:281-425 | for any two configurations, with both connections usable and both wires drained both sides are authenticated |
| Identity.RunNames | src/chat/chat_session.cpp:281-313 | for any two configurations, in every run each entry is blank or names the other side, by its device id, its display name and its platform as they read from HELLO, and every up and down notice names it |
| Identity.RegisteredPeers | src/chat/chat_session.cpp:281-313 | in every run the entry of a registered connection is blank before the other side's first frame is handled, or if that side has no id, and names the other side afterwards |
| Identity.PlainIdentity | src/chat/chat_session.cpp:15-69 | each recorded name is the configured one iff it has no unreadable control character |
| Identity.SessionsName | src/chat/chat_session.cpp:102-446 | the same for two whole sessions with everything else they do |
| Identity.NamedByOwnId | src/chat/chat_session.cpp:130-141 | on a connection that a broadcast reaches, `sendTo` finds the other side by its configured device id iff that has no unreadable control character |
| Identity.SendToFindsPeer | src/chat/chat_session.cpp:130-154 | then its one message, with its text and sender, goes out on that wire, and otherwise none does |
| LostChats.EarlyChatIsLost | src/chat/chat_session.cpp:156-174 | a side that asks for nothing broadcasts on the first HELLO, and the frame is dropped where it is not yet, or never, authenticated: a run of six moves; it is a well-formed chat iff its id is not empty and the sender has a name |
| LostChats.RefusedChatIsLost | src/chat/chat_session.cpp:393-425 | a side that accepts an answer but whose own is refused loses its broadcast: a run of eleven moves |
| LostChats.NoChatDroppedExactly | src/chat/chat_session.cpp:102-425 | for all pairs of configurations: no run drops a well-formed chat on a registered connection iff the pair keeps chats; no chat frame ever arrives before its sender is authenticated iff the pair is safe |
| Handshake.HandshakeSound | src/chat/chat_session.cpp:393-425 | with a secret required, a peer is authenticated only after it transmitted, and this side received, an answer that reads as the secret |
| Handshake.SameSecretMatches | src/chat/chat_session.cpp:369-425 | equal secrets without unreadable control characters match, and are safe and keep chats when both sides ask for the same |
| Handshake.HandshakeOutcome | src/chat/chat_session.cpp:281-425 | in every run that nothing disturbs, once both wires are drained, both sides hold each other authenticated iff the configurations match |
| TwoParty.HonestAnswer | src/chat/chat_session.cpp:369-404 | an honest answer is accepted iff there is no secret or it survives the printer and the scanner as the secret |
| Handshake.ControlSecretNeverAuthenticates | src/chat/chat_session.cpp:28-62 | a secret with an unreadable control character authenticates nobody |
| Handshake.DeliveryLowersMeasure | src/chat/chat_session.cpp:196-425 | without new input every delivery lowers a measure of frames in flight and open ends, for any two configurations |
| Handshake.Quiescence | src/chat/chat_session.cpp:196-425 | from any state only that many deliveries are possible: the sessions cannot answer each other for ever |
| EndToEnd.ChannelCarriesPackets | src/network/protocol.cpp:98-158 | the bytes of any packets within the limit, however cut, are read without an exception as a prefix of them, and as all of them at the end |
| EndToEnd.MessagesAreLogged | src/chat/chat_session.cpp:345-351 | the callback's messages are the per-connection log without its tags |
| EndToEnd.AuthenticatedIsHeard | src/chat/chat_session.cpp:330-351 | through any other events an authenticated connection contributes exactly its well-formed chats, in order |
| EndToEnd.BroadcastsOnWire | src/chat/chat_session.cpp:156-174 | successive broadcasts append exactly their chats to the wire of an authenticated connection |
| EndToEnd.SaidTail | src/chat/chat_session.cpp:130-174 | after any history, the chats that further events put on a wire are exactly what the broadcasts and sendTo calls among them say there |
| EndToEnd.BroadcastsAreSaid | src/chat/chat_session.cpp:156-174 | on an authenticated usable connection every broadcast is said |
| EndToEnd.WireReachesCallback | src/chat/chat_session.cpp:196-351 | for any sender history, any chunks of any part of its wire and any receiver history, from when the receiver holds the peer authenticated the callback gets exactly the well-formed chats among the frames handled since, once each and in order |
| EndToEnd.BroadcastsArrive | src/chat/chat_session.cpp:130-351 | what the sender says during any further events reaches the other callback once each, in order and unchanged, after the chats still on the way, when all bytes arrive and the receiver holds it authenticated |
| EndToEnd.TextsArrive | src/chat/chat_session.cpp:156-351 | one message for each broadcast text reaches the other callback, in order, with that text, its id, its time and the sender's id and name, when the texts fit the limit and are of octets, both ids are there and no field ends in a backslash |
| TwoSessions.EventIsAct | src/chat/chat_session.cpp:102-446 | any event of a session, seen from one of its connections, is one act of the two-party model |
| TwoSessions.JointIsDuo | src/chat/chat_session.cpp:102-446 | any joint history of two sessions, seen from a pair of connections that feed each other, is a run of the two-party model with the same states, frames handled and messages heard |
| TwoSessions.SessionsLoseNothing | src/chat/chat_session.cpp:102-446 | two sessions joined by a byte stream each way, cut into any chunks: unless the configurations can lose chats, a session that still has the connection has handed out every well-formed chat among the frames handled, once each and in order |
| Discovery.BuildAnnouncePacket | src/discovery/lan_discovery.cpp:57-92 | the packet that is built part by part is the specified one |
| Discovery.ParseAnnouncePacket | src/discovery/lan_discovery.cpp:94-141 | over all byte arrays the parser stays inside, and accepts exactly 44 bytes or more with the magic and the whole name inside |
| Discovery.RefusedPackets | src/discovery/lan_discovery.cpp:94-122 | a packet is refused iff it has less than 44 bytes, does not begin with 4C 54 4C 44, or ends inside the name |
| Discovery.PacketRead | src/discovery/lan_discovery.cpp:94-141 | version, port, id up to its first NUL, name and platform are the bytes at their offsets; a platform that is missing or does not fit is empty |
| Discovery.AnnounceBytes | src/discovery/lan_discovery.cpp:57-92 | each part of a built packet stands at its offset: magic, version, port, id filled up with NULs, and name and platform behind their lengths |
| Discovery.ParseBuilt | src/discovery/lan_discovery.cpp:57-141 | parsing a built packet gives the port, version 1, the id cut to 36 bytes and at its first NUL, the name cut to 255 bytes and the build's platform |
| Discovery.AnnounceRoundTrip | src/discovery/lan_discovery.cpp:57-141 | the id comes back iff it has at most 36 bytes and no NUL, the name iff it has at most 255 bytes |
| Discovery.FirstsInOrder | src/discovery/lan_discovery.cpp:216-228 | the first sightings are one for each id seen, in order of first sight |
| Discovery.LatestIs | src/discovery/lan_discovery.cpp:218-224 | the entry of an id is the last packet with that id |
| Discovery.Sighted | src/discovery/lan_discovery.cpp:216-228 | one more packet replaces the entry with its id or adds one, keeping the table what it should be |
| Discovery.Scan | src/discovery/lan_discovery.cpp:205-233 | for any packets the result is the table of first sights with latest packets, and the callback fired once for each id with its first packet |
| Discovery.TableLists | src/discovery/lan_discovery.cpp:205-236 | the result has distinct ids, never our own, and exactly the ids accepted |
| ConfigFile.ConfigStore.Set | src/config/config.cpp:211-229 | the field named by the key takes the parsed value and every other stays; nothing changes for an unknown key or a rejected number |
| ConfigFile.ConfigStore.Save | src/config/config.cpp:183-208 | the file is the specified sequence of sections and fields, which `ConfigFile.SaveItemsAre`, `ConfigFile.FieldLine` and `ConfigFile.LinesWritten` spell out line by line |
| ConfigFile.ConfigStore.Load | src/config/config.cpp:132-164 | the line loop applies every line in turn, and an exception leaves exactly the lines before the rejected one applied |
| ConfigFile.NamesKey | src/config/config.cpp:183-229 | a key is known by the one name under which `save` writes it |
| ConfigFile.ValueMeaning | src/config/config.cpp:211-229 | a boolean key becomes true iff the value is `true`; ports and the size are the number read, up to a multiple of their width; other numbers and all texts are taken as they are; only a number that cannot be read throws |
| ConfigFile.TrimIs | src/config/config.cpp:132-164 | key and value lose exactly the blanks and tabs at both ends |
| ConfigFile.IgnoredLine | src/config/config.cpp:134-159 | empty lines, lines that begin with `;` or `#`, section headers and lines without `=` change nothing |
| ConfigFile.IdentityEnsured | src/config/config.cpp:55-68 | a loaded configuration has both identities; those it gave are kept, and nothing else changes |
| ConfigFile.SetTouchesOne | src/config/config.cpp:211-229 | setting a key, to whatever value, leaves every other field alone |
| ConfigFile.SetPrinted | src/config/config.cpp:183-229 | setting a key to its printed value copies that field and no other, integers included |
| ConfigFile.ConfigRoundTrip | src/config/config.cpp:120-229 | loading a saved file over any state restores all fifteen fields iff every string fits on a line without blanks around it and neither identity is empty |
| ConfigFile.OnlySettingsMatter | src/config/config.cpp:134-159 | comments, headers, lines without `=` and unknown keys make no difference anywhere in a file |
| Authentication.ReadString | src/security/authentication.cpp:25-38 | the scanning loop, where a backslash only protects the next character |
| Authentication.FirstFieldRead | src/security/authentication.cpp:13-38 | the first field of an object built without escapes is recovered iff its value has no quote and no backslash, whatever the others hold |
| Authentication.ChallengeAgreement | src/security/authentication.cpp:50-110 | for every challenge without quotes and backslashes the verifier accepts iff it has no key, or both have one and their HMAC values are equal |
| Authentication.SameKeyAccepted | src/security/authentication.cpp:56-110 | two holders of one key always recognise each other |
| Authentication.AbsentFields | src/security/authentication.cpp:56-98 | any payload: without a response field it is refused where a key is set, without a challenge field it is answered by nothing |

## Left out

- Handshake.HandshakeSound: is one way, for in a run that is still going on an honest peer with the right secret may not be authenticated yet; `Handshake.HandshakeOutcome` decides the runs that are delivered.
- Connection.Connection.RecvLoop: counts frames without the width of `int`, and takes any chunk of bytes where the code reads at most 4096.
- Discovery.Scan: takes whole datagrams; the code cuts them at 1024 bytes, more than any packet it builds.
- MessageQueue.MessageQueue.Push: is the call as a thread sees it under the mutex; waiting, timing out and notifying are in the interleavings, where each stretch under the mutex is one step.
- MessageQueue.MessageQueue.Pop: likewise.
- Connections in the session are values (running, socket broken) under their id; sharing one connection object under two ids is not modelled.
- Interleavings inside one handler, between the check and the state write of `disconnect`, and between registering a connection and its HELLO.
- Thread creation and joining, destructors, sleep times and time-outs of sockets.
- Socket set-up, address lookup, accept, connect, and the rest of `TcpSocket`.
- OpenSSL: HMAC is a parameter, random ids and certificates are not part of this model.
- Paths, directories, the missing-file branch of `load`, files that cannot be opened, and the host name lookup.
- The pending challenges of `Authenticator`, `size`, `empty`, `getAsString`, `messageTypeName`, `formatForDisplay`: easy members only.
- The command parser, the terminal interface, the logger and the dispatch in `main.cpp`.
- Secrecy and strength of the exchange: only the state machine is modelled.
