# Diamond voice agent: media-stream session model

A Dafny model of the per-call media-stream handling of the diamond voice
agent server. A telephony provider streams JSON frames (`connected`,
`start`, `media`, `stop`) over a socket. Two independent handlers consume
that protocol:

- `TwilioVoiceHandler` (server/telephony.ts) drives one voice agent per
  call. It remembers the stream id and the agent, forwards base64-decoded
  inbound audio to the agent, and encodes outbound audio back onto the
  socket. It turns the agent's intent, transcript and response callbacks
  into dashboard event records, and ends the call on request.
- The server's own media socket listener (server/server.ts) keeps a
  per-socket `connectionInfo` and a shared `activeConnections` registry
  keyed by stream id. The dashboard socket server sends a handshake to
  each new observer, and `broadcastToDashboard` fans messages out to the
  open observers.

Every listener call is handled atomically. It is modelled as a pure step
function that returns the next state and a trace of effects: agent calls,
socket sends and closes, session-store writes and published event records.
Several media sockets are modelled as an interleaved sequence of
`(socket, event)` steps over a `map` registry.

Files:

- `wrappers.dfy`: `Option`.
- `frames.dfy`: the frame record, the `Inbound` message (a JSON parse
  failure or a record) and its classification into a tagged `Frame`.
- `base64.dfy`: padded standard base64 encoding (section 4 of RFC 4648),
  over bytes as integers 0-255 and digits as integers 0-63.
  Decoding uses Node's lenient rule: the URL-safe digits of section 5 are
  accepted, other characters up to U+00FF are skipped, the first `=` ends the input and
  a lone trailing digit gives no byte.
- `voice_handler.dfy`: `TwilioVoiceHandler`.
- `media_server.dfy`: the server's media-socket listeners, the registry and
  interleaved sockets.
- `dashboard.dfy`: the dashboard handshake and broadcast.

## Behaviour worth knowing

- A second `start` on the voice handler replaces the agent reference
  without disconnecting the earlier agent (`RestartLeavesOldAgentConnected`).
- A second `start` under a stream id replaces the registry entry without
  tearing anything down. A stale socket's close can then remove the newer
  socket's entry (`SharedKeyLastStartWins`).
- `stop` on the voice handler disconnects the agent but clears nothing:
  the stream id and the agent stay set, and later media frames are still
  forwarded.
- `handleTranscript` and `endCall` await the session-store write first.
  When that write is rejected, nothing after it happens: no transcript
  record is published, and the agent is not disconnected nor the socket
  closed.
- `broadcastToDashboard` reads the clock once per copy it sends, so the
  copies of one broadcast can carry different timestamps.
- The server's media listener never forwards audio anywhere: media frames
  are only logged.
- server/server.ts:81 declares the start member as `streamSed`, but the
  listener reads `streamSid` (server/server.ts:118). The model uses
  `streamSid`.
- `sendAudioToTwilio` tests `this.streamSid` for truthiness, so an empty
  stream id sends nothing, like a null one.

## Model

| member | source | states |
|---|---|---|
| Frames.Classify | server/telephony.ts:68-110 | An unparseable message becomes `Malformed`. Each of the four known event tags selects its branch and carries the matching optional payload member unchanged. Every other tag becomes `Unknown` with the tag kept. |
| VoiceHandler.Init | server/telephony.ts:32-44 | A new handler has neither stream id nor agent, holds the constructor's call sid and session id, and satisfies the handler invariant. |
| VoiceHandler.OnMessage | server/telephony.ts:47-110 | Only a start frame with a payload changes the handler, and it issues exactly one `initialize`. A disconnect is issued iff the frame is a stop and an agent exists. Exactly one `sendAudio` is issued iff the frame is a media frame with a payload and an agent exists. Parse failures, `connected` and unknown tags produce no effect at all. Every agent made is initialized once, so only a start with a payload makes one. The invariant (stream id set iff agent set, agent was created by this handler) is preserved. |
| VoiceHandler.OnClose | server/telephony.ts:56-61 | Socket close leaves the state unchanged and disconnects exactly the current agent iff one exists. |
| VoiceHandler.OnError | server/telephony.ts:63-65 | A socket error changes nothing and emits nothing. |
| VoiceHandler.HandleIntentDetected | server/telephony.ts:112-120 | Produces one `intent:detected` record with the intent, confidence and extracted data, tagged with the handler's call sid. |
| VoiceHandler.HandleTranscript | server/telephony.ts:122-135 | First writes the transcript to this call's session record. Only if that write succeeds does it then produce one `call:transcript` record with the transcript, the call sid and the time. |
| VoiceHandler.HandleAgentResponse | server/telephony.ts:137-145 | Produces one `agent:response` record with the response, the call sid and the time. |
| VoiceHandler.SendAudioToTwilio | server/telephony.ts:153-165 | Emits nothing while the stream id is null or empty. Otherwise it emits exactly one `media` frame carrying the current stream id, whose payload is a canonical base64 string that the inbound decoding rule turns back into exactly the audio sent. |
| VoiceHandler.EndCallEffects | server/telephony.ts:167-181 | Marks the session `completed` with its end time first. If that write is rejected nothing else happens; otherwise it disconnects the agent iff one exists and closes the socket last. |
| VoiceHandler.Handle | server/telephony.ts:46-66 | Only inbound messages can change the handler. Call sid and session id never change, the invariant is preserved, and an existing agent is never cleared. |
| VoiceHandler.Run | server/telephony.ts:47-54 | Handling any sequence of inputs keeps the call sid, session id and invariant, and never clears an existing agent. |
| VoiceHandler.AudioRelayInOrder | server/telephony.ts:92-98 | While no new start arrives, the handler does not change and the audio sent to the current agent is exactly the decoded media payloads in receipt order, whatever else is interleaved. |
| VoiceHandler.NothingBeforeStart | server/telephony.ts:92-105 | Before any start frame, every input (media, stop, close, malformed frames, callbacks) leaves stream id and agent unset and calls no agent. |
| VoiceHandler.StartThenRelay | server/telephony.ts:74-98 | A start sets the stream id, installs a fresh agent built with the session id and the start's call sid, and initializes it. Every later media payload reaches that agent decoded and in order. |
| VoiceHandler.RestartLeavesOldAgentConnected | server/telephony.ts:74-90 | A second start installs a different agent and disconnects nothing. |
| VoiceHandler.OldAgentGetsNoAudio | server/telephony.ts:74-98 | After a second start, whatever inputs follow, the replaced agent is never sent audio again. |
| VoiceHandler.StopThenMedia | server/telephony.ts:92-105 | A stop disconnects the agent but keeps it, so a later media frame is still forwarded to it. |
| VoiceHandler.ScenarioStartMediaStop | server/telephony.ts:74-105 | start(S1, C1), media "AAA=", stop gives one new agent, one `initialize`, one `sendAudio` of the two zero bytes and one `disconnect`, and the stream id is S1. |
| VoiceHandler.MalformedBetweenMedia | server/telephony.ts:47-98 | A message that fails to parse between two media frames does not stop either payload from reaching the agent, in order. |
| Base64.Encode | server/telephony.ts:159 | The encoding fills whole four-character groups of standard digits and `=`, and is non-empty for non-empty input. |
| Base64.Decode | server/telephony.ts:95 | Decoding never fails, and its output is no longer than its input. On canonical strings it inverts `Encode`, through `DecodeEncode` and `EncodeDecode`. |
| Base64.DecodeStopsAtPad | server/telephony.ts:95 | Nothing after the first `=` is read: appending `=` and anything else to a payload leaves its decoding unchanged. |
| Base64.DecodeSkipsForeign | server/telephony.ts:95 | Inserting a character that is neither a decoder digit nor `=` anywhere in a payload leaves its decoding unchanged. |
| Base64.DecodeUrlSafe | server/telephony.ts:95 | The URL-safe digits `-` and `_` decode exactly as `+` and `/` wherever they stand. |
| Base64.DecodeLoneDigit | server/telephony.ts:95 | Before any `=`, a single digit after whole groups of four completes no byte and adds nothing to the decoding. |
| Base64.DecodeEncode | server/telephony.ts:159 | The inbound decoding rule inverts the outbound encoding for every byte sequence. |
| Base64.EncodeDecode | server/telephony.ts:95 | Every canonical base64 string is the encoding of what the inbound rule decodes it to. |
| Base64.EncodeIsCanonical | server/telephony.ts:159 | Every outbound encoding is canonical: whole four-character groups, standard digits, at most two `=` and zero unused bits. |
| Base64.CanonicalIffEncoding | server/telephony.ts:159 | A string is canonical iff it is the encoding of some byte sequence. |
| Base64.FromToSextets | server/telephony.ts:95 | Joining the digits that splitting produced gives the original bytes back. |
| Base64.ToFromSextets | server/telephony.ts:159 | Splitting what joining produced gives back the digits, for digit counts other than 1 mod 4 with zero unused bits. |
| MediaServer.OnMessage | server/server.ts:110-174 | Media frames, `connected`, unknown tags and parse failures change neither `connectionInfo` nor the registry. A start with a payload records the connection and makes its stream id map to this socket's entry; every other key is unchanged. A stop changes something only when it has a payload and the socket has started: it then removes the stop frame's stream id, leaves every other key unchanged and clears `connectionInfo`. Entries stay under their own stream id. |
| MediaServer.Teardown | server/server.ts:176-188 | Close and error remove this socket's stream id when `connectionInfo` is set and change nothing otherwise; every other key is unchanged. |
| MediaServer.StartThenCloseUnregisters | server/server.ts:115-181 | start(S) followed by close leaves S unregistered. |
| MediaServer.RestartLeavesFirstRegistered | server/server.ts:115-181 | start(S1), start(S2), close on one socket leaves S1 registered to that socket and S2 unregistered. |
| MediaServer.TeardownAfterStopIsNoop | server/server.ts:155-188 | After a stop, the stop's stream id is gone, `connectionInfo` is null, and close or error change nothing more. |
| MediaServer.StopRemovesFramesKey | server/server.ts:155-166 | A stop naming another stream removes that stream and keeps this socket's own registration. |
| MediaServer.WorldStep | server/server.ts:106-188 | A listener call on one socket never changes another socket's `connectionInfo`. It changes at most one registry key: the start or stop frame's stream id, or the socket's own stream id on close and error. |
| MediaServer.RunWorld | server/server.ts:99-104 | Over any interleaving of sockets, every registry entry stays under its own stream id. |
| MediaServer.OthersLeaveSocketAlone | server/server.ts:106-108 | Steps on other sockets never change a socket's `connectionInfo`. |
| MediaServer.SharedKeyLastStartWins | server/server.ts:123-128 | When two sockets start the same stream id, the registry keeps the later socket's entry. The earlier socket's close then removes it while the later socket is still started. |
| Dashboard.Stamp | server/server.ts:215-218 | The sent copy has every member of the message, with `timestamp` added or overwritten by the send time. |
| Dashboard.OnConnect | server/server.ts:197-209 | A new dashboard client is sent exactly one `connection` message, carrying the time. |
| Dashboard.OpenClients | server/server.ts:212-221 | A client is among the recipients iff it is listed with state `OPEN`. |
| Dashboard.Broadcast | server/server.ts:212-221 | One stamped copy is sent per open client, in iteration order, each stamped with its own clock reading. A client receives a copy iff it is open. With no clients, nothing is sent. |
| Dashboard.ExactlyOneCopyPerOpenClient | server/server.ts:213-215 | When each client is listed once, each open client receives exactly one copy and every other client none. |

## Left out

- Express routes, middleware, health check, `listen` and seeding (server/server.ts:12-64, 224-238), server/simple-server.ts, server/seed.ts and shared/schema.ts: HTTP wiring and fixtures outside the streaming core.
- `createTwilioResponse`: a thin wrapper over the TwiML builder library.
- `VoiceAgent` and `storage` are not part of this model. Their calls appear only as effects in the trace.
- `broadcastEvent` only logs. The model keeps the record it is given (`Publish`) and does not wire it to `Dashboard.Broadcast`, as the code does not.
- The `await`s inside the message listener, including a failing `initialize()`: each message is handled atomically and the agent's asynchronous behaviour is not modelled. The awaited store writes of `handleTranscript` and `endCall` are modelled by a success flag.
- Socket readiness of the media socket (`this.websocket` is always set in the code) and any events after a socket has closed.
- Logging, `JSON.parse` itself (a parse failure is the `Unparseable` message), `sequenceNumber`, media `timestamp`/`chunk` and `mediaFormat`: carried or logged, never acted on.
- Frames are taken as typed by the `TwilioStreamData` interface: every member a frame's payload declares is present with its declared type. A `start` without `streamSid`, or a `media` frame without `payload`, is not modelled. In the code the latter makes `Buffer.from(undefined, 'base64')` throw inside the `try`, so that frame is dropped. The intent `confidence` is modelled as an integer; it is only carried.
- Dates are opaque clock strings passed in as parameters. The broadcast takes its successive clock readings as a sequence, one per client at most.
- The `any`-typed `extractedData` and dashboard message bodies are modelled as string-valued maps.
- Base64.Decode: follows Node's decoder for characters up to U+00FF, with its alphabet, skipped characters, stop at `=` and partial groups stated by `DecodeUrlSafe`, `DecodeSkipsForeign`, `DecodeStopsAtPad` and `DecodeLoneDigit`, but not its output-buffer sizing. Characters above U+00FF are not modelled: Node reads each UTF-16 code unit by its low byte, so `Ł` (U+0141) counts as `A` and an emoji's high surrogate as `=`, while the model skips such characters. Round trips are claimed only for encodings/canonical strings, which are ASCII.
- Dashboard.Broadcast: the client set is a sequence in iteration order. "Exactly one copy per client" is stated for distinct clients, as a set guarantees.
