/**
 * The agent-driving call handler (`TwilioVoiceHandler`): one instance per
 * media socket. It remembers the stream id and the voice agent it created,
 * forwards inbound audio to that agent, encodes outbound audio back onto the
 * socket and turns the agent's callbacks into dashboard events.
 *
 * Each input is handled atomically by a pure step function that returns the
 * next handler state and the trace of effects: calls on the agent, frames
 * written to the socket, writes to the call-session store and the event
 * records handed to the (logging-only) broadcast hook.
 */
module VoiceHandler {
  import opened Wrappers
  import opened Frames
  import Base64

  /** An agent object, identified by the order in which the handler created it. */
  type AgentId = nat

  /** The options `new VoiceAgent(...)` receives besides the three bound callbacks. */
  datatype AgentConfig = AgentConfig(callSessionId: string, callerNumber: string)

  datatype AgentCall =
    | New(agent: AgentId, config: AgentConfig)
    | Initialize(agent: AgentId)
    | SendAudio(agent: AgentId, audio: seq<Base64.Byte>)
    | Disconnect(agent: AgentId)
  {
    /** Which of the four agent operations this call is. */
    function Kind(): CallKind {
      match this
      case New(_, _) => NewCall
      case Initialize(_) => InitializeCall
      case SendAudio(_, _) => SendAudioCall
      case Disconnect(_) => DisconnectCall
    }
  }

  datatype CallKind = NewCall | InitializeCall | SendAudioCall | DisconnectCall

  /** The outbound media frame `{event, streamSid, media: {payload}}`. */
  datatype OutboundMedia = OutboundMedia(event: string, streamSid: string, payload: string)

  /** The fields written by `storage.updateCallSession`. */
  datatype SessionUpdate =
    | TranscriptUpdate(transcript: string)
    | StatusUpdate(status: string, endTime: string)

  /** The records built by the three agent callbacks; timestamps are clock readings. */
  datatype DashboardEvent =
    | IntentDetected(intent: string, confidence: int, extractedData: map<string, string>, callSid: string)
    | CallTranscript(transcript: string, callSid: string, timestamp: string)
    | AgentResponse(response: string, callSid: string, timestamp: string)
  {
    /** The `type` field of the record. */
    function Type(): string {
      match this
      case IntentDetected(_, _, _, _) => "intent:detected"
      case CallTranscript(_, _, _) => "call:transcript"
      case AgentResponse(_, _, _) => "agent:response"
    }

    function CallSid(): string {
      match this
      case IntentDetected(_, _, _, sid) => sid
      case CallTranscript(_, sid, _) => sid
      case AgentResponse(_, sid, _) => sid
    }
  }

  datatype Effect =
    | Agent(call: AgentCall)
    | Send(frame: OutboundMedia)
    | CloseSocket
    | UpdateCallSession(sessionId: string, update: SessionUpdate)
    | Publish(event: DashboardEvent)

  /**
   * The handler's fields. `created` counts the agents made so far and gives
   * the next one its identity.
   */
  datatype Handler = Handler(
    callSid: string,
    callSessionId: string,
    streamSid: Option<string>,
    agent: Option<AgentId>,
    created: nat)

  datatype Step = Step(handler: Handler, effects: seq<Effect>)

  /** What a handler can be asked to do: socket events, agent callbacks and public calls. */
  datatype Input =
    | Message(message: Inbound)
    | SocketClose
    | SocketError
    | IntentCallback(intent: string, confidence: int, extractedData: map<string, string>)
    | TranscriptCallback(transcript: string, now: string, writeOk: bool)
    | ResponseCallback(response: string, now: string)
    | AudioOut(audio: seq<Base64.Byte>)
    | EndCall(now: string, writeOk: bool)

  /**
   * The handler's invariant: the stream id and the agent are set together
   * (only a start frame sets them and nothing clears them), and the agent is
   * one the handler created.
   */
  predicate Valid(h: Handler) {
    && (h.streamSid.Some? <==> h.agent.Some?)
    && (h.agent.Some? ==> h.agent.value < h.created)
  }

  // ---------------------------------------------------------------------------
  // Effect traces

  /** The audio chunks sent to agent `a`, in order. */
  function AudioTo(effects: seq<Effect>, a: AgentId): (r: seq<seq<Base64.Byte>>)
    ensures |r| <= |effects|
  {
    if |effects| == 0 then []
    else
      var e := effects[0];
      if e.Agent? && e.call.SendAudio? && e.call.agent == a
      then [e.call.audio] + AudioTo(effects[1..], a)
      else AudioTo(effects[1..], a)
  }

  /** The number of agent calls of one kind in a trace. */
  function CountCalls(effects: seq<Effect>, kind: CallKind): (n: nat)
    ensures n <= |effects|
  {
    if |effects| == 0 then 0
    else (if effects[0].Agent? && effects[0].call.Kind() == kind then 1 else 0) + CountCalls(effects[1..], kind)
  }

  function Creates(effects: seq<Effect>): nat {
    CountCalls(effects, NewCall)
  }

  function Disconnects(effects: seq<Effect>): nat {
    CountCalls(effects, DisconnectCall)
  }

  function Initializes(effects: seq<Effect>): nat {
    CountCalls(effects, InitializeCall)
  }

  function Sends(effects: seq<Effect>): nat {
    CountCalls(effects, SendAudioCall)
  }

  lemma {:induction false} CountCallsAppend(a: seq<Effect>, b: seq<Effect>)
    ensures forall kind :: CountCalls(a + b, kind) == CountCalls(a, kind) + CountCalls(b, kind)
    decreases |a|
  {
    if |a| > 0 {
      assert (a + b)[1..] == a[1..] + b;
      CountCallsAppend(a[1..], b);
    } else {
      assert a + b == b;
    }
  }

  lemma {:induction false} AudioToAppend(a: seq<Effect>, b: seq<Effect>, agent: AgentId)
    ensures AudioTo(a + b, agent) == AudioTo(a, agent) + AudioTo(b, agent)
    decreases |a|
  {
    if |a| > 0 {
      assert (a + b)[1..] == a[1..] + b;
      AudioToAppend(a[1..], b, agent);
    } else {
      assert a + b == b;
    }
  }

  /** Only agent calls in the trace. */
  predicate AgentOnly(effects: seq<Effect>) {
    forall i :: 0 <= i < |effects| ==> effects[i].Agent?
  }

  // ---------------------------------------------------------------------------
  // Operations

  /** The constructor: no stream and no agent yet. */
  function Init(callSid: string, callSessionId: string): (h: Handler)
    ensures Valid(h)
    ensures h.streamSid == None && h.agent == None
    ensures h.callSid == callSid && h.callSessionId == callSessionId
  {
    Handler(callSid, callSessionId, None, None, 0)
  }

  /**
   * The `message` listener: `handleTwilioMessage` on the parsed frame, or
   * nothing when the frame does not parse (the error is caught and logged).
   */
  function OnMessage(h: Handler, m: Inbound): (r: Step)
    ensures r.handler.callSid == h.callSid && r.handler.callSessionId == h.callSessionId
    ensures Valid(h) ==> Valid(r.handler)
    ensures AgentOnly(r.effects)
    // only a start frame with a payload changes the handler
    ensures r.handler != h <==> Classify(m).Start? && Classify(m).start.Some?
    // parse failures, `connected` and unknown tags do nothing at all
    ensures !(Classify(m).Start? || Classify(m).Media? || Classify(m).Stop?) ==> r.effects == []
    // every agent made is initialized once, and made only by a start with a payload
    ensures Creates(r.effects) == Initializes(r.effects)
    ensures Initializes(r.effects) == (if Classify(m).Start? && Classify(m).start.Some? then 1 else 0)
    ensures Disconnects(r.effects) == (if Classify(m).Stop? && h.agent.Some? then 1 else 0)
    ensures Sends(r.effects) == (if Classify(m).Media? && Classify(m).media.Some? && h.agent.Some? then 1 else 0)
  {
    match Classify(m)
    case Start(Some(info)) =>
      var a := h.created;
      var h' := h.(streamSid := Some(info.streamSid), agent := Some(a), created := h.created + 1);
      var effects := [Agent(New(a, AgentConfig(h.callSessionId, info.callSid))), Agent(Initialize(a))];
      CountCallsAppend([effects[0]], [effects[1]]);
      assert effects == [effects[0]] + [effects[1]];
      Step(h', effects)
    case Media(Some(media)) =>
      if h.agent.Some? then
        Step(h, [Agent(SendAudio(h.agent.value, Base64.Decode(media.payload)))])
      else
        Step(h, [])
    case Stop(_) =>
      if h.agent.Some? then Step(h, [Agent(Disconnect(h.agent.value))]) else Step(h, [])
    case _ => Step(h, [])
  }

  /** The `close` listener: disconnect the agent if there is one. */
  function OnClose(h: Handler): (r: Step)
    ensures r.handler == h
    ensures AgentOnly(r.effects)
    ensures Disconnects(r.effects) == |r.effects|
    ensures |r.effects| == (if h.agent.Some? then 1 else 0)
    ensures h.agent.Some? ==> r.effects[0].call.agent == h.agent.value
  {
    if h.agent.Some? then Step(h, [Agent(Disconnect(h.agent.value))]) else Step(h, [])
  }

  /** The `error` listener only logs. */
  function OnError(h: Handler): (r: Step)
    ensures r.handler == h && r.effects == []
  {
    Step(h, [])
  }

  /** `handleIntentDetected`: one `intent:detected` record for this call. */
  function HandleIntentDetected(h: Handler, intent: string, confidence: int, extractedData: map<string, string>)
    : (r: seq<Effect>)
    ensures |r| == 1 && r[0].Publish?
    ensures r[0].event.Type() == "intent:detected" && r[0].event.CallSid() == h.callSid
    ensures r[0].event.intent == intent && r[0].event.confidence == confidence
    ensures r[0].event.extractedData == extractedData
  {
    [Publish(IntentDetected(intent, confidence, extractedData, h.callSid))]
  }

  /**
   * `handleTranscript`: store the transcript on the session record, then
   * publish it. The store write is awaited, so when it is rejected
   * (`writeOk` false) the publish never happens.
   */
  function HandleTranscript(h: Handler, transcript: string, now: string, writeOk: bool): (r: seq<Effect>)
    ensures |r| == if writeOk then 2 else 1
    ensures r[0] == UpdateCallSession(h.callSessionId, TranscriptUpdate(transcript))
    ensures writeOk ==>
      && r[1].Publish? && r[1].event.Type() == "call:transcript" && r[1].event.CallSid() == h.callSid
      && r[1].event.transcript == transcript && r[1].event.timestamp == now
  {
    var write := UpdateCallSession(h.callSessionId, TranscriptUpdate(transcript));
    if writeOk then [write, Publish(CallTranscript(transcript, h.callSid, now))] else [write]
  }

  /** `handleAgentResponse`: one `agent:response` record for this call. */
  function HandleAgentResponse(h: Handler, response: string, now: string): (r: seq<Effect>)
    ensures |r| == 1 && r[0].Publish?
    ensures r[0].event.Type() == "agent:response" && r[0].event.CallSid() == h.callSid
    ensures r[0].event.response == response && r[0].event.timestamp == now
  {
    [Publish(AgentResponse(response, h.callSid, now))]
  }

  /**
   * `sendAudioToTwilio`: nothing while the stream id is null or empty
   * (both falsy); otherwise one media frame whose payload the inbound
   * decoding rule turns back into exactly the audio sent.
   */
  function SendAudioToTwilio(h: Handler, audio: seq<Base64.Byte>): (r: seq<Effect>)
    ensures h.streamSid.None? || h.streamSid.value == "" ==> r == []
    ensures h.streamSid.Some? && h.streamSid.value != "" ==>
      && |r| == 1 && r[0].Send?
      && r[0].frame.event == "media"
      && r[0].frame.streamSid == h.streamSid.value
      && Base64.Decode(r[0].frame.payload) == audio
      && Base64.IsCanonical(r[0].frame.payload)
  {
    match h.streamSid
    case Some(sid) =>
      if sid == "" then []
      else
        Base64.DecodeEncode(audio);
        Base64.EncodeIsCanonical(audio);
        [Send(OutboundMedia("media", sid, Base64.Encode(audio)))]
    case None => []
  }

  /**
   * `endCall`: mark the session completed with its end time, disconnect the
   * agent if there is one, then close the socket. The status write is
   * awaited, so when it is rejected (`writeOk` false) nothing follows it.
   */
  function EndCallEffects(h: Handler, now: string, writeOk: bool): (r: seq<Effect>)
    ensures 1 <= |r| <= 3
    ensures r[0] == UpdateCallSession(h.callSessionId, StatusUpdate("completed", now))
    ensures !writeOk <==> |r| == 1
    ensures writeOk ==> r[|r| - 1] == CloseSocket
    ensures |r| == 3 <==> writeOk && h.agent.Some?
    ensures |r| == 3 ==> r[1] == Agent(Disconnect(h.agent.value))
  {
    var write := UpdateCallSession(h.callSessionId, StatusUpdate("completed", now));
    if !writeOk then [write]
    else
      var disconnect := if h.agent.Some? then [Agent(Disconnect(h.agent.value))] else [];
      [write] + disconnect + [CloseSocket]
  }

  /** One input. Apart from a start frame, nothing changes the handler's state. */
  function Handle(h: Handler, input: Input): (r: Step)
    ensures r.handler.callSid == h.callSid && r.handler.callSessionId == h.callSessionId
    ensures Valid(h) ==> Valid(r.handler)
    ensures !input.Message? ==> r.handler == h
    ensures h.agent.Some? ==> r.handler.agent.Some?
  {
    match input
    case Message(m) => OnMessage(h, m)
    case SocketClose => OnClose(h)
    case SocketError => OnError(h)
    case IntentCallback(intent, confidence, data) => Step(h, HandleIntentDetected(h, intent, confidence, data))
    case TranscriptCallback(t, now, ok) => Step(h, HandleTranscript(h, t, now, ok))
    case ResponseCallback(resp, now) => Step(h, HandleAgentResponse(h, resp, now))
    case AudioOut(audio) => Step(h, SendAudioToTwilio(h, audio))
    case EndCall(now, ok) => Step(h, EndCallEffects(h, now, ok))
  }

  /** The inputs handled one after another; the traces are concatenated. */
  function Run(h: Handler, inputs: seq<Input>): (r: Step)
    ensures r.handler.callSid == h.callSid && r.handler.callSessionId == h.callSessionId
    ensures Valid(h) ==> Valid(r.handler)
    ensures h.agent.Some? ==> r.handler.agent.Some?
    decreases |inputs|
  {
    if |inputs| == 0 then Step(h, [])
    else
      var s := Handle(h, inputs[0]);
      var t := Run(s.handler, inputs[1..]);
      Step(t.handler, s.effects + t.effects)
  }

  // ---------------------------------------------------------------------------
  // Properties of input sequences

  /** A start frame carrying a payload: the only input that replaces the agent. */
  predicate IsStart(input: Input) {
    input.Message? && Classify(input.message).Start? && Classify(input.message).start.Some?
  }

  /** The reference for the relay: each media payload decoded, in receipt order. */
  function DecodedPayloads(inputs: seq<Input>): (r: seq<seq<Base64.Byte>>)
    ensures |r| <= |inputs|
  {
    if |inputs| == 0 then []
    else
      var head := if inputs[0].Message? && Classify(inputs[0].message).Media?
                     && Classify(inputs[0].message).media.Some?
                  then [Base64.Decode(Classify(inputs[0].message).media.value.payload)]
                  else [];
      head + DecodedPayloads(inputs[1..])
  }

  predicate NoAgentCalls(effects: seq<Effect>) {
    forall i :: 0 <= i < |effects| ==> !effects[i].Agent?
  }

  /** One input other than a start sends the current agent exactly the audio its media payload decodes to. */
  lemma StepRelay(h: Handler, input: Input, a: AgentId)
    requires h.agent == Some(a) && !IsStart(input)
    ensures Handle(h, input).handler == h
    ensures AudioTo(Handle(h, input).effects, a) == DecodedPayloads([input])
  {
    var e := Handle(h, input).effects;
    if input.EndCall? && input.writeOk {
      assert e == [e[0]] + [e[1]] + [e[2]];
      AudioToAppend([e[0]] + [e[1]], [e[2]], a);
      AudioToAppend([e[0]], [e[1]], a);
    } else if input.TranscriptCallback? && input.writeOk {
      assert e == [e[0]] + [e[1]];
      AudioToAppend([e[0]], [e[1]], a);
    }
  }

  /**
   * While no new start arrives, the agent's audio trace is exactly the
   * decoded media payloads in receipt order: nothing is dropped, reordered
   * or sent elsewhere, whatever else (malformed frames, stops, callbacks)
   * is interleaved.
   */
  lemma {:induction false} AudioRelayInOrder(h: Handler, inputs: seq<Input>, a: AgentId)
    requires h.agent == Some(a)
    requires forall i :: 0 <= i < |inputs| ==> !IsStart(inputs[i])
    ensures Run(h, inputs).handler == h
    ensures AudioTo(Run(h, inputs).effects, a) == DecodedPayloads(inputs)
    decreases |inputs|
  {
    if |inputs| > 0 {
      var s := Handle(h, inputs[0]);
      StepRelay(h, inputs[0], a);
      AudioRelayInOrder(s.handler, inputs[1..], a);
      AudioToAppend(s.effects, Run(s.handler, inputs[1..]).effects, a);
      assert DecodedPayloads(inputs) == DecodedPayloads([inputs[0]]) + DecodedPayloads(inputs[1..]);
    }
  }

  /**
   * Before any start frame there is no agent: media frames, stops, closes,
   * malformed frames and the rest leave the stream id and agent unset and
   * call no agent at all.
   */
  lemma {:induction false} NothingBeforeStart(h: Handler, inputs: seq<Input>)
    requires h.agent.None?
    requires forall i :: 0 <= i < |inputs| ==> !IsStart(inputs[i])
    ensures Run(h, inputs).handler == h
    ensures NoAgentCalls(Run(h, inputs).effects)
    decreases |inputs|
  {
    if |inputs| > 0 {
      var s := Handle(h, inputs[0]);
      assert s.handler == h;
      assert NoAgentCalls(s.effects);
      NothingBeforeStart(h, inputs[1..]);
    }
  }

  /**
   * A start installs a fresh agent built with the call-session id and
   * initializes it once; the relay then carries the decoded payloads of
   * every later media frame to that agent, in order.
   */
  lemma StartThenRelay(h: Handler, info: StartInfo, rest: seq<Input>)
    requires Valid(h)
    requires forall i :: 0 <= i < |rest| ==> !IsStart(rest[i])
    ensures var m := Message(Json(StreamData("start", None, None, Some(info), None)));
      var r := Run(h, [m] + rest);
      && r.handler.streamSid == Some(info.streamSid)
      && r.handler.agent == Some(h.created)
      && r.effects[..2] == [Agent(New(h.created, AgentConfig(h.callSessionId, info.callSid))), Agent(Initialize(h.created))]
      && AudioTo(r.effects, h.created) == DecodedPayloads(rest)
  {
    var m := Message(Json(StreamData("start", None, None, Some(info), None)));
    var started := h.(streamSid := Some(info.streamSid), agent := Some(h.created), created := h.created + 1);
    var calls := [Agent(New(h.created, AgentConfig(h.callSessionId, info.callSid))), Agent(Initialize(h.created))];
    StartStep(h, info);
    var t := Run(started, rest);
    assert Run(h, [m] + rest) == Step(t.handler, calls + t.effects) by {
      RunCons(h, m, rest);
    }
    assert AudioTo(t.effects, h.created) == DecodedPayloads(rest) && t.handler == started by {
      AudioRelayInOrder(started, rest, h.created);
    }
    assert (calls + t.effects)[..2] == calls;
    AudioToAppend(calls, t.effects, h.created);
  }

  /** The step a start frame with a payload takes: a fresh agent, made and then initialized. */
  lemma StartStep(h: Handler, info: StartInfo)
    ensures var m := Message(Json(StreamData("start", None, None, Some(info), None)));
      Handle(h, m) == Step(h.(streamSid := Some(info.streamSid), agent := Some(h.created), created := h.created + 1),
                           [Agent(New(h.created, AgentConfig(h.callSessionId, info.callSid))), Agent(Initialize(h.created))])
  {
  }

  /** Running a non-empty sequence: the first input's step, then the rest. */
  lemma RunCons(h: Handler, first: Input, rest: seq<Input>)
    ensures var s := Handle(h, first);
      var t := Run(s.handler, rest);
      Run(h, [first] + rest) == Step(t.handler, s.effects + t.effects)
  {
    assert ([first] + rest)[0] == first && ([first] + rest)[1..] == rest;
  }

  /**
   * A second start replaces the agent without disconnecting the first one,
   * which stays connected (`OldAgentGetsNoAudio`: it no longer receives audio).
   */
  lemma RestartLeavesOldAgentConnected(h: Handler, info: StartInfo)
    requires Valid(h) && h.agent.Some?
    ensures var r := OnMessage(h, Json(StreamData("start", None, None, Some(info), None)));
      && Disconnects(r.effects) == 0
      && r.handler.agent.Some? && r.handler.agent != h.agent
  {
  }

  /**
   * After a second start, whatever follows, the replaced agent is sent no
   * audio at all: later starts make agents with fresh identities.
   */
  lemma OldAgentGetsNoAudio(h: Handler, info: StartInfo, rest: seq<Input>)
    requires Valid(h) && h.agent.Some?
    ensures var m := Message(Json(StreamData("start", None, None, Some(info), None)));
      AudioTo(Run(h, [m] + rest).effects, h.agent.value) == []
  {
    var m := Message(Json(StreamData("start", None, None, Some(info), None)));
    var replaced := h.agent.value;
    var started := h.(streamSid := Some(info.streamSid), agent := Some(h.created), created := h.created + 1);
    var calls := [Agent(New(h.created, AgentConfig(h.callSessionId, info.callSid))), Agent(Initialize(h.created))];
    StartStep(h, info);
    var t := Run(started, rest);
    assert Run(h, [m] + rest) == Step(t.handler, calls + t.effects) by {
      RunCons(h, m, rest);
    }
    assert AudioTo(t.effects, replaced) == [] by {
      RetiredAgentSilent(started, rest, replaced);
    }
    assert AudioTo(calls, replaced) == [] by {
      assert calls == [calls[0]] + [calls[1]];
      AudioToAppend([calls[0]], [calls[1]], replaced);
    }
    AudioToAppend(calls, t.effects, replaced);
  }

  /** An agent that is not the current one, and was made before, is never sent audio again. */
  lemma {:induction false} RetiredAgentSilent(h: Handler, inputs: seq<Input>, a: AgentId)
    requires h.agent != Some(a) && a < h.created
    ensures AudioTo(Run(h, inputs).effects, a) == []
    decreases |inputs|
  {
    if |inputs| > 0 {
      var s := Handle(h, inputs[0]);
      StepSilent(h, inputs[0], a);
      RetiredAgentSilent(s.handler, inputs[1..], a);
      AudioToAppend(s.effects, Run(s.handler, inputs[1..]).effects, a);
    }
  }

  /** One input sends audio only to the current agent, and keeps a retired agent retired. */
  lemma StepSilent(h: Handler, input: Input, a: AgentId)
    requires h.agent != Some(a) && a < h.created
    ensures AudioTo(Handle(h, input).effects, a) == []
    ensures Handle(h, input).handler.agent != Some(a) && a < Handle(h, input).handler.created
  {
    var e := Handle(h, input).effects;
    if |e| == 3 {
      assert e == [e[0]] + [e[1]] + [e[2]];
      AudioToAppend([e[0]] + [e[1]], [e[2]], a);
      AudioToAppend([e[0]], [e[1]], a);
    } else if |e| == 2 {
      assert e == [e[0]] + [e[1]];
      AudioToAppend([e[0]], [e[1]], a);
    }
  }

  /** A stop disconnects the agent but keeps it: later media frames are still forwarded to it. */
  lemma StopThenMedia(h: Handler, stop: Option<StopInfo>, media: MediaInfo)
    requires h.agent.Some?
    ensures var inputs := [Message(Json(StreamData("stop", None, None, None, stop))),
                           Message(Json(StreamData("media", None, Some(media), None, None)))];
      Run(h, inputs).effects == [Agent(Disconnect(h.agent.value)), Agent(SendAudio(h.agent.value, Base64.Decode(media.payload)))]
  {
    var inputs := [Message(Json(StreamData("stop", None, None, None, stop))),
                   Message(Json(StreamData("media", None, Some(media), None, None)))];
    var a := h.agent.value;
    var s1 := Handle(h, inputs[0]);
    assert s1 == Step(h, [Agent(Disconnect(a))]);
    var s2 := Handle(h, inputs[1]);
    assert s2 == Step(h, [Agent(SendAudio(a, Base64.Decode(media.payload)))]);
    assert inputs[1..][1..] == [];
    assert Run(h, inputs[1..]) == Step(h, s2.effects);
  }

  /**
   * The call scenario start(S1, C1), media "AAA=", stop: the agent is made,
   * initialized once, sent the two zero bytes "AAA=" encodes and
   * disconnected once.
   */
  lemma ScenarioStartMediaStop(callSessionId: string, format: MediaFormat)
    ensures var start := StartInfo("S1", "AC1", "C1", ["inbound"], format);
      var inputs := [
        Message(Json(StreamData("start", None, None, Some(start), None))),
        Message(Json(StreamData("media", Some("1"), Some(MediaInfo("0", "1", "AAA=")), None, None))),
        Message(Json(StreamData("stop", None, None, None, Some(StopInfo("S1", "AC1", "C1")))))];
      var r := Run(Init("C1", callSessionId), inputs);
      && r.handler.streamSid == Some("S1")
      && r.effects == [
        Agent(New(0, AgentConfig(callSessionId, "C1"))),
        Agent(Initialize(0)),
        Agent(SendAudio(0, [0, 0])),
        Agent(Disconnect(0))]
  {
    var start := StartInfo("S1", "AC1", "C1", ["inbound"], format);
    var inputs := [
      Message(Json(StreamData("start", None, None, Some(start), None))),
      Message(Json(StreamData("media", Some("1"), Some(MediaInfo("0", "1", "AAA=")), None, None))),
      Message(Json(StreamData("stop", None, None, None, Some(StopInfo("S1", "AC1", "C1")))))];
    assert Base64.Decode("AAA=") == [0, 0] by {
      assert Base64.Digits("AAA=") == [0, 0, 0] by {
        assert "AAA="[1..] == "AA=";
        assert "AA="[1..] == "A=";
        assert "A="[1..] == "=";
      }
    }
    var h0 := Init("C1", callSessionId);
    var s1 := Handle(h0, inputs[0]);
    var h1 := s1.handler;
    assert h1.streamSid == Some("S1") && h1.agent == Some(0);
    var s2 := Handle(h1, inputs[1]);
    assert s2 == Step(h1, [Agent(SendAudio(0, [0, 0]))]);
    var s3 := Handle(h1, inputs[2]);
    assert s3 == Step(h1, [Agent(Disconnect(0))]);
    assert inputs[1..][1..] == inputs[2..] && inputs[2..][1..] == [];
    assert Run(h1, inputs[2..]) == s3;
    assert Run(h1, inputs[1..]) == Step(h1, s2.effects + s3.effects);
  }

  /** A frame that fails to parse between two media frames costs nothing: both payloads reach the agent, in order. */
  lemma MalformedBetweenMedia(h: Handler, first: MediaInfo, second: MediaInfo)
    requires h.agent.Some?
    ensures var inputs := [
        Message(Json(StreamData("media", None, Some(first), None, None))),
        Message(Unparseable),
        Message(Json(StreamData("media", None, Some(second), None, None)))];
      AudioTo(Run(h, inputs).effects, h.agent.value)
        == [Base64.Decode(first.payload), Base64.Decode(second.payload)]
  {
    var inputs := [
      Message(Json(StreamData("media", None, Some(first), None, None))),
      Message(Unparseable),
      Message(Json(StreamData("media", None, Some(second), None, None)))];
    AudioRelayInOrder(h, inputs, h.agent.value);
    assert inputs[1..][1..][1..] == [];
    assert DecodedPayloads(inputs[2..]) == [Base64.Decode(second.payload)];
    assert DecodedPayloads(inputs[1..]) == DecodedPayloads(inputs[2..]);
  }
}
