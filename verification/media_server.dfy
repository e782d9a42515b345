/**
 * The server's own media-socket handler and its registry of active
 * connections. Each socket keeps a local `connectionInfo` (null until a
 * start frame); all sockets share `activeConnections`, a map from stream id
 * to the socket that registered it. Every listener call is atomic, so
 * several sockets are modelled as an interleaved sequence of steps.
 */
module MediaServer {
  import opened Wrappers
  import opened Frames

  /** A socket, identified by the order in which connections were accepted. */
  type SocketId = nat

  datatype ConnectionInfo = ConnectionInfo(streamSid: string, callSid: string)

  /** One `activeConnections` value; `startTime` is a clock reading. */
  datatype Entry = Entry(websocket: SocketId, streamSid: string, callSid: string, startTime: string)

  type Registry = map<string, Entry>

  /** One socket's `connectionInfo` together with the shared registry. */
  datatype Local = Local(info: Option<ConnectionInfo>, registry: Registry)

  /** The two registries agree on every key but `k`. */
  predicate AgreeExcept(r1: Registry, r2: Registry, k: string) {
    && (forall k' :: k' in r1 && k' != k ==> k' in r2 && r1[k'] == r2[k'])
    && (forall k' :: k' in r2 && k' != k ==> k' in r1)
  }

  /** Each entry sits under its own stream id. */
  predicate KeysMatch(registry: Registry) {
    forall k :: k in registry ==> registry[k].streamSid == k
  }

  /**
   * The `message` listener of one socket `ws`. Media frames are only
   * logged; a start with a payload records the connection and (re)registers
   * its stream id; a stop with a payload, once the socket has started,
   * removes the stream id named in the stop frame and forgets the
   * connection; anything else, including a frame that does not parse,
   * changes nothing.
   */
  function OnMessage(ws: SocketId, info: Option<ConnectionInfo>, registry: Registry, m: Inbound, now: string)
    : (r: Local)
    ensures !(Classify(m).Start? || Classify(m).Stop?) ==> r == Local(info, registry)
    ensures Classify(m).Start? ==> match Classify(m).start
      case None => r == Local(info, registry)
      case Some(s) =>
        && r.info == Some(ConnectionInfo(s.streamSid, s.callSid))
        && r.registry.Keys == registry.Keys + {s.streamSid}
        && r.registry[s.streamSid] == Entry(ws, s.streamSid, s.callSid, now)
        && AgreeExcept(registry, r.registry, s.streamSid)
    ensures Classify(m).Stop? ==>
      if Classify(m).stop.Some? && info.Some? then
        && r.info.None?
        && r.registry.Keys == registry.Keys - {Classify(m).stop.value.streamSid}
        && AgreeExcept(registry, r.registry, Classify(m).stop.value.streamSid)
      else r == Local(info, registry)
    ensures KeysMatch(registry) ==> KeysMatch(r.registry)
  {
    match Classify(m)
    case Start(Some(s)) =>
      Local(Some(ConnectionInfo(s.streamSid, s.callSid)),
            registry[s.streamSid := Entry(ws, s.streamSid, s.callSid, now)])
    case Stop(Some(s)) =>
      if info.Some? then Local(None, registry - {s.streamSid}) else Local(info, registry)
    case _ => Local(info, registry)
  }

  /**
   * The `close` and `error` listeners (identical): remove this socket's
   * stream id if it has one. Removing an absent key is harmless and the
   * local `connectionInfo` is left as it is.
   */
  function Teardown(info: Option<ConnectionInfo>, registry: Registry): (r: Registry)
    ensures info.None? ==> r == registry
    ensures info.Some? ==>
      && r.Keys == registry.Keys - {info.value.streamSid}
      && AgreeExcept(registry, r, info.value.streamSid)
    ensures KeysMatch(registry) ==> KeysMatch(r)
  {
    match info
    case Some(c) => registry - {c.streamSid}
    case None => registry
  }

  // ---------------------------------------------------------------------------
  // One connection

  function StartMessage(streamSid: string, callSid: string): Inbound {
    Json(StreamData("start", None, None,
      Some(StartInfo(streamSid, "", callSid, [], MediaFormat("audio/x-mulaw", 8000, 1))), None))
  }

  function StopMessage(streamSid: string, callSid: string): Inbound {
    Json(StreamData("stop", None, None, None, Some(StopInfo(streamSid, "", callSid))))
  }

  /** start(S) then close leaves S unregistered. */
  lemma StartThenCloseUnregisters(ws: SocketId, registry: Registry, s: string, c: string, now: string)
    ensures var l := OnMessage(ws, None, registry, StartMessage(s, c), now);
      s !in Teardown(l.info, l.registry)
  {
  }

  /**
   * start(S1), start(S2), close on one socket leaves S1 registered to that
   * (closed) socket: the second start overwrote `connectionInfo`, so close
   * only removes S2.
   */
  lemma RestartLeavesFirstRegistered(ws: SocketId, registry: Registry, s1: string, s2: string, c: string, now: string)
    requires s1 != s2
    ensures var l1 := OnMessage(ws, None, registry, StartMessage(s1, c), now);
      var l2 := OnMessage(ws, l1.info, l1.registry, StartMessage(s2, c), now);
      var after := Teardown(l2.info, l2.registry);
      && s1 in after && after[s1].websocket == ws
      && s2 !in after
  {
  }

  /** After a stop has cleared `connectionInfo`, close and error change nothing. */
  lemma TeardownAfterStopIsNoop(ws: SocketId, info: ConnectionInfo, registry: Registry, s: string, c: string, now: string)
    ensures var l := OnMessage(ws, Some(info), registry, StopMessage(s, c), now);
      && l.info.None?
      && s !in l.registry
      && Teardown(l.info, l.registry) == l.registry
  {
  }

  /**
   * The stop frame's stream id is the one removed, not the socket's own:
   * a stop naming another stream deletes that stream and leaves this
   * socket's registration in place.
   */
  lemma StopRemovesFramesKey(ws: SocketId, info: ConnectionInfo, registry: Registry, other: string, c: string, now: string)
    requires other != info.streamSid && info.streamSid in registry
    ensures var l := OnMessage(ws, Some(info), registry, StopMessage(other, c), now);
      && other !in l.registry
      && info.streamSid in l.registry
      && l.info.None?
  {
  }

  // ---------------------------------------------------------------------------
  // Many connections, interleaved

  datatype SocketEvent = Opened | Message(message: Inbound, now: string) | Closed | Errored

  /** Every open media socket's `connectionInfo`, and the shared registry. */
  datatype World = World(sockets: map<SocketId, Option<ConnectionInfo>>, registry: Registry)

  /** The registry key, if any, that an event on `ws` may change. */
  function TouchedKey(w: World, ws: SocketId, e: SocketEvent): Option<string> {
    if ws !in w.sockets then None
    else match e
      case Message(m, _) =>
        (match Classify(m)
         case Start(Some(s)) => Some(s.streamSid)
         case Stop(Some(s)) => if w.sockets[ws].Some? then Some(s.streamSid) else None
         case _ => None)
      case Opened => None
      case _ => if w.sockets[ws].Some? then Some(w.sockets[ws].value.streamSid) else None
  }

  /**
   * One listener call. A new socket starts with no `connectionInfo`;
   * after `close` the socket is gone and later events on it are ignored.
   */
  function WorldStep(w: World, ws: SocketId, e: SocketEvent): (r: World)
    // no other socket's local state changes
    ensures forall s :: s != ws ==> (s in r.sockets <==> s in w.sockets)
    ensures forall s :: s != ws && s in w.sockets ==> r.sockets[s] == w.sockets[s]
    // at most the touched key of the registry changes
    ensures TouchedKey(w, ws, e).None? ==> r.registry == w.registry
    ensures TouchedKey(w, ws, e).Some? ==> AgreeExcept(w.registry, r.registry, TouchedKey(w, ws, e).value)
    ensures KeysMatch(w.registry) ==> KeysMatch(r.registry)
  {
    if ws !in w.sockets then
      if e.Opened? then World(w.sockets[ws := None], w.registry) else w
    else match e
      case Opened => w
      case Message(m, now) =>
        var l := OnMessage(ws, w.sockets[ws], w.registry, m, now);
        World(w.sockets[ws := l.info], l.registry)
      case Closed => World(w.sockets - {ws}, Teardown(w.sockets[ws], w.registry))
      case Errored => World(w.sockets, Teardown(w.sockets[ws], w.registry))
  }

  /** An interleaving of listener calls across sockets. */
  function RunWorld(w: World, steps: seq<(SocketId, SocketEvent)>): (r: World)
    ensures KeysMatch(w.registry) ==> KeysMatch(r.registry)
    decreases |steps|
  {
    if |steps| == 0 then w
    else RunWorld(WorldStep(w, steps[0].0, steps[0].1), steps[1..])
  }

  /** Steps on other sockets never change a socket's `connectionInfo`. */
  lemma {:induction false} OthersLeaveSocketAlone(w: World, steps: seq<(SocketId, SocketEvent)>, ws: SocketId)
    requires ws in w.sockets
    requires forall i :: 0 <= i < |steps| ==> steps[i].0 != ws
    ensures ws in RunWorld(w, steps).sockets
    ensures RunWorld(w, steps).sockets[ws] == w.sockets[ws]
    decreases |steps|
  {
    if |steps| > 0 {
      OthersLeaveSocketAlone(WorldStep(w, steps[0].0, steps[0].1), steps[1..], ws);
    }
  }

  /**
   * A later start under the same stream id replaces the entry, so lookup
   * finds only the second socket; the first socket's close then removes
   * the second socket's entry, since both remember the same key.
   */
  lemma SharedKeyLastStartWins(a: SocketId, b: SocketId, s: string, now: string)
    requires a != b
    ensures var w0 := World(map[], map[]);
      var w1 := RunWorld(w0, [(a, Opened), (b, Opened),
                              (a, Message(StartMessage(s, "CA"), now)),
                              (b, Message(StartMessage(s, "CB"), now))]);
      var w2 := WorldStep(w1, a, Closed);
      && s in w1.registry && w1.registry[s].websocket == b
      && s !in w2.registry
      && b in w2.sockets && w2.sockets[b].Some?
  {
    var w0 := World(map[], map[]);
    var steps: seq<(SocketId, SocketEvent)> := [(a, Opened), (b, Opened),
                  (a, Message(StartMessage(s, "CA"), now)),
                  (b, Message(StartMessage(s, "CB"), now))];
    var x1 := WorldStep(w0, a, Opened);
    var x2 := WorldStep(x1, b, Opened);
    var x3 := WorldStep(x2, a, Message(StartMessage(s, "CA"), now));
    var x4 := WorldStep(x3, b, Message(StartMessage(s, "CB"), now));
    assert |steps[1..][1..][1..][1..]| == 0;
    assert RunWorld(x4, []) == x4;
    assert RunWorld(w0, steps) == x4 by {
      assert RunWorld(x3, steps[3..]) == x4;
      assert RunWorld(x2, steps[2..]) == x4;
      assert RunWorld(x1, steps[1..]) == x4;
    }
  }
}
