/**
 * The dashboard socket server: a handshake message to every newly connected
 * client, and `broadcastToDashboard`, which sends one timestamped copy of a
 * message to each client whose socket is open and skips the rest.
 */
module Dashboard {

  /** A dashboard socket, identified by the order in which it connected. */
  type ClientId = nat

  /** The `readyState` values of a `ws` socket (0 to 3). */
  datatype ReadyState = Connecting | Open | Closing | Closed

  /** A JSON object with string-valued members. */
  type Message = map<string, string>

  datatype Delivery = Delivery(client: ClientId, message: Message)

  /**
   * `{...message, timestamp}`: every member of the message, with
   * `timestamp` added or overwritten by the send time.
   */
  function Stamp(message: Message, now: string): (r: Message)
    ensures r.Keys == message.Keys + {"timestamp"}
    ensures r["timestamp"] == now
    ensures forall k :: k in message && k != "timestamp" ==> r[k] == message[k]
  {
    message["timestamp" := now]
  }

  /**
   * The `connection` listener: exactly one handshake message, sent to the
   * new client only.
   */
  function OnConnect(client: ClientId, now: string): (r: seq<Delivery>)
    ensures |r| == 1 && r[0].client == client
    ensures r[0].message.Keys == {"type", "message", "timestamp"}
    ensures r[0].message["type"] == "connection" && r[0].message["timestamp"] == now
  {
    [Delivery(client, map["type" := "connection", "message" := "Connected to Diamond Voice Agent", "timestamp" := now])]
  }

  /** The reference for the fan-out: the open clients, in iteration order. */
  function OpenClients(clients: seq<(ClientId, ReadyState)>): (r: seq<ClientId>)
    ensures |r| <= |clients|
    ensures forall c :: c in r <==> (c, Open) in clients
  {
    if |clients| == 0 then []
    else
      (if clients[0].1 == Open then [clients[0].0] else []) + OpenClients(clients[1..])
  }

  /**
   * `broadcastToDashboard` over the server's client set, walked in
   * iteration order: one stamped copy per open client, nothing for a
   * client in any other state. The clock is read once per copy sent:
   * `readings[k]` is the reading taken for the k-th copy, so copies may
   * carry different timestamps. At most one reading per client is needed.
   */
  method Broadcast(clients: seq<(ClientId, ReadyState)>, message: Message, readings: seq<string>)
    returns (sent: seq<Delivery>)
    requires |clients| <= |readings|
    ensures |sent| == |OpenClients(clients)|
    ensures forall i :: 0 <= i < |sent| ==> sent[i] == Delivery(OpenClients(clients)[i], Stamp(message, readings[i]))
    ensures forall c :: (exists i :: 0 <= i < |sent| && sent[i].client == c) <==> (c, Open) in clients
    ensures clients == [] ==> sent == []
  {
    sent := [];
    var i := 0;
    while i < |clients|
      invariant 0 <= i <= |clients|
      invariant StampedCopies(sent, OpenClients(clients[..i]), message, readings)
    {
      BroadcastStep(clients[..i], clients[i], sent, message, readings);
      PrefixStep(clients, i);
      if clients[i].1 == Open {
        sent := sent + [Delivery(clients[i].0, Stamp(message, readings[|sent|]))];
      }
      i := i + 1;
    }
    assert clients[..i] == clients;
    RecipientsAreOpen(clients, sent);
  }

  lemma PrefixStep<T>(s: seq<T>, i: nat)
    requires i < |s|
    ensures s[..i + 1] == s[..i] + [s[i]]
  {
  }

  /** `sent` is one copy per recipient, in order, the k-th stamped with the k-th clock reading. */
  predicate StampedCopies(sent: seq<Delivery>, recipients: seq<ClientId>, message: Message, readings: seq<string>) {
    && |sent| == |recipients|
    && |sent| <= |readings|
    && forall j :: 0 <= j < |sent| ==> sent[j] == Delivery(recipients[j], Stamp(message, readings[j]))
  }

  /** One client of the walk: a copy is appended exactly when it is open. */
  lemma BroadcastStep(visited: seq<(ClientId, ReadyState)>, next: (ClientId, ReadyState), sent: seq<Delivery>,
                      message: Message, readings: seq<string>)
    requires StampedCopies(sent, OpenClients(visited), message, readings)
    requires |sent| < |readings|
    ensures StampedCopies(if next.1 == Open then sent + [Delivery(next.0, Stamp(message, readings[|sent|]))] else sent,
                          OpenClients(visited + [next]), message, readings)
  {
    OpenClientsAppend(visited, [next]);
    OpenClientsSingle(next);
  }

  lemma OpenClientsSingle(client: (ClientId, ReadyState))
    ensures OpenClients([client]) == if client.1 == Open then [client.0] else []
  {
    assert [client][1..] == [];
  }

  /** Deliveries addressed, one by one, to the open clients reach exactly the open clients. */
  lemma RecipientsAreOpen(clients: seq<(ClientId, ReadyState)>, sent: seq<Delivery>)
    requires |sent| == |OpenClients(clients)|
    requires forall i :: 0 <= i < |sent| ==> sent[i].client == OpenClients(clients)[i]
    ensures forall c :: (exists i :: 0 <= i < |sent| && sent[i].client == c) <==> (c, Open) in clients
  {
    forall c ensures (exists i :: 0 <= i < |sent| && sent[i].client == c) <==> (c, Open) in clients {
      if c in OpenClients(clients) {
        var k :| 0 <= k < |OpenClients(clients)| && OpenClients(clients)[k] == c;
        assert sent[k].client == c;
      }
    }
  }

  lemma {:induction false} OpenClientsAppend(a: seq<(ClientId, ReadyState)>, b: seq<(ClientId, ReadyState)>)
    ensures OpenClients(a + b) == OpenClients(a) + OpenClients(b)
    decreases |a|
  {
    if |a| == 0 {
      assert a + b == b;
    } else {
      assert (a + b)[1..] == a[1..] + b;
      OpenClientsAppend(a[1..], b);
    }
  }

  /** How many of the deliveries in a list go to client `c`. */
  function CopiesTo(clients: seq<ClientId>, c: ClientId): nat {
    if |clients| == 0 then 0
    else (if clients[0] == c then 1 else 0) + CopiesTo(clients[1..], c)
  }

  predicate Distinct(clients: seq<(ClientId, ReadyState)>) {
    forall i, j :: 0 <= i < j < |clients| ==> clients[i].0 != clients[j].0
  }

  /**
   * With each client listed once (the client set), every open client gets
   * exactly one copy and every other client none.
   */
  lemma {:induction false} ExactlyOneCopyPerOpenClient(clients: seq<(ClientId, ReadyState)>, c: ClientId)
    requires Distinct(clients)
    ensures CopiesTo(OpenClients(clients), c) == if (c, Open) in clients then 1 else 0
    decreases |clients|
  {
    if |clients| > 0 {
      var rest := clients[1..];
      assert Distinct(rest);
      ExactlyOneCopyPerOpenClient(rest, c);
      var head := if clients[0].1 == Open then [clients[0].0] else [];
      CopiesAppend(head, OpenClients(rest), c);
      if clients[0].0 == c {
        assert forall j :: 0 <= j < |rest| ==> rest[j].0 != c;
        assert (c, Open) !in rest;
      } else {
        assert (c, Open) in clients <==> (c, Open) in rest;
      }
    }
  }

  lemma {:induction false} CopiesAppend(a: seq<ClientId>, b: seq<ClientId>, c: ClientId)
    ensures CopiesTo(a + b, c) == CopiesTo(a, c) + CopiesTo(b, c)
    decreases |a|
  {
    if |a| == 0 {
      assert a + b == b;
    } else {
      assert (a + b)[1..] == a[1..] + b;
      CopiesAppend(a[1..], b, c);
    }
  }
}
