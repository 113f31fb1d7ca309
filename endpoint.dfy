/**
 `websocket_endpoint` of main.py: the per-connection handler. It registers
 the socket, then loops: receive a text, wrap it in a `Message` with the
 sender's id and the server clock, store it, broadcast its JSON text. A
 `WebSocketDisconnect` raised anywhere in the loop is caught and unregisters
 the id; any other exception escapes the handler and leaves the id
 registered.

 The external calls are parameters. An `Inbound` is one `receive_text()`
 that returns, together with the clock reading of that iteration, whether
 `insert_one` succeeds, and which sockets raise on `send_text` meanwhile;
 a session is the finite sequence of them after which `receive_text` raises
 `WebSocketDisconnect`. `json.dumps(message.dict())` is the function `dumps`.
 */
module Endpoint {
  import opened Wrappers
  import opened Delivery
  import opened Registry

  datatype Inbound = Inbound(content: string, timestamp: string, stored: bool, faults: map<Handle, Fault>)

  /** How the handler ends: it caught `WebSocketDisconnect`, or another exception escaped it. */
  datatype Exit = Closed | Escaped

  /** The `Message` built for one received text. */
  function MessageOf(clientId: ClientId, inbound: Inbound): Message
  {
    Message(clientId, inbound.content, inbound.timestamp)
  }

  /** The messages of a whole session, in receiving order. */
  function Messages(clientId: ClientId, inbox: seq<Inbound>): (r: seq<Message>)
    ensures |r| == |inbox|
    ensures forall i :: 0 <= i < |inbox| ==> r[i] == MessageOf(clientId, inbox[i])
  {
    if inbox == [] then [] else [MessageOf(clientId, inbox[0])] + Messages(clientId, inbox[1..])
  }

  /** The texts a session broadcasts, in receiving order. */
  function Texts(clientId: ClientId, inbox: seq<Inbound>, dumps: Message -> string): (r: seq<string>)
    ensures |r| == |inbox|
    ensures forall i :: 0 <= i < |inbox| ==> r[i] == dumps(MessageOf(clientId, inbox[i]))
  {
    if inbox == [] then [] else [dumps(MessageOf(clientId, inbox[0]))] + Texts(clientId, inbox[1..], dumps)
  }

  /**
   One iteration after `receive_text` returned: `add_to_history`, then, if
   that did not raise, `broadcast`. It never changes the registry.
   */
  function Step(m: Manager, clientId: ClientId, inbound: Inbound, dumps: Message -> string)
    : (r: (Manager, Option<Fault>))
    requires WellFormed(m)
    ensures WellFormed(r.0)
    ensures r.0.order == m.order && r.0.active == m.active
    ensures r.0.history == if inbound.stored then m.history + [MessageOf(clientId, inbound)] else m.history
    ensures !inbound.stored ==> r == (m, Some(Failure))
  {
    var message := MessageOf(clientId, inbound);
    var recorded := Recorded(m, message, inbound.stored);
    if recorded.1.Some? then recorded
    else Broadcasted(recorded.0, dumps(message), inbound.faults)
  }

  /**
   The `while True` loop and its `except WebSocketDisconnect`, from a
   registry in which `clientId` is already connected.
   */
  function Session(m: Manager, clientId: ClientId, inbox: seq<Inbound>, dumps: Message -> string)
    : (r: (Manager, Exit))
    requires WellFormed(m)
    decreases |inbox|
    ensures WellFormed(r.0)
    ensures r.1 == Closed ==> clientId !in r.0.active
    ensures r.1 == Escaped ==> r.0.order == m.order && r.0.active == m.active
    ensures forall k :: k != clientId ==> (k in r.0.active <==> k in m.active)
    ensures forall k :: k != clientId && k in m.active ==> r.0.active[k] == m.active[k]
  {
    if inbox == [] then (Disconnected(m, clientId), Closed)
    else
      var step := Step(m, clientId, inbox[0], dumps);
      match step.1
      case None => Session(step.0, clientId, inbox[1..], dumps)
      case Some(Disconnect) => (Disconnected(step.0, clientId), Closed)
      case Some(Failure) => (step.0, Escaped)
  }

  /**
   The whole handler: `connect`, then the loop.
   */
  function Run(m: Manager, clientId: ClientId, ws: Handle, inbox: seq<Inbound>, dumps: Message -> string)
    : (r: (Manager, Exit))
    requires WellFormed(m)
    ensures WellFormed(r.0)
  {
    Session(Connected(m, clientId, ws), clientId, inbox, dumps)
  }

  /**
   When a handler ends by a disconnect, its id is gone from the registry,
   and so is any socket its `connect` displaced under the same id; every
   other id keeps its socket.
   */
  lemma RunClosedUnregisters(m: Manager, clientId: ClientId, ws: Handle, inbox: seq<Inbound>, dumps: Message -> string)
    requires WellFormed(m)
    requires Run(m, clientId, ws, inbox, dumps).1 == Closed
    ensures Run(m, clientId, ws, inbox, dumps).0.active == m.active - {clientId}
  {
    var c := Connected(m, clientId, ws);
    var r := Session(c, clientId, inbox, dumps);
    var expected := m.active - {clientId};
    assert r.0.active.Keys == expected.Keys by {
      assert forall k :: k in r.0.active <==> k in expected;
    }
    assert forall k :: k in r.0.active ==> r.0.active[k] == expected[k] by {
      assert forall k :: k != clientId && k in m.active ==> c.active[k] == m.active[k];
    }
    MapsAgree(r.0.active, expected);
  }

  /** When another exception escapes the handler, its socket stays registered under its id. */
  lemma RunEscapedStaysRegistered(m: Manager, clientId: ClientId, ws: Handle, inbox: seq<Inbound>, dumps: Message -> string)
    requires WellFormed(m)
    requires Run(m, clientId, ws, inbox, dumps).1 == Escaped
    ensures Run(m, clientId, ws, inbox, dumps).0.active == m.active[clientId := ws]
  {
  }

  // ---------------------------------------------------------------------
  // Properties of the relay

  /** An iteration that goes right: its store call succeeds and no registered socket raises. */
  ghost predicate Harmless(inbound: Inbound, active: map<ClientId, Handle>)
  {
    && inbound.stored
    && forall id :: id in active ==> active[id] !in inbound.faults
  }

  /**
   A received text that is stored and meets no faulted socket is appended to
   the store exactly once, as a message carrying the sender's id and the
   received content, and its JSON text reaches every registered socket
   exactly once and no other socket.
   */
  lemma StepRelays(m: Manager, clientId: ClientId, inbound: Inbound, dumps: Message -> string)
    requires WellFormed(m) && Injective(m.active)
    requires Harmless(inbound, m.active)
    ensures Step(m, clientId, inbound, dumps).1 == None
    ensures Step(m, clientId, inbound, dumps).0.history
            == m.history + [Message(clientId, inbound.content, inbound.timestamp)]
    ensures forall h :: h in m.active.Values ==>
      Outbox(Step(m, clientId, inbound, dumps).0.outboxes, h)
      == Outbox(m.outboxes, h) + [dumps(MessageOf(clientId, inbound))]
    ensures forall h :: h !in m.active.Values ==>
      Outbox(Step(m, clientId, inbound, dumps).0.outboxes, h) == Outbox(m.outboxes, h)
  {
    var message := MessageOf(clientId, inbound);
    var recorded := Recorded(m, message, inbound.stored);
    BroadcastExactlyOnce(recorded.0, dumps(message), inbound.faults);
  }

  /** A session that starts with an iteration that goes right continues, unchanged, with the rest. */
  lemma SessionAfterStep(m: Manager, clientId: ClientId, inbox: seq<Inbound>, dumps: Message -> string)
    requires WellFormed(m) && Injective(m.active)
    requires inbox != [] && Harmless(inbox[0], m.active)
    ensures Step(m, clientId, inbox[0], dumps).1 == None
    ensures Session(m, clientId, inbox, dumps)
            == Session(Step(m, clientId, inbox[0], dumps).0, clientId, inbox[1..], dumps)
  {
    StepRelays(m, clientId, inbox[0], dumps);
  }

  lemma HarmlessTail(inbox: seq<Inbound>, active: map<ClientId, Handle>)
    requires forall i :: 0 <= i < |inbox| ==> Harmless(inbox[i], active)
    requires inbox != []
    ensures forall i :: 0 <= i < |inbox[1..]| ==> Harmless(inbox[1..][i], active)
  {
    assert forall i :: 0 <= i < |inbox[1..]| ==> inbox[1..][i] == inbox[i + 1];
  }

  /**
   A session whose every iteration goes right ends by a disconnect, and the
   store gains exactly the session's messages, in order.
   */
  lemma {:induction false} SessionStoresAll(m: Manager, clientId: ClientId, inbox: seq<Inbound>, dumps: Message -> string)
    requires WellFormed(m) && Injective(m.active)
    requires forall i :: 0 <= i < |inbox| ==> Harmless(inbox[i], m.active)
    decreases |inbox|
    ensures Session(m, clientId, inbox, dumps).1 == Closed
    ensures Session(m, clientId, inbox, dumps).0.history == m.history + Messages(clientId, inbox)
  {
    if inbox != [] {
      var next := Step(m, clientId, inbox[0], dumps).0;
      var first, rest := [MessageOf(clientId, inbox[0])], Messages(clientId, inbox[1..]);
      assert next.history == m.history + first && next.active == m.active && WellFormed(next) by {
        StepRelays(m, clientId, inbox[0], dumps);
      }
      SessionAfterStep(m, clientId, inbox, dumps);
      HarmlessTail(inbox, m.active);
      SessionStoresAll(next, clientId, inbox[1..], dumps);
      assert Messages(clientId, inbox) == first + rest;
      AppendAssoc(m.history, first, rest);
    }
  }

  /**
   In a session whose every iteration goes right, each socket registered
   for its whole length receives the session's texts exactly once each and
   in receiving order.
   */
  lemma {:induction false} SessionDeliversInOrder(m: Manager, clientId: ClientId, inbox: seq<Inbound>,
                                                  dumps: Message -> string, h: Handle)
    requires WellFormed(m) && Injective(m.active)
    requires forall i :: 0 <= i < |inbox| ==> Harmless(inbox[i], m.active)
    requires h in m.active.Values
    decreases |inbox|
    ensures Outbox(Session(m, clientId, inbox, dumps).0.outboxes, h)
            == Outbox(m.outboxes, h) + Texts(clientId, inbox, dumps)
  {
    if inbox == [] {
      assert Outbox(m.outboxes, h) + [] == Outbox(m.outboxes, h);
    } else {
      var next := Step(m, clientId, inbox[0], dumps).0;
      var first, rest := [dumps(MessageOf(clientId, inbox[0]))], Texts(clientId, inbox[1..], dumps);
      assert Outbox(next.outboxes, h) == Outbox(m.outboxes, h) + first
             && next.active == m.active && WellFormed(next) by {
        StepRelays(m, clientId, inbox[0], dumps);
      }
      SessionAfterStep(m, clientId, inbox, dumps);
      HarmlessTail(inbox, m.active);
      SessionDeliversInOrder(next, clientId, inbox[1..], dumps, h);
      assert Texts(clientId, inbox, dumps) == first + rest;
      AppendAssoc(Outbox(m.outboxes, h), first, rest);
    }
  }

  /** In a session whose every iteration goes right, a socket not registered receives nothing. */
  lemma {:induction false} SessionSkipsUnregistered(m: Manager, clientId: ClientId, inbox: seq<Inbound>,
                                                    dumps: Message -> string, h: Handle)
    requires WellFormed(m) && Injective(m.active)
    requires forall i :: 0 <= i < |inbox| ==> Harmless(inbox[i], m.active)
    requires h !in m.active.Values
    decreases |inbox|
    ensures Outbox(Session(m, clientId, inbox, dumps).0.outboxes, h) == Outbox(m.outboxes, h)
  {
    if inbox != [] {
      var next := Step(m, clientId, inbox[0], dumps).0;
      assert Outbox(next.outboxes, h) == Outbox(m.outboxes, h)
             && next.active == m.active && WellFormed(next) by {
        StepRelays(m, clientId, inbox[0], dumps);
      }
      SessionAfterStep(m, clientId, inbox, dumps);
      HarmlessTail(inbox, m.active);
      SessionSkipsUnregistered(next, clientId, inbox[1..], dumps, h);
    }
  }

  /**
   A whole connection whose every iteration goes right, with a new socket:
   it ends by a disconnect that removes the id; the store gains the
   session's messages in order; the sender's own socket and the socket of
   every other id registered at the start receive each of the session's
   texts once, in order.
   */
  lemma RunRelaysAll(m: Manager, clientId: ClientId, ws: Handle, inbox: seq<Inbound>, dumps: Message -> string)
    requires WellFormed(m) && Injective(m.active)
    requires ws !in m.active.Values
    requires forall i :: 0 <= i < |inbox| ==> inbox[i].stored && inbox[i].faults == map[]
    ensures Run(m, clientId, ws, inbox, dumps).1 == Closed
    ensures Run(m, clientId, ws, inbox, dumps).0.active == m.active - {clientId}
    ensures Run(m, clientId, ws, inbox, dumps).0.history == m.history + Messages(clientId, inbox)
    ensures Outbox(Run(m, clientId, ws, inbox, dumps).0.outboxes, ws)
            == Outbox(m.outboxes, ws) + Texts(clientId, inbox, dumps)
    ensures forall k :: k in m.active && k != clientId ==>
      Outbox(Run(m, clientId, ws, inbox, dumps).0.outboxes, m.active[k])
      == Outbox(m.outboxes, m.active[k]) + Texts(clientId, inbox, dumps)
  {
    var c := Connected(m, clientId, ws);
    ConnectKeepsInjective(m, clientId, ws);
    assert forall i :: 0 <= i < |inbox| ==> Harmless(inbox[i], c.active);
    SessionStoresAll(c, clientId, inbox, dumps);
    RunClosedUnregisters(m, clientId, ws, inbox, dumps);
    SessionDeliversInOrder(c, clientId, inbox, dumps, ws);
    forall k | k in m.active && k != clientId
      ensures Outbox(Run(m, clientId, ws, inbox, dumps).0.outboxes, m.active[k])
              == Outbox(m.outboxes, m.active[k]) + Texts(clientId, inbox, dumps)
    {
      assert c.active[k] == m.active[k];
      SessionDeliversInOrder(c, clientId, inbox, dumps, m.active[k]);
    }
  }

  /**
   A `WebSocketDisconnect` raised while broadcasting the sender's own
   message is caught by the sender's handler: the sender is unregistered
   although its own socket did not fail.
   */
  lemma SenderDroppedByPeerDisconnect(m: Manager, clientId: ClientId, inbound: Inbound,
                                      rest: seq<Inbound>, dumps: Message -> string)
    requires WellFormed(m)
    requires clientId in m.active && m.active[clientId] !in inbound.faults
    requires inbound.stored
    requires Broadcasted(Recorded(m, MessageOf(clientId, inbound), true).0,
                         dumps(MessageOf(clientId, inbound)), inbound.faults).1 == Some(Disconnect)
    ensures Session(m, clientId, [inbound] + rest, dumps).1 == Closed
    ensures clientId !in Session(m, clientId, [inbound] + rest, dumps).0.active
  {
    assert ([inbound] + rest)[0] == inbound;
  }

  // ---------------------------------------------------------------------
  // The handler

  /** One loop iteration after `receive_text` returned `inbound.content`. */
  method Receive(manager: ConnectionManager, clientId: ClientId, inbound: Inbound, dumps: Message -> string)
    returns (raised: Option<Fault>)
    requires manager.Valid()
    modifies manager
    ensures manager.Valid()
    ensures (manager.Model(), raised) == Step(old(manager.Model()), clientId, inbound, dumps)
  {
    var message := Message(clientId, inbound.content, inbound.timestamp);
    raised := manager.AddToHistory(message, inbound.stored);
    if raised == None {
      raised := manager.Broadcast(dumps(message), inbound.faults);
    }
  }

  /** `websocket_endpoint(websocket, client_id)` over a session of received texts. */
  method WebSocketEndpoint(manager: ConnectionManager, clientId: ClientId, websocket: Handle,
                           inbox: seq<Inbound>, dumps: Message -> string)
    returns (exit: Exit)
    requires manager.Valid()
    modifies manager
    ensures manager.Valid()
    ensures (manager.Model(), exit) == Run(old(manager.Model()), clientId, websocket, inbox, dumps)
  {
    manager.Connect(clientId, websocket);
    ghost var connected := manager.Model();
    var i := 0;
    while i < |inbox|
      invariant 0 <= i <= |inbox|
      invariant manager.Valid()
      invariant Session(manager.Model(), clientId, inbox[i..], dumps) == Session(connected, clientId, inbox, dumps)
    {
      assert inbox[i..][1..] == inbox[i + 1..];
      var raised := Receive(manager, clientId, inbox[i], dumps);
      match raised {
        case None =>
        case Some(Disconnect) =>
          manager.Disconnect(clientId);
          return Closed;
        case Some(Failure) =>
          return Escaped;
      }
      i := i + 1;
    }
    manager.Disconnect(clientId);
    exit := Closed;
  }
}
