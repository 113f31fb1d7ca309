/**
 The connection registry of main.py: `ConnectionManager` and the `Message`
 record it stores.

 `active_connections` is a Python dict. Besides its key-to-socket map, a dict
 has an iteration order: keys iterate in first-insertion order, assigning to
 an existing key keeps its place, and a deleted key that is inserted again
 goes to the end. `order` records that order, because `broadcast` sends in it
 and stops at the first send that raises.

 The sockets' outboxes and the message store (`messages_collection`) are
 outside the process; the model keeps them as ghost state beside the table.
 */
module Registry {
  import opened Wrappers
  import opened Delivery

  /** The nickname taken from the WebSocket path `/ws/{client_id}`. */
  type ClientId = string

  /** The pydantic `Message` model; `timestamp` is `str(datetime.now())`, kept opaque. */
  datatype Message = Message(clientId: ClientId, content: string, timestamp: string)

  /** The abstract state of a `ConnectionManager` together with what it has sent and stored. */
  datatype Manager = Manager(
    order: seq<ClientId>,
    active: map<ClientId, Handle>,
    outboxes: Outboxes,
    history: seq<Message>)

  ghost predicate NoDup<T>(s: seq<T>)
  {
    forall i, j :: 0 <= i < j < |s| ==> s[i] != s[j]
  }

  /** `s` with every occurrence of `x` taken out. */
  function Without(s: seq<ClientId>, x: ClientId): (r: seq<ClientId>)
    ensures forall y :: y in r <==> y in s && y != x
    ensures NoDup(s) ==> NoDup(r)
    ensures x !in s ==> r == s
  {
    if s == [] then []
    else if s[0] == x then Without(s[1..], x)
    else
      var rest := Without(s[1..], x);
      assert NoDup(s) ==> s[0] !in s[1..];
      [s[0]] + rest
  }

  /** Without duplicates, taking `x` out of the key order leaves the keys before and after it in place. */
  lemma {:induction false} WithoutKeepsOrder(s: seq<ClientId>, x: ClientId, p: nat)
    requires NoDup(s) && p < |s| && s[p] == x
    decreases p
    ensures Without(s, x) == s[..p] + s[p + 1..]
  {
    if p == 0 {
      assert x !in s[1..];
    } else {
      assert NoDup(s[1..]) && s[1..][p - 1] == x;
      WithoutKeepsOrder(s[1..], x, p - 1);
      assert s[1..][..p - 1] + s[1..][p..] == s[1..p] + s[p + 1..];
      assert s[..p] + s[p + 1..] == [s[0]] + (s[1..p] + s[p + 1..]);
    }
  }

  /** The key order lists each registered id exactly once. */
  ghost predicate WellFormed(m: Manager)
  {
    && NoDup(m.order)
    && forall id :: id in m.active <==> id in m.order
  }

  /** No socket is registered under two ids. */
  ghost predicate Injective(active: map<ClientId, Handle>)
  {
    forall a, b :: a in active && b in active && a != b ==> active[a] != active[b]
  }

  /** `active_connections.values()`, in the dict's iteration order. */
  function Snapshot(order: seq<ClientId>, active: map<ClientId, Handle>): (r: seq<Handle>)
    requires forall i :: 0 <= i < |order| ==> order[i] in active
    ensures |r| == |order|
    ensures forall i :: 0 <= i < |order| ==> r[i] == active[order[i]]
  {
    if order == [] then [] else [active[order[0]]] + Snapshot(order[1..], active)
  }

  /**
   `connect`: `active_connections[client_id] = websocket`. The id now names
   `ws`; a socket registered earlier under the same id is dropped without
   notice; every other entry, the sent texts and the store stay as they were.
   */
  function Connected(m: Manager, id: ClientId, ws: Handle): (r: Manager)
    requires WellFormed(m)
    ensures WellFormed(r)
    ensures id in r.active && r.active[id] == ws
    ensures forall k :: k != id ==> (k in r.active <==> k in m.active)
    ensures forall k :: k != id && k in m.active ==> r.active[k] == m.active[k]
    ensures id in m.active ==> r.order == m.order
    ensures id !in m.active ==> r.order == m.order + [id]
    ensures r.outboxes == m.outboxes && r.history == m.history
  {
    Manager(if id in m.active then m.order else m.order + [id],
            m.active[id := ws], m.outboxes, m.history)
  }

  /**
   `disconnect`: the entry for `id` is removed if there is one; an absent id
   is not an error and changes nothing. Every other entry is kept.
   */
  function Disconnected(m: Manager, id: ClientId): (r: Manager)
    requires WellFormed(m)
    ensures WellFormed(r)
    ensures id !in r.active
    ensures forall k :: k != id ==> (k in r.active <==> k in m.active)
    ensures forall k :: k != id && k in m.active ==> r.active[k] == m.active[k]
    ensures id !in m.active ==> r == m
    ensures id in m.active ==> r.order == Without(m.order, id)
    ensures r.outboxes == m.outboxes && r.history == m.history
  {
    if id in m.active then
      Manager(Without(m.order, id), m.active - {id}, m.outboxes, m.history)
    else m
  }

  /**
   `send_personal_message`: the text goes to the socket registered for `id`
   and to no other; an unregistered id sends nothing and raises nothing.
   A faulted socket raises and receives nothing.
   */
  function PersonalSent(m: Manager, text: string, id: ClientId, faults: map<Handle, Fault>)
    : (r: (Manager, Option<Fault>))
    ensures r.0.order == m.order && r.0.active == m.active && r.0.history == m.history
    ensures id !in m.active ==> r == (m, None)
    ensures id in m.active && m.active[id] in faults ==> r == (m, Some(faults[m.active[id]]))
    ensures id in m.active && m.active[id] !in faults ==>
      && r.1 == None
      && Outbox(r.0.outboxes, m.active[id]) == Outbox(m.outboxes, m.active[id]) + [text]
      && forall h :: h != m.active[id] ==> Outbox(r.0.outboxes, h) == Outbox(m.outboxes, h)
  {
    if id !in m.active then (m, None)
    else
      var ws := m.active[id];
      if ws in faults then (m, Some(faults[ws]))
      else (m.(outboxes := Send(m.outboxes, ws, text)), None)
  }

  /** `broadcast`: one send per registered socket, in dict order, ending at the first that raises. */
  function Broadcasted(m: Manager, text: string, faults: map<Handle, Fault>): (r: (Manager, Option<Fault>))
    requires WellFormed(m)
    ensures r.0.order == m.order && r.0.active == m.active && r.0.history == m.history
  {
    var f := SendAll(m.outboxes, Snapshot(m.order, m.active), text, faults);
    (m.(outboxes := f.outboxes), f.raised)
  }

  /** `add_to_history`: `insert_one` appends the message to the store, or raises and stores nothing. */
  function Recorded(m: Manager, message: Message, stored: bool): (r: (Manager, Option<Fault>))
    ensures r.0.order == m.order && r.0.active == m.active && r.0.outboxes == m.outboxes
    ensures r.1 == None <==> stored
    ensures !stored ==> r.1 == Some(Failure)
    ensures r.0.history == if stored then m.history + [message] else m.history
  {
    if stored then (m.(history := m.history + [message]), None)
    else (m, Some(Failure))
  }

  // ---------------------------------------------------------------------
  // Properties of the registry

  /**
   Map extensionality for the table, a proof step rather than a property of
   the model: called as a lemma, it is proved away from the caller's facts,
   which keeps the caller's proof small.
   */
  lemma MapsAgree(a: map<ClientId, Handle>, b: map<ClientId, Handle>)
    requires a.Keys == b.Keys
    requires forall k :: k in a ==> a[k] == b[k]
    ensures a == b
  {
  }

  /**
   `disconnect` of a registered id takes it out of the key order and keeps
   every other key in its place: `del` never reorders the rest of a dict.
   */
  lemma DisconnectKeepsOrder(m: Manager, id: ClientId, p: nat)
    requires WellFormed(m) && p < |m.order| && m.order[p] == id
    ensures Disconnected(m, id).order == m.order[..p] + m.order[p + 1..]
  {
    WithoutKeepsOrder(m.order, id, p);
  }

  /** `disconnect` is idempotent. */
  lemma DisconnectIdempotent(m: Manager, id: ClientId)
    requires WellFormed(m)
    ensures Disconnected(Disconnected(m, id), id) == Disconnected(m, id)
  {
  }

  /** Under an injective registry each registered socket occurs exactly once in the snapshot. */
  lemma {:induction false} SnapshotCountOnce(order: seq<ClientId>, active: map<ClientId, Handle>, id: ClientId)
    requires NoDup(order) && Injective(active)
    requires forall i :: 0 <= i < |order| ==> order[i] in active
    requires id in order
    ensures Count(Snapshot(order, active), active[id]) == 1
  {
    var snap := Snapshot(order, active);
    assert snap[1..] == Snapshot(order[1..], active);
    if order[0] == id {
      forall i | 0 <= i < |order[1..]|
        ensures Snapshot(order[1..], active)[i] != active[id]
      {
        assert order[1..][i] == order[i + 1] != id;
      }
      CountAbsent(Snapshot(order[1..], active), active[id]);
    } else {
      assert id in order[1..];
      SnapshotCountOnce(order[1..], active, id);
    }
  }

  /** A socket not registered under any id does not occur in the snapshot. */
  lemma SnapshotCountAbsent(order: seq<ClientId>, active: map<ClientId, Handle>, h: Handle)
    requires forall i :: 0 <= i < |order| ==> order[i] in active
    requires h !in active.Values
    ensures Count(Snapshot(order, active), h) == 0
  {
    var snap := Snapshot(order, active);
    forall i | 0 <= i < |snap| ensures snap[i] != h {
      assert active[order[i]] in active.Values;
    }
    CountAbsent(snap, h);
  }

  /**
   A `broadcast` that meets no faulted socket raises nothing and delivers
   the text exactly once to every socket registered at the time of the call,
   and nothing to any other socket, a socket displaced by a later `connect`
   under the same id among them. The store and the table are untouched.
   */
  lemma BroadcastExactlyOnce(m: Manager, text: string, faults: map<Handle, Fault>)
    requires WellFormed(m) && Injective(m.active)
    requires forall id :: id in m.active ==> m.active[id] !in faults
    ensures Broadcasted(m, text, faults).1 == None
    ensures forall h :: h in m.active.Values ==>
      Outbox(Broadcasted(m, text, faults).0.outboxes, h) == Outbox(m.outboxes, h) + [text]
    ensures forall h :: h !in m.active.Values ==>
      Outbox(Broadcasted(m, text, faults).0.outboxes, h) == Outbox(m.outboxes, h)
  {
    var snap := Snapshot(m.order, m.active);
    var after := Broadcasted(m, text, faults).0.outboxes;
    assert forall i :: 0 <= i < |snap| ==> snap[i] !in faults by {
      forall i | 0 <= i < |snap| ensures snap[i] !in faults {
        assert m.order[i] in m.active;
      }
    }
    SendAllHealthy(m.outboxes, snap, text, faults, Handle(0));
    forall h | h in m.active.Values
      ensures Outbox(after, h) == Outbox(m.outboxes, h) + [text]
    {
      SendAllHealthy(m.outboxes, snap, text, faults, h);
      var id :| id in m.active && m.active[id] == h;
      SnapshotCountOnce(m.order, m.active, id);
      assert Repeat(text, 1) == [text];
    }
    forall h | h !in m.active.Values
      ensures Outbox(after, h) == Outbox(m.outboxes, h)
    {
      SendAllHealthy(m.outboxes, snap, text, faults, h);
      SnapshotCountAbsent(m.order, m.active, h);
      assert Outbox(m.outboxes, h) + [] == Outbox(m.outboxes, h);
    }
  }

  /** The snapshot of the first `k` keys is the first `k` handles of the snapshot. */
  lemma {:induction false} SnapshotPrefix(order: seq<ClientId>, active: map<ClientId, Handle>, k: nat)
    requires forall i :: 0 <= i < |order| ==> order[i] in active
    requires k <= |order|
    ensures Snapshot(order[..k], active) == Snapshot(order, active)[..k]
  {
    assert forall i :: 0 <= i < k ==> order[..k][i] == order[i];
  }

  /** Under an injective registry, the socket of the `i`-th key occurs once among the first `k` snapshot handles if `i < k`, and not at all otherwise. */
  lemma {:induction false} SnapshotPrefixCount(order: seq<ClientId>, active: map<ClientId, Handle>, k: nat, i: nat)
    requires NoDup(order) && Injective(active)
    requires forall j :: 0 <= j < |order| ==> order[j] in active
    requires k <= |order| && i < |order|
    ensures Count(Snapshot(order, active)[..k], active[order[i]]) == if i < k then 1 else 0
  {
    var snap := Snapshot(order, active);
    var h := active[order[i]];
    SnapshotPrefix(order, active, k);
    var prefix := order[..k];
    if i < k {
      assert NoDup(prefix) by {
        assert forall a :: 0 <= a < k ==> prefix[a] == order[a];
      }
      assert prefix[i] == order[i];
      SnapshotCountOnce(prefix, active, order[i]);
    } else {
      forall j | 0 <= j < k ensures snap[..k][j] != h {
        assert order[j] != order[i];
      }
      CountAbsent(snap[..k], h);
    }
  }

  /** A socket before the first faulted one in dict order is sent the text once by a `broadcast`. */
  lemma BroadcastReachesBefore(m: Manager, text: string, faults: map<Handle, Fault>, k: nat, i: nat)
    requires WellFormed(m) && Injective(m.active)
    requires k < |m.order| && m.active[m.order[k]] in faults
    requires forall j :: 0 <= j < k ==> m.active[m.order[j]] !in faults
    requires i < k
    ensures Outbox(Broadcasted(m, text, faults).0.outboxes, m.active[m.order[i]])
            == Outbox(m.outboxes, m.active[m.order[i]]) + [text]
  {
    var snap := Snapshot(m.order, m.active);
    var h := m.active[m.order[i]];
    assert Count(snap[..k], h) == 1 by {
      SnapshotPrefixCount(m.order, m.active, k, i);
    }
    SendAllStopsAt(m.outboxes, snap, text, faults, k, h);
    assert Repeat(text, 1) == [text];
  }

  /** The first faulted socket and every socket after it in dict order are sent nothing by a `broadcast`. */
  lemma BroadcastSkipsFrom(m: Manager, text: string, faults: map<Handle, Fault>, k: nat, i: nat)
    requires WellFormed(m) && Injective(m.active)
    requires k < |m.order| && m.active[m.order[k]] in faults
    requires forall j :: 0 <= j < k ==> m.active[m.order[j]] !in faults
    requires k <= i < |m.order|
    ensures Outbox(Broadcasted(m, text, faults).0.outboxes, m.active[m.order[i]])
            == Outbox(m.outboxes, m.active[m.order[i]])
  {
    var snap := Snapshot(m.order, m.active);
    var h := m.active[m.order[i]];
    assert Count(snap[..k], h) == 0 by {
      SnapshotPrefixCount(m.order, m.active, k, i);
    }
    SendAllStopsAt(m.outboxes, snap, text, faults, k, h);
    assert Outbox(m.outboxes, h) + [] == Outbox(m.outboxes, h);
  }

  /**
   A `broadcast` that reaches a faulted socket raises that socket's fault;
   the sockets before it in dict order have been sent the text, the ones
   after it have not.
   */
  lemma {:induction false} BroadcastStopsAtFault(m: Manager, text: string, faults: map<Handle, Fault>, k: nat)
    requires WellFormed(m) && Injective(m.active)
    requires k < |m.order| && m.active[m.order[k]] in faults
    requires forall i :: 0 <= i < k ==> m.active[m.order[i]] !in faults
    ensures Broadcasted(m, text, faults).1 == Some(faults[m.active[m.order[k]]])
    ensures forall i :: 0 <= i < k ==>
      Outbox(Broadcasted(m, text, faults).0.outboxes, m.active[m.order[i]])
      == Outbox(m.outboxes, m.active[m.order[i]]) + [text]
    ensures forall i :: k <= i < |m.order| ==>
      Outbox(Broadcasted(m, text, faults).0.outboxes, m.active[m.order[i]])
      == Outbox(m.outboxes, m.active[m.order[i]])
  {
    var snap := Snapshot(m.order, m.active);
    FirstFaultAt(snap, faults, k);
    SendAllRaises(m.outboxes, snap, text, faults);
    forall i | 0 <= i < k
      ensures Outbox(Broadcasted(m, text, faults).0.outboxes, m.active[m.order[i]])
              == Outbox(m.outboxes, m.active[m.order[i]]) + [text]
    {
      BroadcastReachesBefore(m, text, faults, k, i);
    }
    forall i | k <= i < |m.order|
      ensures Outbox(Broadcasted(m, text, faults).0.outboxes, m.active[m.order[i]])
              == Outbox(m.outboxes, m.active[m.order[i]])
    {
      BroadcastSkipsFrom(m, text, faults, k, i);
    }
  }

  /**
   Re-`connect` under a registered id with a new socket drops the old socket
   from the registry: it is no longer among the values a broadcast reaches,
   and the registry stays injective.
   */
  lemma ReconnectDisplaces(m: Manager, id: ClientId, ws: Handle)
    requires WellFormed(m) && Injective(m.active)
    requires id in m.active && ws !in m.active.Values
    ensures Injective(Connected(m, id, ws).active)
    ensures m.active[id] !in Connected(m, id, ws).active.Values
  {
    var r := Connected(m, id, ws);
    ConnectKeepsInjective(m, id, ws);
    forall k | k in r.active ensures r.active[k] != m.active[id] {
      if k != id {
        assert r.active[k] == m.active[k];
      }
    }
  }

  /**
   After a re-`connect` under a registered id with a new socket, a
   `broadcast` that meets no faulted socket sends nothing to the socket the
   id had before.
   */
  lemma BroadcastSkipsDisplaced(m: Manager, id: ClientId, ws: Handle, text: string, faults: map<Handle, Fault>)
    requires WellFormed(m) && Injective(m.active)
    requires id in m.active && ws !in m.active.Values
    requires forall k :: k in Connected(m, id, ws).active ==> Connected(m, id, ws).active[k] !in faults
    ensures Outbox(Broadcasted(Connected(m, id, ws), text, faults).0.outboxes, m.active[id])
            == Outbox(m.outboxes, m.active[id])
  {
    ReconnectDisplaces(m, id, ws);
    BroadcastExactlyOnce(Connected(m, id, ws), text, faults);
  }

  /** `connect` with a socket not yet registered keeps the registry injective. */
  lemma ConnectKeepsInjective(m: Manager, id: ClientId, ws: Handle)
    requires WellFormed(m) && Injective(m.active)
    requires ws !in m.active.Values
    ensures Injective(Connected(m, id, ws).active)
    ensures ws in Connected(m, id, ws).active.Values
  {
    var r := Connected(m, id, ws);
    forall a, b | a in r.active && b in r.active && a != b
      ensures r.active[a] != r.active[b]
    {
      if a == id {
        assert r.active[b] == m.active[b] && m.active[b] in m.active.Values;
      } else if b == id {
        assert r.active[a] == m.active[a] && m.active[a] in m.active.Values;
      }
    }
  }

  // ---------------------------------------------------------------------
  // The object

  /**
   `ConnectionManager`. `activeConnections` is `self.active_connections`;
   `order` is that dict's key order.
   */
  class ConnectionManager {
    var order: seq<ClientId>
    var activeConnections: map<ClientId, Handle>
    ghost var outboxes: Outboxes
    ghost var history: seq<Message>

    ghost function Model(): Manager
      reads this
    {
      Manager(order, activeConnections, outboxes, history)
    }

    ghost predicate Valid()
      reads this
    {
      WellFormed(Model())
    }

    /** `__init__`: no connections; nothing sent or stored yet. */
    constructor ()
      ensures Valid()
      ensures Model() == Manager([], map[], map[], [])
    {
      order := [];
      activeConnections := map[];
      outboxes := map[];
      history := [];
    }

    method Connect(clientId: ClientId, websocket: Handle)
      requires Valid()
      modifies this
      ensures Valid()
      ensures Model() == Connected(old(Model()), clientId, websocket)
    {
      if clientId !in activeConnections {
        order := order + [clientId];
      }
      activeConnections := activeConnections[clientId := websocket];
    }

    method Disconnect(clientId: ClientId)
      requires Valid()
      modifies this
      ensures Valid()
      ensures Model() == Disconnected(old(Model()), clientId)
    {
      if clientId in activeConnections {
        activeConnections := activeConnections - {clientId};
        order := Without(order, clientId);
      }
    }

    /** `faults` is the set of sockets whose `send_text` raises, with what it raises. */
    method SendPersonalMessage(message: string, clientId: ClientId, faults: map<Handle, Fault>)
      returns (raised: Option<Fault>)
      requires Valid()
      modifies this
      ensures Valid()
      ensures (Model(), raised) == PersonalSent(old(Model()), message, clientId, faults)
    {
      raised := None;
      if clientId in activeConnections {
        var websocket := activeConnections[clientId];
        if websocket in faults {
          raised := Some(faults[websocket]);
        } else {
          outboxes := Send(outboxes, websocket, message);
        }
      }
    }

    method Broadcast(message: string, faults: map<Handle, Fault>) returns (raised: Option<Fault>)
      requires Valid()
      modifies this
      ensures Valid()
      ensures (Model(), raised) == Broadcasted(old(Model()), message, faults)
    {
      var connections := Snapshot(order, activeConnections);
      var i := 0;
      while i < |connections|
        invariant 0 <= i <= |connections|
        invariant order == old(order) && activeConnections == old(activeConnections)
        invariant history == old(history)
        invariant SendAll(outboxes, connections[i..], message, faults)
                  == SendAll(old(outboxes), connections, message, faults)
      {
        var connection := connections[i];
        assert connections[i..][1..] == connections[i + 1..];
        if connection in faults {
          raised := Some(faults[connection]);
          return;
        }
        outboxes := Send(outboxes, connection, message);
        i := i + 1;
      }
      raised := None;
    }

    /** `stored` says whether `insert_one` succeeds. */
    method AddToHistory(message: Message, stored: bool) returns (raised: Option<Fault>)
      requires Valid()
      modifies this
      ensures Valid()
      ensures (Model(), raised) == Recorded(old(Model()), message, stored)
    {
      if stored {
        history := history + [message];
        raised := None;
      } else {
        raised := Some(Failure);
      }
    }
  }
}
