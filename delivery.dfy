/**
 Outbound delivery over WebSocket handles: the `send_text` calls of main.py.

 A socket is an opaque handle. What a socket has been sent is its outbox, a
 sequence of texts; the outboxes of all sockets form one map. A send to a
 faulted socket raises instead of delivering, and the kind of exception it
 raises decides, further up, whether the session handler catches it.
 */
module Delivery {
  import opened Wrappers

  /** An open WebSocket, known only by its identity. */
  datatype Handle = Handle(serial: nat)

  /** What a failing call raises: `WebSocketDisconnect`, or any other exception. */
  datatype Fault = Disconnect | Failure

  /** The texts each socket has been sent so far, in sending order. */
  type Outboxes = map<Handle, seq<string>>

  function Outbox(o: Outboxes, h: Handle): seq<string>
  {
    if h in o then o[h] else []
  }

  /** One successful `send_text(text)` on `h`. */
  function Send(o: Outboxes, h: Handle, text: string): (r: Outboxes)
    ensures Outbox(r, h) == Outbox(o, h) + [text]
    ensures forall g :: g != h ==> Outbox(r, g) == Outbox(o, g)
  {
    o[h := Outbox(o, h) + [text]]
  }

  /** How many times `h` occurs in `hs`. */
  function Count(hs: seq<Handle>, h: Handle): nat
  {
    if hs == [] then 0 else (if hs[0] == h then 1 else 0) + Count(hs[1..], h)
  }

  /** `n` copies of `text`. */
  function Repeat(text: string, n: nat): seq<string>
  {
    if n == 0 then [] else [text] + Repeat(text, n - 1)
  }

  /** The index of the first handle of `hs` whose send raises, or |hs| if none does. */
  function FirstFault(hs: seq<Handle>, faults: map<Handle, Fault>): (k: nat)
    ensures k <= |hs|
    ensures forall i :: 0 <= i < k ==> hs[i] !in faults
    ensures k < |hs| ==> hs[k] in faults
  {
    if hs == [] then 0
    else if hs[0] in faults then 0
    else 1 + FirstFault(hs[1..], faults)
  }

  /** The first faulted handle is the one before which no handle is faulted. */
  lemma {:induction false} FirstFaultAt(hs: seq<Handle>, faults: map<Handle, Fault>, k: nat)
    requires k < |hs| && hs[k] in faults
    requires forall i :: 0 <= i < k ==> hs[i] !in faults
    ensures FirstFault(hs, faults) == k
  {
  }

  /** The outboxes after a run of sends, and the exception that ended the run early, if any. */
  datatype Fanout = Fanout(outboxes: Outboxes, raised: Option<Fault>)

  /**
   Sends `text` to each handle of `hs` in turn, as an `await send_text` per
   handle does. The first handle in `faults` raises `faults[h]`; the handles
   after it are not reached.
   */
  function SendAll(o: Outboxes, hs: seq<Handle>, text: string, faults: map<Handle, Fault>): Fanout
    decreases |hs|
  {
    if hs == [] then Fanout(o, None)
    else if hs[0] in faults then Fanout(o, Some(faults[hs[0]]))
    else SendAll(Send(o, hs[0], text), hs[1..], text, faults)
  }

  /** A run of sends raises exactly when it reaches a faulted handle, and raises that handle's fault. */
  lemma {:induction false} SendAllRaises(o: Outboxes, hs: seq<Handle>, text: string, faults: map<Handle, Fault>)
    decreases |hs|
    ensures SendAll(o, hs, text, faults).raised
            == (if FirstFault(hs, faults) < |hs| then Some(faults[hs[FirstFault(hs, faults)]]) else None)
  {
    if hs != [] && hs[0] !in faults {
      assert SendAll(o, hs, text, faults) == SendAll(Send(o, hs[0], text), hs[1..], text, faults);
      assert FirstFault(hs, faults) == 1 + FirstFault(hs[1..], faults);
      SendAllRaises(Send(o, hs[0], text), hs[1..], text, faults);
    }
  }

  /** How many times `h` occurs in `hs` before the first faulted handle. */
  function Reached(hs: seq<Handle>, faults: map<Handle, Fault>, h: Handle): nat
  {
    if hs == [] || hs[0] in faults then 0
    else (if hs[0] == h then 1 else 0) + Reached(hs[1..], faults, h)
  }

  /** A run of sends delivers `text` to `h` once for each time the run reaches `h`. */
  lemma {:induction false} SendAllDelivers(o: Outboxes, hs: seq<Handle>, text: string,
                                           faults: map<Handle, Fault>, h: Handle)
    decreases |hs|
    ensures Outbox(SendAll(o, hs, text, faults).outboxes, h) == Outbox(o, h) + Repeat(text, Reached(hs, faults, h))
  {
    if hs == [] || hs[0] in faults {
      assert Outbox(o, h) + [] == Outbox(o, h);
    } else {
      var one := if hs[0] == h then 1 else 0;
      var later := Reached(hs[1..], faults, h);
      SendAllDelivers(Send(o, hs[0], text), hs[1..], text, faults, h);
      SendRepeat(o, hs[0], text, h);
      AppendAssoc(Outbox(o, h), Repeat(text, one), Repeat(text, later));
      RepeatAdd(text, one, later);
    }
  }

  /** The handles a run reaches are those before its first faulted handle. */
  lemma {:induction false} ReachedPrefix(hs: seq<Handle>, faults: map<Handle, Fault>, h: Handle)
    decreases |hs|
    ensures Reached(hs, faults, h) == Count(hs[..FirstFault(hs, faults)], h)
  {
    if hs == [] || hs[0] in faults {
      assert hs[..0] == [];
    } else {
      var k := FirstFault(hs, faults);
      assert k - 1 == FirstFault(hs[1..], faults);
      ReachedPrefix(hs[1..], faults, h);
      CountCons(hs, k, h);
    }
  }

  /**
   A run of sends delivers `text` to a handle once for each time the handle
   occurs before the first faulted handle.
   */
  lemma SendAllEffect(o: Outboxes, hs: seq<Handle>, text: string, faults: map<Handle, Fault>, h: Handle)
    ensures Outbox(SendAll(o, hs, text, faults).outboxes, h)
            == Outbox(o, h) + Repeat(text, Count(hs[..FirstFault(hs, faults)], h))
  {
    SendAllDelivers(o, hs, text, faults, h);
    ReachedPrefix(hs, faults, h);
  }

  /** A run that stops at the `k`-th handle delivers to `h` once per occurrence among the first `k` handles. */
  lemma SendAllStopsAt(o: Outboxes, hs: seq<Handle>, text: string, faults: map<Handle, Fault>, k: nat, h: Handle)
    requires k < |hs| && hs[k] in faults
    requires forall i :: 0 <= i < k ==> hs[i] !in faults
    ensures Outbox(SendAll(o, hs, text, faults).outboxes, h) == Outbox(o, h) + Repeat(text, Count(hs[..k], h))
  {
    FirstFaultAt(hs, faults, k);
    SendAllEffect(o, hs, text, faults, h);
  }

  /** One send adds one copy of `text` to the outbox of the handle sent to, and none to any other. */
  lemma SendRepeat(o: Outboxes, g: Handle, text: string, h: Handle)
    ensures Outbox(Send(o, g, text), h) == Outbox(o, h) + Repeat(text, if g == h then 1 else 0)
  {
    assert Repeat(text, 1) == [text];
    assert Outbox(o, h) + [] == Outbox(o, h);
  }

  /** Counting in a non-empty prefix: the first handle, then the rest of the prefix. */
  lemma {:induction false} CountCons(hs: seq<Handle>, k: nat, h: Handle)
    requires 1 <= k <= |hs|
    ensures Count(hs[..k], h) == (if hs[0] == h then 1 else 0) + Count(hs[1..][..k - 1], h)
  {
    assert hs[..k][1..] == hs[1..][..k - 1];
    assert hs[..k][0] == hs[0];
  }

  lemma {:induction false} RepeatAdd(text: string, a: nat, b: nat)
    ensures Repeat(text, a) + Repeat(text, b) == Repeat(text, a + b)
  {
    if a > 0 {
      RepeatAdd(text, a - 1, b);
      assert Repeat(text, a) + Repeat(text, b) == [text] + (Repeat(text, a - 1) + Repeat(text, b));
    }
  }

  /** When no handle of `hs` is faulted, every handle gets `text` once per occurrence and nothing is raised. */
  lemma SendAllHealthy(o: Outboxes, hs: seq<Handle>, text: string, faults: map<Handle, Fault>, h: Handle)
    requires forall i :: 0 <= i < |hs| ==> hs[i] !in faults
    ensures SendAll(o, hs, text, faults).raised == None
    ensures Outbox(SendAll(o, hs, text, faults).outboxes, h) == Outbox(o, h) + Repeat(text, Count(hs, h))
  {
    SendAllEffect(o, hs, text, faults, h);
    SendAllRaises(o, hs, text, faults);
    var k := FirstFault(hs, faults);
    assert k == |hs|;
    assert hs[..k] == hs;
  }

  /** A handle that does not occur in `hs` is not sent anything. */
  lemma {:induction false} CountAbsent(hs: seq<Handle>, h: Handle)
    requires forall i :: 0 <= i < |hs| ==> hs[i] != h
    ensures Count(hs, h) == 0
  {
    if hs != [] {
      CountAbsent(hs[1..], h);
    }
  }
}
