/**
 * `Net::ServerInterface` (xProject/network/ServerInterface.hpp): the
 * server's collection of connection slots, the inbound queue its
 * connections share, and the three hooks a concrete server overrides.
 * Each call of a hook (`OnConnect`, `OnDisconnect`, `OnMessage`) is
 * recorded, in order, in the field `events`; the accept completion is the
 * event method `OnAccept`.
 */
module ServerInterfaces {
  import opened Common
  import opened StructMessage
  import opened LockFreeQueue
  import opened Connections

  /** One call of a hook of the concrete server. */
  datatype Event<T(0), S(0)> =
    | OnConnect(client: Connection<T, S>)
    | OnDisconnect(client: Connection<T, S>)
    | OnMessage(ownMsg: Owned<T, S>)

  /** A slot that survives the sweep: it holds a connection and that connection is open. */
  ghost predicate Live<T(0), S(0)>(c: Connection?<T, S>)
    reads c
  {
    c != null && c.open
  }

  /** The slots that survive `CheckClientConnection`, in their order. */
  ghost function Survivors<T(0), S(0)>(cs: seq<Connection?<T, S>>): seq<Connection?<T, S>>
    reads cs
    decreases |cs|
  {
    if cs == [] then []
    else (if Live(cs[0]) then [cs[0]] else []) + Survivors(cs[1..])
  }

  /** The `OnDisconnect` calls the sweep makes: one per closed connection, in slot order. */
  ghost function DisconnectEvents<T(0), S(0)>(cs: seq<Connection?<T, S>>): seq<Event<T, S>>
    reads cs
    decreases |cs|
  {
    if cs == [] then []
    else (if cs[0] != null && !cs[0].open then [OnDisconnect(cs[0])] else []) + DisconnectEvents(cs[1..])
  }

  /** `erase(remove(begin, end, nullptr), end)`: drop the empty slots, keeping the order of the rest. */
  function RemoveNulls<T(0), S(0)>(cs: seq<Connection?<T, S>>): (r: seq<Connection?<T, S>>)
    ensures |r| <= |cs|
    ensures forall c | c in r :: c != null
    ensures forall c | c in cs && c != null :: c in r
    ensures forall c | c in r :: c in cs
    decreases |cs|
  {
    if cs == [] then []
    else (if cs[0] != null then [cs[0]] else []) + RemoveNulls(cs[1..])
  }

  /** The `OnMessage` calls `Update` makes for the given queued messages. */
  function Receipts<T(0), S(0)>(ms: seq<Owned<T, S>>): (r: seq<Event<T, S>>)
    ensures |r| == |ms|
    ensures forall i | 0 <= i < |ms| :: r[i] == OnMessage(ms[i])
    decreases |ms|
  {
    if ms == [] then [] else [OnMessage(ms[0])] + Receipts(ms[1..])
  }

  class ServerInterface<T(0), S(0)> {
    /** The `deque` of connection slots; the sweep resets a slot to null before erasing it. */
    var connections: seq<Connection?<T, S>>
    const msgQueueIn: QueueLF<Owned<T, S>>
    /** The port the acceptor listens on. */
    const port: int
    /** An `async_accept` is pending. */
    var acceptPending: bool
    /** The hooks called so far, in order. */
    var events: seq<Event<T, S>>

    /**
     * The shared inbound queue is well formed and separate from the
     * server, and every connection in a slot is a server-side connection
     * that pushes on that queue.
     */
    ghost predicate Valid()
      reads this, msgQueueIn, msgQueueIn.Repr
    {
      && msgQueueIn.Valid()
      && this !in msgQueueIn.Repr
      && (forall c | c in connections && c != null :: c.owner == Server && c.msgQueueIn == msgQueueIn)
    }

    constructor (listenPort: int)
      requires 0 <= listenPort < 0x1_0000
      ensures Valid() && fresh(msgQueueIn.Repr)
      ensures port == listenPort && connections == [] && events == [] && !acceptPending
      ensures msgQueueIn.Contents == []
    {
      port := listenPort;
      msgQueueIn := new QueueLF<Owned<T, S>>();
      connections := [];
      events := [];
      acceptPending := false;
    }

    /** `WaitForClientConnection`: issue an `async_accept`. */
    method WaitForClientConnection()
      modifies this`acceptPending
      ensures acceptPending
    {
      acceptPending := true;
    }

    /**
     * The accept completion: on success create a server-side connection on
     * the accepted (open) socket, report it to `OnConnect`, append it and
     * start its reading; on an error add nothing.  Either way re-arm the
     * accept.
     */
    method OnAccept(ok: bool) returns (ghost client: Connection?<T, S>)
      requires Valid() && acceptPending
      modifies this`connections, this`events, this`acceptPending
      ensures Valid() && acceptPending
      ensures !ok ==> connections == old(connections) && events == old(events) && client == null
      ensures ok ==>
        && client != null && fresh(client)
        && connections == old(connections) + [client]
        && events == old(events) + [OnConnect(client)]
        && client.owner == Server && client.open && client.msgQueueIn == msgQueueIn
        && client.Valid() && client.Linked() && client.readsInFlight == 1 && client.readIssuedOpen
        && client.msgQueueOut == [] && client.sent == [] && client.delivered == []
    {
      client := null;
      if ok {
        var clientConnection := new Connection<T, S>(Server, true, msgQueueIn);
        events := events + [OnConnect(clientConnection)];
        connections := connections + [clientConnection];
        clientConnection.ConnectToClient();
        client := clientConnection;
      }
      WaitForClientConnection();
    }

    /** `Update(false)`: hand every queued message to `OnMessage`, oldest first, until the queue is empty. */
    method Update()
      requires Valid()
      modifies msgQueueIn.Repr, this`events
      ensures Valid() && fresh(msgQueueIn.Repr - old(msgQueueIn.Repr))
      ensures msgQueueIn.Contents == []
      ensures events == old(events) + Receipts(old(msgQueueIn.Contents))
      ensures connections == old(connections)
    {
      var handled := Drain(msgQueueIn);
      events := events + Receipts(handled);
    }

    /**
     * `CheckClientConnection`: report every closed connection to
     * `OnDisconnect` and reset its slot, then, if any slot was empty or
     * reset, erase the empty slots.
     */
    method CheckClientConnection()
      requires Valid()
      modifies this`connections, this`events
      ensures Valid()
      ensures connections == Survivors(old(connections))
      ensures events == old(events) + DisconnectEvents(old(connections))
    {
      var kept, reported := Sweep(connections);
      SurvivorsSubset(connections);
      connections, events := kept, events + reported;
    }
  }

  /** The loop of `Update`: pop the queue until it is empty; the values popped, in order, are what it held. */
  method Drain<U(0)>(q: QueueLF<U>) returns (popped: seq<U>)
    requires q.Valid()
    modifies q.Repr
    ensures q.Valid() && fresh(q.Repr - old(q.Repr))
    ensures q.Contents == []
    ensures popped == old(q.Contents)
  {
    popped := [];
    var empty := q.IsEmpty();
    while !empty
      invariant q.Valid()
      invariant fresh(q.Repr - old(q.Repr))
      invariant empty <==> q.Contents == []
      invariant old(q.Contents) == popped + q.Contents
      decreases |q.Contents|
    {
      ghost var before := q.Contents;
      var v := q.PopFront();
      assert before == [v] + q.Contents;
      popped := popped + [v];
      empty := q.IsEmpty();
    }
  }

  /**
   * The loop of `CheckClientConnection` over the slots: a closed
   * connection is reported (the `OnDisconnect` calls, in order) and its
   * slot reset; the empty slots are erased only if some slot was empty or
   * reset.
   */
  method Sweep<T(0), S(0)>(slots: seq<Connection?<T, S>>)
    returns (clients: seq<Connection?<T, S>>, disconnected: seq<Event<T, S>>)
    ensures clients == Survivors(slots)
    ensures disconnected == DisconnectEvents(slots)
  {
    clients := slots;
    disconnected := [];
    var invalidClient := false;
    var i := 0;
    while i < |clients|
      invariant 0 <= i <= |clients| == |slots|
      invariant forall j | 0 <= j < i :: clients[j] == (if Live(slots[j]) then slots[j] else null)
      invariant forall j | i <= j < |slots| :: clients[j] == slots[j]
      invariant disconnected == DisconnectEvents(slots[..i])
      invariant !invalidClient ==> forall j | 0 <= j < i :: Live(slots[j])
    {
      DisconnectEventsSnoc(slots[..i], slots[i]);
      assert slots[..i + 1] == slots[..i] + [slots[i]];
      var client := clients[i];
      if client == null {
        invalidClient := true;
      } else {
        var connected := client.IsConnected();
        if !connected {
          disconnected := disconnected + [OnDisconnect(client)];
          clients := clients[i := null];
          invalidClient := true;
        }
      }
      i := i + 1;
    }
    assert slots[..i] == slots;
    if invalidClient {
      MaskedSurvivors(slots, clients);
      clients := RemoveNulls(clients);
    } else {
      assert clients == slots;
      SurvivorsAllLive(slots);
    }
  }

  // ---------------------------------------------------------------------
  // Lemmas about the sweep.

  lemma {:induction false} DisconnectEventsSnoc<T(0), S(0)>(cs: seq<Connection?<T, S>>, c: Connection?<T, S>)
    ensures DisconnectEvents(cs + [c]) ==
            DisconnectEvents(cs) + (if c != null && !c.open then [OnDisconnect(c)] else [])
    decreases |cs|
  {
    if cs != [] {
      assert (cs + [c])[1..] == cs[1..] + [c];
      DisconnectEventsSnoc(cs[1..], c);
    }
  }

  /** Erasing the reset slots of the masked sequence leaves exactly the survivors. */
  lemma {:induction false} MaskedSurvivors<T(0), S(0)>(cs: seq<Connection?<T, S>>, masked: seq<Connection?<T, S>>)
    requires |masked| == |cs|
    requires forall j | 0 <= j < |cs| :: masked[j] == (if Live(cs[j]) then cs[j] else null)
    ensures RemoveNulls(masked) == Survivors(cs)
    decreases |cs|
  {
    if cs != [] {
      MaskedSurvivors(cs[1..], masked[1..]);
    }
  }

  /** When every slot holds an open connection, the sweep changes nothing. */
  lemma {:induction false} SurvivorsAllLive<T(0), S(0)>(cs: seq<Connection?<T, S>>)
    requires forall j | 0 <= j < |cs| :: Live(cs[j])
    ensures Survivors(cs) == cs
    decreases |cs|
  {
    if cs != [] {
      SurvivorsAllLive(cs[1..]);
    }
  }

  /** A connection survives iff it was in a slot and open; so no survivor is null or closed. */
  lemma {:induction false} SurvivorsMembership<T(0), S(0)>(cs: seq<Connection?<T, S>>, c: Connection?<T, S>)
    ensures c in Survivors(cs) <==> c in cs && Live(c)
    decreases |cs|
  {
    if cs != [] {
      SurvivorsMembership(cs[1..], c);
      assert cs == [cs[0]] + cs[1..];
    }
  }

  lemma SurvivorsSubset<T(0), S(0)>(cs: seq<Connection?<T, S>>)
    ensures forall c | c in Survivors(cs) :: c in cs && Live(c)
  {
    forall c | c in Survivors(cs) ensures c in cs && Live(c) {
      SurvivorsMembership(cs, c);
    }
  }

  /** The sweep is stable: on a concatenation it keeps the survivors of each part, in order. */
  lemma {:induction false} SurvivorsAppend<T(0), S(0)>(a: seq<Connection?<T, S>>, b: seq<Connection?<T, S>>)
    ensures Survivors(a + b) == Survivors(a) + Survivors(b)
    decreases |a|
  {
    if a != [] {
      assert (a + b)[1..] == a[1..] + b;
      SurvivorsAppend(a[1..], b);
    } else {
      assert a + b == b;
    }
  }

  /** One `OnDisconnect` per closed connection: the sweep reports exactly the slots it drops, less the empty ones. */
  lemma {:induction false} SweepAccounts<T(0), S(0)>(cs: seq<Connection?<T, S>>)
    ensures |Survivors(cs)| + |DisconnectEvents(cs)| == |RemoveNulls(cs)|
    decreases |cs|
  {
    if cs != [] {
      SweepAccounts(cs[1..]);
    }
  }
}
