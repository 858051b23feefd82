/**
 * The WebSocket server `wss` as the controllers see it: the set of client
 * connections, each connection's ready state, and what has been sent on it.
 * Sent messages are kept as the objects handed to JSON.stringify.
 */
module Sockets {
  import opened Values

  datatype ReadyState = Connecting | Open | Closing | Closed

  /** A frame sent on a connection: a data message or a liveness probe. */
  datatype Out = Data(message: Value) | Ping

  type Outboxes = map<ConnId, seq<Out>>

  /** `ws.send(m)` on connection `c`: sent when the connection is OPEN, dropped otherwise. */
  function Delivered(outbox: Outboxes, readyState: map<ConnId, ReadyState>, c: ConnId, o: Out): (r: Outboxes)
    requires c in outbox && c in readyState
    ensures r.Keys == outbox.Keys
    ensures r[c] == if readyState[c] == Open then outbox[c] + [o] else outbox[c]
    ensures forall d :: d in outbox && d != c ==> r[d] == outbox[d]
  {
    outbox[c := if readyState[c] == Open then outbox[c] + [o] else outbox[c]]
  }

  /** The outboxes once `message` has been sent to every client whose ready state is OPEN. */
  function Fanout(outbox: Outboxes, clients: set<ConnId>, readyState: map<ConnId, ReadyState>, message: Value): (r: Outboxes)
    requires clients <= readyState.Keys
    ensures r.Keys == outbox.Keys
  {
    map c | c in outbox :: if c in clients && readyState[c] == Open then outbox[c] + [Data(message)] else outbox[c]
  }

  /** Every OPEN client receives exactly `message`, appended once; every other outbox is untouched. */
  lemma {:induction false} FanoutReachesExactlyOpen(outbox: Outboxes, clients: set<ConnId>,
                                                   readyState: map<ConnId, ReadyState>, message: Value, c: ConnId)
    requires clients <= readyState.Keys && c in outbox
    ensures var r := Fanout(outbox, clients, readyState, message);
      && c in r
      && (c in clients && readyState[c] == Open <==> |r[c]| == |outbox[c]| + 1)
      && (c in clients && readyState[c] == Open ==> r[c][..|outbox[c]|] == outbox[c] && r[c][|outbox[c]|] == Data(message))
      && (!(c in clients && readyState[c] == Open) ==> r[c] == outbox[c])
  {
    var r := Fanout(outbox, clients, readyState, message);
    if c in clients && readyState[c] == Open {
      assert r[c] == outbox[c] + [Data(message)];
      assert r[c][..|outbox[c]|] == outbox[c];
    }
  }

  class SocketServer {
    /** `wss.clients`: the connections not yet closed. */
    var clients: set<ConnId>
    /** The ready state of every connection the server has accepted, closed ones included. */
    var readyState: map<ConnId, ReadyState>
    /** What has been sent on every accepted connection. */
    var outbox: Outboxes

    ghost predicate Valid()
      reads this
    {
      && clients <= readyState.Keys
      && outbox.Keys == readyState.Keys
      && (forall c :: c in readyState && c !in clients ==> readyState[c] == Closed)
    }

    constructor ()
      ensures Valid() && clients == {} && readyState == map[] && outbox == map[]
    {
      clients, readyState, outbox := {}, map[], map[];
    }

    /** A new connection is accepted: it joins `clients` in the OPEN state with nothing sent yet. */
    method Accept(c: ConnId)
      requires Valid() && c !in readyState
      modifies this
      ensures Valid()
      ensures clients == old(clients) + {c}
      ensures readyState == old(readyState)[c := Open]
      ensures outbox == old(outbox)[c := []]
    {
      clients := clients + {c};
      readyState := readyState[c := Open];
      outbox := outbox[c := []];
    }

    /** `ws.send(JSON.stringify(message))` on one connection. */
    method Send(c: ConnId, message: Value)
      requires Valid() && c in readyState
      modifies this`outbox
      ensures Valid()
      ensures outbox == Delivered(old(outbox), readyState, c, Data(message))
    {
      if readyState[c] == Open {
        outbox := outbox[c := outbox[c] + [Data(message)]];
      }
    }

    /** `ws.ping()`: a liveness probe, dropped on a connection that is not OPEN. */
    method SendPing(c: ConnId)
      requires Valid() && c in readyState
      modifies this`outbox
      ensures Valid()
      ensures outbox == Delivered(old(outbox), readyState, c, Ping)
    {
      if readyState[c] == Open {
        outbox := outbox[c := outbox[c] + [Ping]];
      }
    }

    /** `ws.terminate()`: the socket is destroyed and the connection is CLOSING until its close event. */
    method Terminate(c: ConnId)
      requires Valid() && c in readyState
      modifies this`readyState
      ensures Valid()
      ensures readyState == old(readyState)[c := if old(readyState[c]) == Closed then Closed else Closing]
    {
      if readyState[c] != Closed {
        readyState := readyState[c := Closing];
      }
    }

    /** The connection has closed: it is CLOSED and has left `clients`. */
    method Close(c: ConnId)
      requires Valid() && c in readyState
      modifies this`readyState, this`clients
      ensures Valid()
      ensures readyState == old(readyState)[c := Closed]
      ensures clients == old(clients) - {c}
    {
      readyState := readyState[c := Closed];
      clients := clients - {c};
    }

    /** broadcast(message): `wss.clients.forEach`, sending to each client whose ready state is OPEN. */
    method Broadcast(message: Value)
      requires Valid()
      modifies this`outbox
      ensures Valid()
      ensures outbox == Fanout(old(outbox), clients, readyState, message)
    {
      var pending := clients;
      while pending != {}
        invariant pending <= clients
        invariant outbox.Keys == old(outbox).Keys
        invariant forall c :: c in outbox ==>
          outbox[c] == if c in clients - pending && readyState[c] == Open then old(outbox)[c] + [Data(message)] else old(outbox)[c]
        decreases pending
      {
        var c :| c in pending;
        if readyState[c] == Open {
          outbox := outbox[c := outbox[c] + [Data(message)]];
        }
        pending := pending - {c};
      }
    }
  }
}
